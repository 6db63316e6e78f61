/**
 * Which segments address arrays, told by their texts alone: the decimal text of an index, and `?key=want`.
 * Any other segment is a map key, however much it looks like a number.
 */
module SegmentLaws {
  import opened Options
  import opened Json
  import opened Segments
  import opened Nested

  // ----- texts -----

  /** The decimal texts, digit by digit. */
  lemma DecimalTexts(n: nat)
    ensures n < 10 ==> IndexText(n) == ["0123456789"[n]]
    ensures n >= 10 ==> IndexText(n) == IndexText(n / 10) + ["0123456789"[n % 10]]
  {}

  ghost predicate IsIndexText(seg: string) {
    exists n: nat | n <= MAX_INT :: seg == IndexText(n)
  }

  predicate Tests(seg: string, key: string, want: string) {
    seg == "?" + key + "=" + want && key != "" && '=' !in key
  }

  ghost predicate IsPredicateText(seg: string) {
    exists key, want :: Tests(seg, key, want)
  }

  /** Digits without a needless zero in front are the decimal text of their value. */
  lemma {:induction false} CanonicalDigits(s: string)
    requires s != "" && AllDigits(s) && (|s| > 1 ==> s[0] != '0')
    ensures IndexText(DigitsValue(s)) == s
    decreases |s|
  {
    if |s| > 1 {
      var front, d := s[..|s| - 1], s[|s| - 1];
      CanonicalDigits(front);
      assert s == front + [d];
      Leading(front);
    }
  }

  lemma {:induction false} Leading(s: string)
    requires s != "" && AllDigits(s) && s[0] != '0'
    ensures DigitsValue(s) > 0
    decreases |s|
  {
    if |s| > 1 { Leading(s[..|s| - 1]); }
  }

  lemma IndexExactly(seg: string, n: nat)
    ensures ArrayIndex(seg) == Some(n) <==> n <= MAX_INT && seg == IndexText(n)
  {
    if ArrayIndex(seg) == Some(n) { CanonicalDigits(seg); }
    if n <= MAX_INT { IndexTextReadsBack(n); }
  }

  lemma PredicateReadsBack(seg: string, key: string, want: string)
    requires Tests(seg, key, want)
    ensures ParsePredicate(seg) == Some(Predicate(key, want))
  {
    var body := seg[1..];
    assert seg[0] == '?' && body == key + "=" + want;
    FindIs(body, '=', |key|);
    assert body[..|key|] == key && body[|key| + 1..] == want;
  }

  lemma PredicateSpelling(seg: string)
    requires ParsePredicate(seg).Some?
    ensures Tests(seg, ParsePredicate(seg).value.key, ParsePredicate(seg).value.want)
  {
    var body, p := seg[1..], ParsePredicate(seg).value;
    assert seg == "?" + body && body == p.key + "=" + p.want && seg == "?" + p.key + "=" + p.want;
  }

  lemma PredicateExactly(seg: string, key: string, want: string)
    ensures ParsePredicate(seg) == Some(Predicate(key, want)) <==> Tests(seg, key, want)
  {
    if Tests(seg, key, want) { PredicateReadsBack(seg, key, want); }
    if ParsePredicate(seg).Some? { PredicateSpelling(seg); }
  }

  lemma ArraySegments(seg: string)
    ensures WantsArray(seg) <==> IsIndexText(seg) || IsPredicateText(seg)
  {
    if ArrayIndex(seg).Some? { IndexExactly(seg, ArrayIndex(seg).value); }
    if n: nat :| n <= MAX_INT && seg == IndexText(n) { IndexExactly(seg, n); }
    if ParsePredicate(seg).Some? { PredicateSpelling(seg); }
    if key, want :| Tests(seg, key, want) { PredicateReadsBack(seg, key, want); }
  }

  // ----- into objects -----

  /** An object takes any text for a key, one that looks like an index or a predicate included. */
  lemma FieldByKey(show: Printer, m: map<string, JSON>, v: JSON, k: string)
    ensures Get(show, Obj(m), [k]) == if k in m then Found(m[k]) else Absent
    ensures SetAt(show, Obj(m), v, [k]) == Written(Obj(m[k := v]))
    ensures RemoveAt(show, Obj(m), [k]) == Obj(m - {k})
  {
    assert [k][1..] == [];
    if k !in m { assert m - {k} == m; }
  }

  /** What a write finds under a key of an object, and what it goes on with there. */
  ghost function GoesOnWith(m: map<string, JSON>, k: string, next: string): JSON {
    if IsIndexText(next) || IsPredicateText(next) then (if k in m && m[k].Arr? then m[k] else Arr([]))
    else if k in m && m[k].Obj? then m[k]
    else Obj(map[])
  }

  /** Into the value at a key: kept if it is of the kind the next segment addresses, else made anew. */
  lemma WriteBelowKey(show: Printer, m: map<string, JSON>, v: JSON, k: string, rest: Path)
    requires rest != []
    ensures SetAt(show, Obj(m), v, [k] + rest)
            == match SetAt(show, GoesOnWith(m, k, rest[0]), v, rest)
               case Written(n) => Written(Obj(m[k := n]))
               case Refused(e) => Refused(e)
  {
    ArraySegments(rest[0]);
    assert ([k] + rest)[1..] == rest;
    assert Descend(ChildOrNull(Obj(m), Key(k)), rest[0]) == GoesOnWith(m, k, rest[0]);
  }

  lemma KeyOfObject(show: Printer, m: map<string, JSON>, v: JSON, k: string, seg: string)
    requires !IsIndexText(seg) && !IsPredicateText(seg)
    ensures SetAt(show, Obj(m), v, [k, seg])
            == Written(Obj(m[k := Obj(if k in m && m[k].Obj? then m[k].fields[seg := v] else map[seg := v])]))
  {
    assert [k] + [seg] == [k, seg];
    WriteBelowKey(show, m, v, k, [seg]);
    assert map[][seg := v] == map[seg := v];
  }

  /** A segment that is neither text is a key of the object there, which keeps its other keys. */
  lemma KeyKeepsObject(show: Printer, m: map<string, JSON>, f: map<string, JSON>, v: JSON, k: string, seg: string)
    requires forall n: nat | n <= MAX_INT :: seg != IndexText(n)
    requires forall key, want :: !Tests(seg, key, want)
    ensures SetAt(show, Obj(m[k := Obj(f)]), v, [k, seg]) == Written(Obj(m[k := Obj(f[seg := v])]))
    ensures k !in m || !m[k].Obj? ==> SetAt(show, Obj(m), v, [k, seg]) == Written(Obj(m[k := Obj(map[seg := v])]))
  {
    KeyOfObject(show, m[k := Obj(f)], v, k, seg);
    assert m[k := Obj(f)][k := Obj(f[seg := v])] == m[k := Obj(f[seg := v])];
    KeyOfObject(show, m, v, k, seg);
  }

  function Nils(n: nat): seq<JSON> {
    seq(n, _ => Null)
  }

  /** An index makes an array of what is not one, the object there being lost. */
  lemma IndexReplacesObject(show: Printer, m: map<string, JSON>, v: JSON, k: string, n: nat)
    requires n <= MAX_INT && (k in m ==> !m[k].Arr?)
    ensures SetAt(show, Obj(m), v, [k, IndexText(n)]) == Written(Obj(m[k := Arr(Nils(n) + [v])]))
  {
    var seg := IndexText(n);
    assert [k] + [seg] == [k, seg];
    WriteBelowKey(show, m, v, k, [seg]);
    IndexTextReadsBack(n);
    assert Pad([], n + 1)[n := v] == Nils(n) + [v];
  }

  // ----- arrays -----

  /** Reading, writing and removing one element by its index. */
  lemma ElementByIndex(show: Printer, items: seq<JSON>, v: JSON, n: nat)
    requires n <= MAX_INT
    ensures Get(show, Arr(items), [IndexText(n)]) == if n < |items| then Found(items[n]) else Absent
    ensures SetAt(show, Arr(items), v, [IndexText(n)])
            == Written(Arr(if n < |items| then items[n := v] else items + Nils(n - |items|) + [v]))
    ensures RemoveAt(show, Arr(items), [IndexText(n)])
            == if n < |items| then Arr(items[..n] + items[n + 1..]) else Arr(items)
  {
    IndexTextReadsBack(n);
    assert [IndexText(n)][1..] == [];
    if n >= |items| { assert Pad(items, n + 1)[n := v] == items + Nils(n - |items|) + [v]; }
  }

  predicate Holds(show: Printer, x: JSON, key: string, want: string) {
    x.Obj? && key in x.fields && show(x.fields[key]) == want
  }

  lemma HoldsIsSelects(show: Printer, seg: string, key: string, want: string)
    requires Tests(seg, key, want)
    ensures ParsePredicate(seg) == Some(Predicate(key, want))
    ensures forall x :: Holds(show, x, key, want) == Selects(show, x, Predicate(key, want))
  {
    PredicateReadsBack(seg, key, want);
  }

  /** By predicate: the one object whose key prints as wanted. */
  lemma ElementByPredicate(show: Printer, items: seq<JSON>, v: JSON, seg: string, key: string, want: string, i: nat)
    requires Tests(seg, key, want) && i < |items| && Holds(show, items[i], key, want)
    requires forall j | 0 <= j < |items| && j != i :: !Holds(show, items[j], key, want)
    ensures Get(show, Arr(items), [seg]) == Found(items[i])
    ensures SetAt(show, Arr(items), v, [seg]) == Written(Arr(items[i := v]))
    ensures RemoveAt(show, Arr(items), [seg]) == Arr(items[..i] + items[i + 1..])
  {
    HoldsIsSelects(show, seg, key, want);
    assert MatchItems(show, items, Predicate(key, want)) == One(i);
    assert [seg][1..] == [] && Pad(items, i + 1) == items;
  }

  /** None is absent, and refused to a write. */
  lemma NoElement(show: Printer, items: seq<JSON>, v: JSON, seg: string, key: string, want: string)
    requires Tests(seg, key, want) && forall j | 0 <= j < |items| :: !Holds(show, items[j], key, want)
    ensures Get(show, Arr(items), [seg]) == Absent
    ensures SetAt(show, Arr(items), v, [seg]) == Refused(NoMatch)
    ensures RemoveAt(show, Arr(items), [seg]) == Arr(items)
  {
    HoldsIsSelects(show, seg, key, want);
    assert MatchItems(show, items, Predicate(key, want)).Zero?;
  }

  /** Two are an error. */
  lemma SeveralElements(
    show: Printer, items: seq<JSON>, v: JSON, seg: string, key: string, want: string, i: nat, j: nat)
    requires Tests(seg, key, want) && i < j < |items|
    requires Holds(show, items[i], key, want) && Holds(show, items[j], key, want)
    ensures Get(show, Arr(items), [seg]) == Failed(Ambiguous)
    ensures SetAt(show, Arr(items), v, [seg]) == Refused(Ambiguous)
    ensures RemoveAt(show, Arr(items), [seg]) == Arr(items)
  {
    HoldsIsSelects(show, seg, key, want);
    assert MatchItems(show, items, Predicate(key, want)).Many?;
  }

  /** Nothing else names an element. */
  lemma OtherSegmentsFail(show: Printer, items: seq<JSON>, v: JSON, seg: string)
    requires !IsIndexText(seg) && !IsPredicateText(seg)
    ensures Get(show, Arr(items), [seg]) == Failed(NotAnIndex)
    ensures SetAt(show, Arr(items), v, [seg]) == Refused(NotAnIndex)
    ensures RemoveAt(show, Arr(items), [seg]) == Arr(items)
  {
    ArraySegments(seg);
  }
}
