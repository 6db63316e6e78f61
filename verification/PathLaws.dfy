/** What writes and removals leave where it is: by location in a document, and by the path that reads it. */
module LocationLaws {
  import opened Options
  import opened Json
  import opened Nested
  import opened NestedSteps
  import RemoveLaws

  // ----- one level of a write or a removal -----

  /** What a write puts at a segment: the value itself, or what it makes of the child it goes on into. */
  function Within(show: Printer, child: JSON, v: JSON, rest: Path): Write {
    if rest == [] then Written(v) else SetAt(show, Descend(child, rest[0]), v, rest)
  }

  lemma SetStep(show: Printer, c: JSON, v: JSON, segs: Path, st: Step)
    requires segs != [] && SlotOf(show, c, segs[0]) == At(st)
    ensures Fits(c, st)
    ensures SetAt(show, c, v, segs)
            == match Within(show, ChildOrNull(c, st), v, segs[1..])
               case Written(n) => Written(Put(c, st, n))
               case Refused(e) => Refused(e)
  {
    SlotFits(show, c, segs[0]);
  }

  lemma RemoveStep(show: Printer, c: JSON, segs: Path, st: Step)
    requires segs != [] && SlotOf(show, c, segs[0]) == At(st)
    ensures Child(c, st).Some? ==> Fits(c, st)
    ensures RemoveAt(show, c, segs)
            == if Child(c, st).None? then c
               else if |segs| == 1 then Drop(c, st)
               else Put(c, st, RemoveAt(show, Child(c, st).value, segs[1..]))
  {}

  // ----- where a removal leaves a location -----

  /** Where the value at `l` stands, whole, once the one at `p` is removed; None if it is not left whole. */
  function Moved(p: seq<Step>, l: seq<Step>): Option<seq<Step>> {
    if p == [] || l == [] then None
    else if p[0] == l[0] then (match Moved(p[1..], l[1..]) case Some(m) => Some([l[0]] + m) case None => None)
    else if |p| == 1 && p[0].Idx? && l[0].Idx? && p[0].i < l[0].i then Some([Idx(l[0].i - 1)] + l[1..])
    else Some(l)
  }

  predicate EndsWithKey(p: seq<Step>) {
    p != [] && p[|p| - 1].Key?
  }

  /** A value is not left whole exactly when it is removed, with something around it or in part. */
  lemma {:induction false} MovedUnlessNested(p: seq<Step>, l: seq<Step>)
    ensures Moved(p, l).None? <==> p <= l || l <= p
    ensures Moved(p, l).Some? && EndsWithKey(p) ==> Moved(p, l) == Some(l)
    decreases |p|
  {
    if p != [] && l != [] && p[0] == l[0] {
      MovedUnlessNested(p[1..], l[1..]);
      assert p == [p[0]] + p[1..] && l == [l[0]] + l[1..];
    }
  }

  lemma RemoveWhereNothing(show: Printer, c: JSON, segs: Path)
    requires segs != [] && Locate(show, c, segs).None?
    ensures RemoveAt(show, c, segs) == c
    decreases |segs|
  {
    match SlotOf(show, c, segs[0])
    case At(st) =>
      if Child(c, st).Some? && |segs| > 1 {
        RemoveWhereNothing(show, Child(c, st).value, segs[1..]);
        PutSame(c, st);
      }
    case _ =>
  }

  lemma PutSame(c: JSON, st: Step)
    requires Child(c, st).Some?
    ensures Fits(c, st) && Put(c, st, Child(c, st).value) == c
  {}

  lemma {:induction false} RemoveMoves(show: Printer, c: JSON, segs: Path, l: seq<Step>)
    requires segs != [] && Locate(show, c, segs).Some? && Moved(Locate(show, c, segs).value, l).Some?
    ensures ChildAt(RemoveAt(show, c, segs), Moved(Locate(show, c, segs).value, l).value) == ChildAt(c, l)
    decreases |segs|
  {
    RemoveLaws.LocateStep(show, c, segs);
    var st := SlotOf(show, c, segs[0]).step;
    if |segs| == 1 {
      if st.Idx? {
        if l[0].Idx? && st.i < l[0].i { RemoveLaws.DropShifts(c, st, l[0].i - 1); }
        else if l[0].Idx? { RemoveLaws.DropShifts(c, st, l[0].i); }
      } else {
        RemoveLaws.DropKeepsOtherKeys(c, st, l[0]);
      }
    } else {
      var child := Child(c, st).value;
      var n := RemoveAt(show, child, segs[1..]);
      RemoveLaws.LocateStep(show, child, segs[1..]);
      if l[0] == st {
        RemoveMoves(show, child, segs[1..], l[1..]);
        PutThenChild(c, st, n, st);
      } else {
        RemoveLaws.PutInPlace(c, st, n, l[0]);
      }
    }
  }

  /** Nothing is left where a map key was removed, or below it. */
  lemma {:induction false} RemoveEmpties(show: Printer, c: JSON, segs: Path, l: seq<Step>)
    requires segs != [] && Locate(show, c, segs).Some?
    requires EndsWithKey(Locate(show, c, segs).value) && Locate(show, c, segs).value <= l
    ensures ChildAt(RemoveAt(show, c, segs), l) == None
    decreases |segs|
  {
    RemoveLaws.LocateStep(show, c, segs);
    var st := SlotOf(show, c, segs[0]).step;
    assert l[0] == st;
    if |segs| > 1 {
      var child := Child(c, st).value;
      RemoveLaws.LocateStep(show, child, segs[1..]);
      assert Locate(show, child, segs[1..]).value <= l[1..];
      RemoveEmpties(show, child, segs[1..], l[1..]);
      PutThenChild(c, st, RemoveAt(show, child, segs[1..]), st);
    }
  }

  // ----- what a write leaves alone -----

  /** The place a write replaces: its target, or the first value on the way that it cannot go on into. */
  function Replaced(show: Printer, c: JSON, segs: Path): seq<Step>
    decreases |segs|
  {
    if segs == [] then []
    else match SlotOf(show, c, segs[0])
      case At(st) =>
        [st] + (if |segs| == 1 || !ContainerMatches(ChildOrNull(c, st), segs[1]) then []
                else Replaced(show, ChildOrNull(c, st), segs[1..]))
      case _ => []
  }

  /** The value written is at the write's target, containers discarded or not. */
  lemma {:induction false} SetLands(show: Printer, c: JSON, v: JSON, segs: Path)
    requires segs != [] && SetAt(show, c, v, segs).Written?
    ensures ChildAt(SetAt(show, c, v, segs).doc, Target(show, c, segs)) == Some(v)
    decreases |segs|
  {
    SlotFits(show, c, segs[0]);
    var st := SlotOf(show, c, segs[0]).step;
    if |segs| == 1 {
      PutThenChild(c, st, v, st);
    } else {
      var child := Descend(ChildOrNull(c, st), segs[1]);
      SetLands(show, child, v, segs[1..]);
      PutThenChild(c, st, SetAt(show, child, v, segs[1..]).doc, st);
      assert Target(show, c, segs) == [st] + Target(show, child, segs[1..]);
    }
  }

  /** A write leaves every value alone that is not inside, around or at the place it replaces. */
  lemma {:induction false} SetLeavesOthers(show: Printer, c: JSON, v: JSON, segs: Path, l: seq<Step>)
    requires segs != [] && SetAt(show, c, v, segs).Written?
    requires Diverges(Replaced(show, c, segs), l) && ChildAt(c, l).Some?
    ensures ChildAt(SetAt(show, c, v, segs).doc, l) == ChildAt(c, l)
    decreases |segs|
  {
    SlotFits(show, c, segs[0]);
    var st := SlotOf(show, c, segs[0]).step;
    var p := Replaced(show, c, segs);
    var child := ChildOrNull(c, st);
    var n := if |segs| == 1 then v else SetAt(show, Descend(child, segs[1]), v, segs[1..]).doc;
    assert p[0] == st;
    if l[0] != st {
      PutThenChild(c, st, n, l[0]);
    } else {
      assert Diverges(p[1..], l[1..]);
      assert p[1..] == Replaced(show, child, segs[1..]);
      SetLeavesOthers(show, child, v, segs[1..], l[1..]);
      PutThenChild(c, st, n, st);
    }
  }
}

module PathLaws {
  import opened Options
  import opened Json
  import opened Segments
  import opened Nested
  import opened NestedSteps
  import opened LocationLaws
  import SetLaws
  import RemoveLaws

  /** `s` leaves `t` before its end, and not for a key that a predicate they share tests. */
  predicate PartsFrom(s: Path, t: Path) {
    s != [] && t != [] &&
    if s[0] != t[0] then !WantsArray(s[0]) || !WantsArray(t[0])
    else |s| > 1 && !Tests(s[0], s[1]) && PartsFrom(s[1..], t[1..])
  }

  /** `key` is the key that predicate `seg` tests. */
  predicate Tests(seg: string, key: string) {
    ParsePredicate(seg).Some? && key == ParsePredicate(seg).value.key
  }

  /** `s` names the key that a predicate on `t` tests. */
  predicate NamesTestedKey(s: Path, t: Path) {
    |s| > 1 && t != [] && s[0] == t[0] && ((|s| == 2 && Tests(s[0], s[1])) || NamesTestedKey(s[1..], t[1..]))
  }

  /** Every predicate on the way to `t` is applied to an array. */
  predicate PredicatesMeetArrays(show: Printer, c: JSON, t: Path) {
    t != [] ==>
      && (ParsePredicate(t[0]).Some? ==> c.Arr?)
      && (SlotOf(show, c, t[0]).At? && Child(c, SlotOf(show, c, t[0]).step).Some? ==>
            PredicatesMeetArrays(show, Child(c, SlotOf(show, c, t[0]).step).value, t[1..]))
  }

  /** A slot that goes on existing whatever is put in it, unless a predicate no longer selects it. */
  lemma SlotStays(show: Printer, c: JSON, seg: string, n: JSON)
    requires SlotOf(show, c, seg).At?
    requires c.Arr? && ParsePredicate(seg).Some? ==> Selects(show, n, ParsePredicate(seg).value)
    ensures var st := SlotOf(show, c, seg).step;
            Fits(c, st) && SlotOf(show, Put(c, st, n), seg) == At(st) && Child(Put(c, st, n), st) == Some(n)
  {
    SlotAfterPut(show, c, seg, n);
    PutThenChild(c, SlotOf(show, c, seg).step, n, SlotOf(show, c, seg).step);
  }

  /** A removal elsewhere in an object leaves a predicate's verdict on it. */
  lemma RemovalStillSelects(show: Printer, item: JSON, segs: Path, p: Predicate)
    requires segs != [] && Selects(show, item, p) && segs[0] != p.key
    ensures Selects(show, RemoveAt(show, item, segs), p)
  {}

  lemma WriteStillSelects(show: Printer, item: JSON, v: JSON, segs: Path, p: Predicate)
    requires segs != [] && Selects(show, item, p) && segs[0] != p.key && SetAt(show, item, v, segs).Written?
    ensures Selects(show, SetAt(show, item, v, segs).doc, p)
  {}

  /** A removal reads as if it had not happened at every path it parts from. */
  lemma {:induction false} RemovalKeepsRead(show: Printer, c: JSON, s: Path, t: Path)
    requires PartsFrom(s, t)
    ensures Get(show, RemoveAt(show, c, s), t) == Get(show, c, t)
    ensures PredicatesMeetArrays(show, c, t) ==> PredicatesMeetArrays(show, RemoveAt(show, c, s), t)
    decreases |s|
  {
    var slot := SlotOf(show, c, s[0]);
    if slot.At? && Child(c, slot.step).Some? {
      if s[0] == t[0] {
        var child := Child(c, slot.step).value;
        var n := RemoveAt(show, child, s[1..]);
        RemovalKeepsRead(show, child, s[1..], t[1..]);
        if c.Arr? && ParsePredicate(s[0]).Some? {
          RemovalStillSelects(show, child, s[1..], ParsePredicate(s[0]).value);
        }
        SlotStays(show, c, s[0], n);
      } else if c.Arr? {
        assert !SlotOf(show, c, t[0]).At?;
        RemoveLaws.RemoveKeepsKind(show, c, s);
        assert SlotOf(show, RemoveAt(show, c, s), t[0]) == SlotOf(show, c, t[0]);
      } else {
        OtherKeyRemoved(show, c, s, t[0]);
      }
    }
  }

  lemma OtherKeyRemoved(show: Printer, c: JSON, s: Path, k: string)
    requires s != [] && c.Obj? && s[0] != k
    ensures RemoveAt(show, c, s).Obj? && Child(RemoveAt(show, c, s), Key(k)) == Child(c, Key(k))
  {}

  /** A write that discards no container keeps what is found at every path it parts from. */
  lemma {:induction false} WriteKeepsRead(show: Printer, c: JSON, v: JSON, s: Path, t: Path)
    requires PartsFrom(s, t) && SetAt(show, c, v, s).Written? && SetLaws.KeepsContainers(show, c, s)
    requires Get(show, c, t).Found?
    ensures Get(show, SetAt(show, c, v, s).doc, t) == Get(show, c, t)
    ensures PredicatesMeetArrays(show, c, t) ==> PredicatesMeetArrays(show, SetAt(show, c, v, s).doc, t)
    decreases |s|
  {
    SlotFits(show, c, s[0]);
    var st := SlotOf(show, c, s[0]).step;
    if s[0] == t[0] {
      var child := Child(c, st).value;
      assert child.Obj? || child.Arr? by { assert SlotOf(show, child, t[1..][0]).At?; }
      var n := SetAt(show, child, v, s[1..]).doc;
      WriteKeepsRead(show, child, v, s[1..], t[1..]);
      if c.Arr? && ParsePredicate(s[0]).Some? {
        WriteStillSelects(show, child, v, s[1..], ParsePredicate(s[0]).value);
      }
      SlotStays(show, c, s[0], n);
    } else {
      assert c.Obj?;
      var n := if |s| == 1 then v else SetAt(show, Descend(ChildOrNull(c, st), s[1]), v, s[1..]).doc;
      PutThenChild(c, st, n, Key(t[0]));
    }
  }

  predicate EndsWithIndex(s: Path) {
    s != [] && ArrayIndex(s[|s| - 1]).Some?
  }

  /** Nothing is found at a path once it, or a path it goes through, has been removed. */
  lemma {:induction false} RemovalTakes(show: Printer, c: JSON, s: Path, t: Path)
    requires s != [] && s <= t && !EndsWithIndex(s)
    ensures !Get(show, RemoveAt(show, c, s), t).Found?
    decreases |s|
  {
    var slot := SlotOf(show, c, s[0]);
    assert t[0] == s[0];
    if slot.At? && Child(c, slot.step).Some? {
      if |s| == 1 {
        if c.Arr? { DroppedMatch(show, c.items, ParsePredicate(s[0]).value); }
      } else {
        assert s[1..] <= t[1..];
        RemovalTakes(show, Child(c, slot.step).value, s[1..], t[1..]);
        StaysTaken(show, c, s, t, slot.step);
      }
    }
  }

  lemma StaysTaken(show: Printer, c: JSON, s: Path, t: Path, st: Step)
    requires |s| > 1 && t != [] && t[0] == s[0] && SlotOf(show, c, s[0]) == At(st) && Child(c, st).Some?
    requires !Get(show, RemoveAt(show, Child(c, st).value, s[1..]), t[1..]).Found?
    ensures !Get(show, RemoveAt(show, c, s), t).Found?
  {
    var n := RemoveAt(show, Child(c, st).value, s[1..]);
    SlotFits(show, c, s[0]);
    SlotAfterPut(show, c, s[0], n);
    PutThenChild(c, st, n, st);
  }

  lemma DroppedMatch(show: Printer, items: seq<JSON>, p: Predicate)
    requires MatchItems(show, items, p).One?
    ensures var i := MatchItems(show, items, p).idx; MatchItems(show, items[..i] + items[i + 1..], p).Zero?
  {
    var i := MatchItems(show, items, p).idx;
    var rest := items[..i] + items[i + 1..];
    forall j | 0 <= j < |rest| ensures !Selects(show, rest[j], p) {
      assert rest[j] == items[if j < i then j else j + 1];
    }
    SetLaws.NoneSelected(show, rest, p);
  }

  /** Nothing is found through a predicate once the key it tests has been removed from its element. */
  lemma {:induction false} TestedKeyTakes(show: Printer, c: JSON, s: Path, t: Path)
    requires NamesTestedKey(s, t) && PredicatesMeetArrays(show, c, t)
    ensures !Get(show, RemoveAt(show, c, s), t).Found?
    decreases |s|
  {
    var slot := SlotOf(show, c, s[0]);
    if slot.At? && Child(c, slot.step).Some? {
      var child := Child(c, slot.step).value;
      var n := RemoveAt(show, child, s[1..]);
      SlotFits(show, c, s[0]);
      SlotAfterPut(show, c, s[0], n);
      PutThenChild(c, slot.step, n, slot.step);
      if |s| == 2 && Tests(s[0], s[1]) {
        assert !Selects(show, n, ParsePredicate(s[0]).value);
      } else {
        TestedKeyTakes(show, child, s[1..], t[1..]);
      }
    }
  }

  /** Removing `s` takes away what is read at `t`: it names it, something it goes through or a key it depends on. */
  predicate Takes(s: Path, t: Path) {
    s != [] && ((s <= t && !EndsWithIndex(s)) || NamesTestedKey(s, t))
  }

  lemma RemovalTakesRead(show: Printer, c: JSON, s: Path, t: Path)
    requires Takes(s, t) && (NamesTestedKey(s, t) ==> PredicatesMeetArrays(show, c, t))
    ensures !Get(show, RemoveAt(show, c, s), t).Found?
  {
    if NamesTestedKey(s, t) { TestedKeyTakes(show, c, s, t); } else { RemovalTakes(show, c, s, t); }
  }

  /** Another child where a path goes on, or one that its predicate no longer selects. */
  lemma PutMeetsArrays(show: Printer, c: JSON, t: Path, n: JSON)
    requires t != [] && SlotOf(show, c, t[0]).At? && PredicatesMeetArrays(show, c, t)
    requires ParsePredicate(t[0]).None? || Selects(show, n, ParsePredicate(t[0]).value) ==>
               PredicatesMeetArrays(show, n, t[1..])
    ensures Fits(c, SlotOf(show, c, t[0]).step)
    ensures PredicatesMeetArrays(show, Put(c, SlotOf(show, c, t[0]).step, n), t)
  {
    SlotFits(show, c, t[0]);
    SlotAfterPut(show, c, t[0], n);
    PutThenChild(c, SlotOf(show, c, t[0]).step, n, SlotOf(show, c, t[0]).step);
  }

  lemma DropMeetsArrays(show: Printer, c: JSON, t: Path)
    requires t != [] && ArrayIndex(t[0]).None? && PredicatesMeetArrays(show, c, t)
    ensures PredicatesMeetArrays(show, RemoveAt(show, c, [t[0]]), t)
  {
    var slot := SlotOf(show, c, t[0]);
    if slot.At? && c.Arr? { DroppedMatch(show, c.items, ParsePredicate(t[0]).value); }
  }

  lemma {:induction false} RemovalStillMeetsArrays(show: Printer, c: JSON, s: Path, t: Path)
    requires Takes(s, t) && PredicatesMeetArrays(show, c, t)
    ensures PredicatesMeetArrays(show, RemoveAt(show, c, s), t)
    decreases |s|
  {
    var slot := SlotOf(show, c, s[0]);
    assert t[0] == s[0];
    if |s| == 1 {
      assert s == [t[0]];
      DropMeetsArrays(show, c, t);
    } else if slot.At? && Child(c, slot.step).Some? {
      var child := Child(c, slot.step).value;
      var n := RemoveAt(show, child, s[1..]);
      if |s| == 2 && Tests(s[0], s[1]) {
        assert !Selects(show, n, ParsePredicate(s[0]).value);
      } else {
        TakesBelow(s, t);
        RemovalStillMeetsArrays(show, child, s[1..], t[1..]);
      }
      PutMeetsArrays(show, c, t, n);
    }
  }

  lemma TakesBelow(s: Path, t: Path)
    requires Takes(s, t) && |s| > 1 && !(|s| == 2 && Tests(s[0], s[1]))
    ensures s[0] == t[0] && Takes(s[1..], t[1..])
  {
    if s <= t { assert s[1..] <= t[1..]; }
  }

  /** A removal below a scalar, or below nothing, changes nothing. */
  lemma RemovalBelowScalar(show: Printer, c: JSON, s: Path, t: Path)
    requires t <= s && t != s
    requires Get(show, c, t).Found? ==> !Get(show, c, t).value.Obj? && !Get(show, c, t).value.Arr?
    ensures RemoveAt(show, c, s) == c
  {
    NothingBelow(show, c, s, t);
    RemoveWhereNothing(show, c, s);
  }

  lemma {:induction false} NothingBelow(show: Printer, c: JSON, s: Path, t: Path)
    requires t <= s && t != s
    requires Get(show, c, t).Found? ==> !Get(show, c, t).value.Obj? && !Get(show, c, t).value.Arr?
    ensures Locate(show, c, s).None?
    decreases |t|
  {
    if t != [] {
      assert t[0] == s[0] && t[1..] <= s[1..];
      var slot := SlotOf(show, c, t[0]);
      if slot.At? && Child(c, slot.step).Some? { NothingBelow(show, Child(c, slot.step).value, s[1..], t[1..]); }
    }
  }

  // ----- paths that part at map keys, in either direction -----

  /** The segment after a predicate is a map key other than the one it tests. */
  predicate LeadsOn(s: Path) {
    |s| > 1 && (ParsePredicate(s[0]).Some? ==> !WantsArray(s[1]) && !Tests(s[0], s[1]))
  }

  /** The paths part at two map keys, predicates on the way leading to keys other than the ones they test. */
  predicate PartAtKeys(s: Path, t: Path) {
    s != [] && t != [] &&
    if s[0] != t[0] then !WantsArray(s[0]) && !WantsArray(t[0])
    else LeadsOn(s) && LeadsOn(t) && PartAtKeys(s[1..], t[1..])
  }

  lemma {:induction false} PartAtKeysBothWays(s: Path, t: Path)
    requires PartAtKeys(s, t)
    ensures PartAtKeys(t, s) && PartsFrom(s, t)
    decreases |s|
  {
    if s[0] == t[0] { PartAtKeysBothWays(s[1..], t[1..]); }
  }

  lemma {:induction false} NeverPartsFromItself(s: Path)
    ensures !PartAtKeys(s, s)
    decreases |s|
  {
    if s != [] { NeverPartsFromItself(s[1..]); }
  }

  /** Below a shared segment both paths ask for the same kind of container. */
  lemma SameKindBelow(s: Path, t: Path)
    requires PartAtKeys(s, t) && s[0] == t[0]
    ensures WantsArray(s[1]) == WantsArray(t[1])
    ensures forall x :: ContainerMatches(x, s[1]) == ContainerMatches(x, t[1])
    ensures forall x :: Descend(x, s[1]) == Descend(x, t[1])
  {}

  /** What a write makes of a container it goes into matches the next segment, and a predicate still selects it. */
  lemma WrittenChild(show: Printer, c: JSON, v: JSON, s: Path)
    requires LeadsOn(s) && SlotOf(show, c, s[0]).At?
    requires SetAt(show, Descend(ChildOrNull(c, SlotOf(show, c, s[0]).step), s[1]), v, s[1..]).Written?
    ensures var st := SlotOf(show, c, s[0]).step;
            var n := SetAt(show, Descend(ChildOrNull(c, st), s[1]), v, s[1..]).doc;
            && ContainerMatches(n, s[1]) && Fits(c, st)
            && SlotOf(show, Put(c, st, n), s[0]) == At(st) && Child(Put(c, st, n), st) == Some(n)
  {
    var st := SlotOf(show, c, s[0]).step;
    var d := Descend(ChildOrNull(c, st), s[1]);
    var n := SetAt(show, d, v, s[1..]).doc;
    SlotFits(show, d, s[1]);
    if c.Arr? && ParsePredicate(s[0]).Some? {
      assert s[1..][0] == s[1];
      WriteStillSelects(show, d, v, s[1..], ParsePredicate(s[0]).value);
    }
    SlotStays(show, c, s[0], n);
  }

  function Twice(show: Printer, c: JSON, v: JSON, s: Path, w: JSON, t: Path): Option<JSON>
    requires s != [] && t != []
  {
    match SetAt(show, c, v, s)
    case Written(d) => (match SetAt(show, d, w, t) case Written(e) => Some(e) case Refused(_) => None)
    case Refused(_) => None
  }

  /** Two writes through a shared segment are the two writes in the child. */
  lemma TwiceBelow(show: Printer, c: JSON, v: JSON, s: Path, w: JSON, t: Path, st: Step)
    requires PartAtKeys(s, t) && s[0] == t[0] && SlotOf(show, c, s[0]) == At(st)
    ensures Fits(c, st)
    ensures Twice(show, c, v, s, w, t)
            == match Twice(show, Descend(ChildOrNull(c, st), s[1]), v, s[1..], w, t[1..])
               case Some(n) => Some(Put(c, st, n))
               case None => None
  {
    SameKindBelow(s, t);
    SetStep(show, c, v, s, st);
    var d := Descend(ChildOrNull(c, st), s[1]);
    assert s[1..][0] == s[1] && t[1..][0] == t[1];
    match SetAt(show, d, v, s[1..])
    case Refused(_) =>
    case Written(n) =>
      WrittenChild(show, c, v, s);
      var put := Put(c, st, n);
      SetStep(show, put, w, t, st);
      assert Descend(n, t[1]) == n;
      match SetAt(show, n, w, t[1..])
      case Written(m) => RemoveLaws.PutTwice(c, st, n, m);
      case Refused(_) =>
  }

  lemma SharedCommute(show: Printer, c: JSON, v: JSON, s: Path, w: JSON, t: Path, st: Step)
    requires PartAtKeys(s, t) && s[0] == t[0] && SlotOf(show, c, s[0]) == At(st)
    requires var d := Descend(ChildOrNull(c, st), s[1]);
             Twice(show, d, v, s[1..], w, t[1..]) == Twice(show, d, w, t[1..], v, s[1..])
    ensures Twice(show, c, v, s, w, t) == Twice(show, c, w, t, v, s)
  {
    PartAtKeysBothWays(s, t);
    SameKindBelow(s, t);
    TwiceBelow(show, c, v, s, w, t, st);
    TwiceBelow(show, c, w, t, v, s, st);
  }

  /** Writes at paths that part at map keys commute, refusals included. */
  lemma {:induction false} WritesCommute(show: Printer, c: JSON, v: JSON, s: Path, w: JSON, t: Path)
    requires PartAtKeys(s, t)
    ensures Twice(show, c, v, s, w, t) == Twice(show, c, w, t, v, s)
    decreases |s|
  {
    if s[0] == t[0] {
      var slot := SlotOf(show, c, s[0]);
      if slot.At? {
        WritesCommute(show, Descend(ChildOrNull(c, slot.step), s[1]), v, s[1..], w, t[1..]);
        SharedCommute(show, c, v, s, w, t, slot.step);
      } else {
        NowhereToWrite(show, c, v, s, w, t);
        NowhereToWrite(show, c, w, t, v, s);
      }
    } else if c.Obj? {
      OtherKeysCommute(show, c.fields, v, s, w, t);
    } else {
      NothingAtKey(show, c, v, s);
      NothingAtKey(show, c, w, t);
    }
  }

  lemma NowhereToWrite(show: Printer, c: JSON, v: JSON, s: Path, w: JSON, t: Path)
    requires s != [] && t != [] && !SlotOf(show, c, s[0]).At?
    ensures Twice(show, c, v, s, w, t) == None
  {}

  lemma NothingAtKey(show: Printer, c: JSON, v: JSON, s: Path)
    requires s != [] && !WantsArray(s[0]) && !c.Obj?
    ensures SetAt(show, c, v, s).Refused? && RemoveAt(show, c, s) == c
  {}

  lemma OtherKeysCommute(show: Printer, m: map<string, JSON>, v: JSON, s: Path, w: JSON, t: Path)
    requires s != [] && t != [] && s[0] != t[0]
    ensures Twice(show, Obj(m), v, s, w, t) == Twice(show, Obj(m), w, t, v, s)
  {
    var a := Within(show, ChildOrNull(Obj(m), Key(s[0])), v, s[1..]);
    var b := Within(show, ChildOrNull(Obj(m), Key(t[0])), w, t[1..]);
    OtherKeyWritten(show, m, v, s, w, t);
    OtherKeyWritten(show, m, w, t, v, s);
    if a.Written? && b.Written? {
      assert m[s[0] := a.doc][t[0] := b.doc] == m[t[0] := b.doc][s[0] := a.doc];
    }
  }

  /** Writes under two different keys, the second as if alone. */
  lemma OtherKeyWritten(show: Printer, m: map<string, JSON>, v: JSON, s: Path, w: JSON, t: Path)
    requires s != [] && t != [] && s[0] != t[0]
    ensures var a := Within(show, ChildOrNull(Obj(m), Key(s[0])), v, s[1..]);
            var b := Within(show, ChildOrNull(Obj(m), Key(t[0])), w, t[1..]);
            Twice(show, Obj(m), v, s, w, t)
            == if a.Written? && b.Written? then Some(Obj(m[s[0] := a.doc][t[0] := b.doc])) else None
  {
    SetStep(show, Obj(m), v, s, Key(s[0]));
    var a := Within(show, ChildOrNull(Obj(m), Key(s[0])), v, s[1..]);
    if a.Written? {
      SetStep(show, Obj(m[s[0] := a.doc]), w, t, Key(t[0]));
      assert ChildOrNull(Obj(m[s[0] := a.doc]), Key(t[0])) == ChildOrNull(Obj(m), Key(t[0]));
    }
  }

  // ----- removals -----

  /** `s` is `t` or something around it, and ends at a map key. */
  predicate Encloses(s: Path, t: Path) {
    s != [] && t != [] && s[0] == t[0]
    && if |s| == 1 then !WantsArray(s[0]) else LeadsOn(s) && LeadsOn(t) && Encloses(s[1..], t[1..])
  }

  /** The paths part at map keys, or one encloses the other. */
  predicate Related(s: Path, t: Path) {
    PartAtKeys(s, t) || Encloses(s, t) || Encloses(t, s)
  }

  /** One level of a removal that goes on into a child: whatever it leaves there, the predicate still finds it. */
  lemma RemovedChild(show: Printer, c: JSON, s: Path, t: Path)
    requires LeadsOn(s) && LeadsOn(t) && s[0] == t[0]
    ensures var slot := SlotOf(show, c, s[0]);
            if slot.At? && Child(c, slot.step).Some?
            then var n := RemoveAt(show, Child(c, slot.step).value, s[1..]);
                 && Fits(c, slot.step) && RemoveAt(show, c, s) == Put(c, slot.step, n)
                 && SlotOf(show, RemoveAt(show, c, s), t[0]) == slot
                 && Child(RemoveAt(show, c, s), slot.step) == Some(n)
            else RemoveAt(show, c, s) == c
  {
    var slot := SlotOf(show, c, s[0]);
    if slot.At? && Child(c, slot.step).Some? {
      var child := Child(c, slot.step).value;
      assert s[1..][0] == s[1];
      if c.Arr? && ParsePredicate(s[0]).Some? {
        RemovalStillSelects(show, child, s[1..], ParsePredicate(s[0]).value);
      }
      RemoveStep(show, c, s, slot.step);
      SlotStays(show, c, s[0], RemoveAt(show, child, s[1..]));
    }
  }

  /** Two removals through a shared segment are the two removals in the child. */
  lemma RemoveTwiceBelow(show: Printer, c: JSON, s: Path, t: Path)
    requires LeadsOn(s) && LeadsOn(t) && s[0] == t[0]
    ensures var slot := SlotOf(show, c, s[0]);
            if slot.At? && Child(c, slot.step).Some?
            then var n := RemoveAt(show, RemoveAt(show, Child(c, slot.step).value, s[1..]), t[1..]);
                 Fits(c, slot.step) && RemoveAt(show, RemoveAt(show, c, s), t) == Put(c, slot.step, n)
            else RemoveAt(show, RemoveAt(show, c, s), t) == c
  {
    var slot := SlotOf(show, c, s[0]);
    RemovedChild(show, c, s, t);
    RemovedChild(show, RemoveAt(show, c, s), t, s);
    RemovedChild(show, c, t, s);
    if slot.At? && Child(c, slot.step).Some? {
      var n := RemoveAt(show, Child(c, slot.step).value, s[1..]);
      RemoveLaws.PutTwice(c, slot.step, n, RemoveAt(show, n, t[1..]));
    }
  }

  /** What a removal leaves under the first key of its path, if anything. */
  function LeftUnder(show: Printer, m: map<string, JSON>, s: Path): Option<JSON>
    requires s != []
  {
    if s[0] !in m || |s| == 1 then None else Some(RemoveAt(show, m[s[0]], s[1..]))
  }

  function WithKey(m: map<string, JSON>, k: string, v: Option<JSON>): map<string, JSON> {
    match v case Some(x) => m[k := x] case None => m - {k}
  }

  lemma RemovedUnder(show: Printer, m: map<string, JSON>, s: Path)
    requires s != []
    ensures RemoveAt(show, Obj(m), s) == Obj(WithKey(m, s[0], LeftUnder(show, m, s)))
  {
    RemoveStep(show, Obj(m), s, Key(s[0]));
    if s[0] !in m { assert m - {s[0]} == m; }
  }

  lemma OtherRemovalsCommute(show: Printer, m: map<string, JSON>, s: Path, t: Path)
    requires s != [] && t != [] && s[0] != t[0]
    ensures RemoveAt(show, RemoveAt(show, Obj(m), s), t) == RemoveAt(show, RemoveAt(show, Obj(m), t), s)
  {
    var a, b := LeftUnder(show, m, s), LeftUnder(show, m, t);
    RemovedUnder(show, m, s);
    RemovedUnder(show, m, t);
    RemovedUnder(show, WithKey(m, s[0], a), t);
    RemovedUnder(show, WithKey(m, t[0], b), s);
    assert WithKey(WithKey(m, s[0], a), t[0], b) == WithKey(WithKey(m, t[0], b), s[0], a);
  }

  /** What encloses a path takes it along, whichever goes first. */
  lemma {:induction false} EnclosingRemoval(show: Printer, c: JSON, s: Path, t: Path)
    requires Encloses(s, t)
    ensures RemoveAt(show, RemoveAt(show, c, s), t) == RemoveAt(show, c, s)
    ensures RemoveAt(show, RemoveAt(show, c, t), s) == RemoveAt(show, c, s)
    decreases |s|
  {
    if |s| == 1 {
      if c.Obj? {
        RemovedUnder(show, c.fields, s);
        RemovedUnder(show, c.fields, t);
        RemovedUnder(show, c.fields - {s[0]}, t);
        RemovedUnder(show, WithKey(c.fields, t[0], LeftUnder(show, c.fields, t)), s);
        assert WithKey(c.fields, t[0], LeftUnder(show, c.fields, t)) - {s[0]} == c.fields - {s[0]};
        assert c.fields - {s[0]} - {s[0]} == c.fields - {s[0]};
      } else {
        NothingAtKey(show, c, Null, s);
        NothingAtKey(show, c, Null, t);
      }
    } else {
      RemoveTwiceBelow(show, c, s, t);
      RemoveTwiceBelow(show, c, t, s);
      RemovedChild(show, c, s, t);
      var slot := SlotOf(show, c, s[0]);
      if slot.At? && Child(c, slot.step).Some? { EnclosingRemoval(show, Child(c, slot.step).value, s[1..], t[1..]); }
    }
  }

  lemma {:induction false} PartedRemovalsCommute(show: Printer, c: JSON, s: Path, t: Path)
    requires PartAtKeys(s, t)
    ensures RemoveAt(show, RemoveAt(show, c, s), t) == RemoveAt(show, RemoveAt(show, c, t), s)
    decreases |s|
  {
    if s[0] == t[0] {
      RemoveTwiceBelow(show, c, s, t);
      RemoveTwiceBelow(show, c, t, s);
      var slot := SlotOf(show, c, s[0]);
      if slot.At? && Child(c, slot.step).Some? {
        PartedRemovalsCommute(show, Child(c, slot.step).value, s[1..], t[1..]);
      }
    } else if c.Obj? {
      OtherRemovalsCommute(show, c.fields, s, t);
    } else {
      NothingAtKey(show, c, Null, s);
      NothingAtKey(show, c, Null, t);
    }
  }

  /** Removals at related paths commute. */
  lemma RemovalsCommute(show: Printer, c: JSON, s: Path, t: Path)
    requires Related(s, t)
    ensures RemoveAt(show, RemoveAt(show, c, s), t) == RemoveAt(show, RemoveAt(show, c, t), s)
  {
    if PartAtKeys(s, t) {
      PartedRemovalsCommute(show, c, s, t);
    } else if Encloses(s, t) {
      EnclosingRemoval(show, c, s, t);
    } else {
      EnclosingRemoval(show, c, t, s);
    }
  }

  // ----- what is absent, and the kinds of containers -----

  /** Removing what is there, or absent, leaves it absent. */
  lemma {:induction false} RemovalLeavesAbsent(show: Printer, c: JSON, s: Path)
    requires s != [] && !EndsWithIndex(s) && !Get(show, c, s).Failed?
    ensures Get(show, RemoveAt(show, c, s), s) == Absent
    decreases |s|
  {
    var slot := SlotOf(show, c, s[0]);
    if slot.At? && Child(c, slot.step).Some? {
      if |s| == 1 {
        if c.Arr? { DroppedMatch(show, c.items, ParsePredicate(s[0]).value); }
      } else {
        var child := Child(c, slot.step).value;
        RemovalLeavesAbsent(show, child, s[1..]);
        SlotFits(show, c, s[0]);
        SlotAfterPut(show, c, s[0], RemoveAt(show, child, s[1..]));
        PutThenChild(c, slot.step, RemoveAt(show, child, s[1..]), slot.step);
      }
    }
  }

  /** A removal at a related path makes no read fail, and nothing appear. */
  lemma {:induction false} RemovalKeepsAbsence(show: Printer, c: JSON, s: Path, t: Path)
    requires Related(s, t) && !Get(show, c, t).Failed?
    ensures !Get(show, RemoveAt(show, c, s), t).Failed?
    ensures Get(show, c, t) == Absent ==> Get(show, RemoveAt(show, c, s), t) == Absent
    decreases |s|
  {
    if PartAtKeys(s, t) {
      PartAtKeysBothWays(s, t);
      RemovalKeepsRead(show, c, s, t);
    } else if |s| == 1 || |t| == 1 {
      if c.Obj? {
        RemovedUnder(show, c.fields, s);
        assert s[0] == t[0];
      } else {
        NothingAtKey(show, c, Null, [s[0]]);
        assert !SlotOf(show, c, t[0]).At? && SlotOf(show, c, t[0]).Bad?;
      }
    } else {
      var slot := SlotOf(show, c, s[0]);
      RemovedChild(show, c, s, t);
      if slot.At? && Child(c, slot.step).Some? {
        RemovalKeepsAbsence(show, Child(c, slot.step).value, s[1..], t[1..]);
      }
    }
  }

  /** After a write every container on its way is of the kind it asks for. */
  lemma {:induction false} WriteSetsKinds(show: Printer, c: JSON, v: JSON, s: Path)
    requires s != [] && SetAt(show, c, v, s).Written?
    ensures RemoveLaws.KindsMatch(show, SetAt(show, c, v, s).doc, s)
    decreases |s|
  {
    if |s| > 1 {
      SlotFits(show, c, s[0]);
      var st := SlotOf(show, c, s[0]).step;
      var d := Descend(ChildOrNull(c, st), s[1]);
      var n := SetAt(show, d, v, s[1..]).doc;
      assert s[1..][0] == s[1];
      SlotFits(show, d, s[1]);
      WriteSetsKinds(show, d, v, s[1..]);
      SlotAfterPut(show, c, s[0], n);
      PutThenChild(c, st, n, st);
    }
  }

  /** A write keeps what is found at a path it parts from, if the containers there are of the kinds it asks for. */
  lemma {:induction false} WriteKeepsFound(show: Printer, c: JSON, v: JSON, s: Path, t: Path)
    requires PartAtKeys(s, t) && SetAt(show, c, v, s).Written?
    requires Get(show, c, t).Found? && RemoveLaws.KindsMatch(show, c, t)
    ensures Get(show, SetAt(show, c, v, s).doc, t) == Get(show, c, t)
    ensures RemoveLaws.KindsMatch(show, SetAt(show, c, v, s).doc, t)
    decreases |s|
  {
    SlotFits(show, c, s[0]);
    var st := SlotOf(show, c, s[0]).step;
    SetStep(show, c, v, s, st);
    if s[0] == t[0] {
      SameKindBelow(s, t);
      var child := Child(c, st).value;
      assert Descend(child, s[1]) == child && s[1..][0] == s[1] && t[1..][0] == t[1];
      WriteKeepsFound(show, child, v, s[1..], t[1..]);
      WrittenChild(show, c, v, s);
    } else {
      assert c.Obj?;
      var n := Within(show, ChildOrNull(c, st), v, s[1..]).doc;
      PutThenChild(c, st, n, Key(t[0]));
    }
  }

  /** Where the containers are of the kinds the write asks for, it keeps every read it parts from. */
  lemma {:induction false} WriteKeepsReads(show: Printer, c: JSON, v: JSON, s: Path, t: Path)
    requires PartAtKeys(s, t) && SetAt(show, c, v, s).Written? && RemoveLaws.KindsMatch(show, c, s)
    ensures Get(show, SetAt(show, c, v, s).doc, t) == Get(show, c, t)
    ensures RemoveLaws.KindsMatch(show, c, t) ==> RemoveLaws.KindsMatch(show, SetAt(show, c, v, s).doc, t)
    decreases |s|
  {
    SlotFits(show, c, s[0]);
    var st := SlotOf(show, c, s[0]).step;
    SetStep(show, c, v, s, st);
    if s[0] == t[0] {
      SameKindBelow(s, t);
      var d := Descend(ChildOrNull(c, st), s[1]);
      assert s[1..][0] == s[1] && t[1..][0] == t[1];
      if Child(c, st).None? { EmptyReads(show, d, v, s[1..], t[1..]); }
      WriteKeepsReads(show, d, v, s[1..], t[1..]);
      WrittenChild(show, c, v, s);
    } else {
      assert c.Obj?;
      var n := Within(show, ChildOrNull(c, st), v, s[1..]).doc;
      PutThenChild(c, st, n, Key(t[0]));
    }
  }

  /** In a container the write has just created, nothing is there yet. */
  lemma EmptyReads(show: Printer, d: JSON, v: JSON, s: Path, t: Path)
    requires PartAtKeys(s, t) && d == NewContainerFor(s[0]) && SetAt(show, d, v, s).Written?
    ensures Get(show, d, t) == Absent && RemoveLaws.KindsMatch(show, d, s) && RemoveLaws.KindsMatch(show, d, t)
  {}

  /** Paths of map keys are always related, and part at keys when neither is a prefix of the other. */
  lemma {:induction false} KeyPathsRelated(s: Path, t: Path)
    requires s != [] && t != [] && forall i | 0 <= i < |s| :: !WantsArray(s[i])
    requires forall i | 0 <= i < |t| :: !WantsArray(t[i])
    ensures Related(s, t) && (PartAtKeys(s, t) <==> !(s <= t) && !(t <= s))
    decreases |s|
  {
    if s[0] == t[0] {
      assert s == [s[0]] + s[1..] && t == [t[0]] + t[1..];
      if |s| > 1 && |t| > 1 { KeyPathsRelated(s[1..], t[1..]); }
    }
  }
}
