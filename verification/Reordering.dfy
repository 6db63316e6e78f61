/** Reordering an array inside a document, when paths address its elements by predicate. */
module Reordering {
  import opened Options
  import opened Json
  import opened Segments
  import opened Nested
  import opened NestedSteps
  import opened SetLaws
  import RemoveLaws
  import opened LocationLaws

  /** `y` is `x` with the array at `at` in another order. */
  predicate Reordered(x: JSON, y: JSON, at: seq<Step>, p: seq<nat>, q: seq<nat>) {
    if at == [] then x.Arr? && y.Arr? && PermutedBy(x.items, y.items, p, q)
    else
      && Child(x, at[0]).Some? && Child(y, at[0]).Some? && Fits(x, at[0])
      && y == Put(x, at[0], Child(y, at[0]).value)
      && Reordered(Child(x, at[0]).value, Child(y, at[0]).value, at[1..], p, q)
  }

  /** Equal, or equal but for the order of one array. */
  predicate Alike(x: JSON, y: JSON, at: seq<Step>, p: seq<nat>, q: seq<nat>) {
    x == y || Reordered(x, y, at, p, q)
  }

  /**
   * The path does not address the array at `at` by index, and no predicate on the way tests a key whose
   * value holds that array.
   */
  predicate Unindexed(show: Printer, x: JSON, segs: Path, at: seq<Step>)
    decreases |segs|
  {
    segs != [] ==>
      if at == [] then x.Arr? ==> ArrayIndex(segs[0]).None?
      else
        && (x.Arr? && ParsePredicate(segs[0]).Some? && |at| > 1 ==> at[1] != Key(ParsePredicate(segs[0]).value.key))
        && (SlotOf(show, x, segs[0]) == At(at[0]) && Child(x, at[0]).Some? ==>
              Unindexed(show, Child(x, at[0]).value, segs[1..], at[1..]))
  }

  lemma SameKind(x: JSON, y: JSON, at: seq<Step>, p: seq<nat>, q: seq<nat>)
    requires Reordered(x, y, at, p, q)
    ensures (x.Obj? && y.Obj?) || (x.Arr? && y.Arr? && |x.items| == |y.items|)
  {}

  /** The other children are the same. */
  lemma OtherChildren(x: JSON, y: JSON, at: seq<Step>, p: seq<nat>, q: seq<nat>, st: Step)
    requires Reordered(x, y, at, p, q) && at != [] && st != at[0]
    ensures Child(x, st) == Child(y, st)
  {}

  lemma SelectsAlike(show: Printer, x: JSON, y: JSON, at: seq<Step>, p: seq<nat>, q: seq<nat>, pred: Predicate)
    requires Reordered(x, y, at, p, q) && (at != [] ==> at[0] != Key(pred.key))
    ensures Selects(show, x, pred) == Selects(show, y, pred)
  {
    if at != [] && x.Obj? { OtherChildren(x, y, at, p, q, Key(pred.key)); }
  }

  lemma {:induction false} MatchPointwise(show: Printer, a: seq<JSON>, b: seq<JSON>, pred: Predicate)
    requires |a| == |b| && forall i | 0 <= i < |a| :: Selects(show, a[i], pred) == Selects(show, b[i], pred)
    ensures MatchItems(show, a, pred) == MatchItems(show, b, pred)
    decreases |a|
  {
    if a != [] { MatchPointwise(show, a[..|a| - 1], b[..|b| - 1], pred); }
  }

  /** Above the array, a segment names the same child in both documents. */
  lemma SameSlot(show: Printer, x: JSON, y: JSON, at: seq<Step>, p: seq<nat>, q: seq<nat>, segs: Path)
    requires Reordered(x, y, at, p, q) && at != [] && segs != [] && Unindexed(show, x, segs, at)
    ensures SlotOf(show, x, segs[0]) == SlotOf(show, y, segs[0])
  {
    SameKind(x, y, at, p, q);
    if x.Arr? && ParsePredicate(segs[0]).Some? {
      var pred := ParsePredicate(segs[0]).value;
      forall i | 0 <= i < |x.items| ensures Selects(show, x.items[i], pred) == Selects(show, y.items[i], pred) {
        if Idx(i) == at[0] {
          SelectsAlike(show, x.items[i], y.items[i], at[1..], p, q, pred);
        } else {
          OtherChildren(x, y, at, p, q, Idx(i));
          assert Child(x, Idx(i)) == Some(x.items[i]) && Child(y, Idx(i)) == Some(y.items[i]);
        }
      }
      MatchPointwise(show, x.items, y.items, pred);
    }
  }

  /** The path reaches neither the array nor anything around it. */
  predicate EndsBeyond(show: Printer, x: JSON, segs: Path, at: seq<Step>)
    decreases |segs|
  {
    segs != [] &&
    (at != [] && SlotOf(show, x, segs[0]) == At(at[0]) && Child(x, at[0]).Some? ==>
       EndsBeyond(show, Child(x, at[0]).value, segs[1..], at[1..]))
  }

  /** Such a path reads the same in both documents. */
  lemma {:induction false} ReadsAlike(
    show: Printer, x: JSON, y: JSON, at: seq<Step>, p: seq<nat>, q: seq<nat>, segs: Path)
    requires Reordered(x, y, at, p, q) && Unindexed(show, x, segs, at) && EndsBeyond(show, x, segs, at)
    ensures Get(show, x, segs) == Get(show, y, segs)
    decreases |segs|
  {
    if at == [] {
      if ParsePredicate(segs[0]).Some? { PermutationKeepsReads(show, x.items, y.items, p, q, segs); }
    } else {
      SameSlot(show, x, y, at, p, q, segs);
      match SlotOf(show, x, segs[0])
      case At(st) =>
        if st == at[0] {
          ReadsAlike(show, Child(x, st).value, Child(y, st).value, at[1..], p, q, segs[1..]);
        } else {
          OtherChildren(x, y, at, p, q, st);
        }
      case _ =>
    }
  }

  /** Putting the same value at another place keeps the relation, and at or around the array makes them equal. */
  lemma PutBoth(x: JSON, y: JSON, at: seq<Step>, p: seq<nat>, q: seq<nat>, st: Step, n: JSON)
    requires Reordered(x, y, at, p, q) && at != [] && Fits(x, st)
    ensures Fits(y, st) && Alike(Put(x, st, n), Put(y, st, n), at, p, q)
  {
    SameKind(x, y, at, p, q);
    var a := at[0];
    var u, v := Put(x, st, n), Put(y, st, n);
    if st == a {
      assert u == v;
    } else {
      PutThenChild(x, st, n, a);
      PutThenChild(y, st, n, a);
      PutsCommute(x, a, Child(y, a).value, st, n);
    }
  }

  lemma PutsCommute(x: JSON, a: Step, m: JSON, st: Step, n: JSON)
    requires Child(x, a).Some? && Fits(x, st) && st != a
    ensures Fits(x, a) && Fits(Put(x, a, m), st) && Fits(Put(x, st, n), a)
    ensures Put(Put(x, a, m), st, n) == Put(Put(x, st, n), a, m)
  {
    if x.Obj? {
      assert x.fields[a.k := m][st.k := n] == x.fields[st.k := n][a.k := m];
    } else {
      var i, j := a.i, st.i;
      assert Pad(x.items[i := m], j + 1)[j := n] == Pad(x.items, j + 1)[j := n][i := m];
      assert Pad(x.items, i + 1) == x.items;
    }
  }

  lemma PutAlike(x: JSON, y: JSON, at: seq<Step>, p: seq<nat>, q: seq<nat>, m: JSON, n: JSON, rest: seq<Step>,
                 p': seq<nat>, q': seq<nat>)
    requires Reordered(x, y, at, p, q) && at != [] && Alike(m, n, rest, p', q')
    ensures Fits(x, at[0]) && Fits(y, at[0])
    ensures Alike(Put(x, at[0], m), Put(y, at[0], n), [at[0]] + rest, p', q')
  {
    SameKind(x, y, at, p, q);
    var a := at[0];
    PutThenChild(x, a, m, a);
    PutThenChild(y, a, n, a);
    assert Put(y, a, n) == Put(x, a, n) && Put(Put(x, a, m), a, n) == Put(x, a, n);
    assert ([a] + rest)[1..] == rest;
  }

  predicate WriteAlike(v: Write, w: Write, at: seq<Step>, p: seq<nat>, q: seq<nat>) {
    match (v, w)
    case (Written(m), Written(n)) => Alike(m, n, at, p, q)
    case (Refused(e), Refused(f)) => e == f
    case _ => false
  }

  /** The write goes into the same child of both, or replaces what is there. */
  lemma SameWithin(
    show: Printer, x: JSON, y: JSON, at: seq<Step>, p: seq<nat>, q: seq<nat>, v: JSON, segs: Path, w: Write)
    requires segs != [] && Reordered(x, y, at, p, q) && at != [] && Unindexed(show, x, segs, at)
    requires SlotOf(show, x, segs[0]).At?
    requires var st := SlotOf(show, x, segs[0]).step;
             Within(show, ChildOrNull(x, st), v, segs[1..]) == w == Within(show, ChildOrNull(y, st), v, segs[1..])
    ensures WriteAlike(SetAt(show, x, v, segs), SetAt(show, y, v, segs), at, p, q)
  {
    SameSlot(show, x, y, at, p, q, segs);
    var st := SlotOf(show, x, segs[0]).step;
    SetStep(show, x, v, segs, st);
    SetStep(show, y, v, segs, st);
    if w.Written? { PutBoth(x, y, at, p, q, st, w.doc); }
  }

  /** The write goes on towards the array. */
  lemma AlikeWithin(
    show: Printer, x: JSON, y: JSON, at: seq<Step>, p: seq<nat>, q: seq<nat>, v: JSON, segs: Path, m: Write, n: Write)
    requires segs != [] && Reordered(x, y, at, p, q) && at != [] && Unindexed(show, x, segs, at)
    requires SlotOf(show, x, segs[0]) == At(at[0]) && WriteAlike(m, n, at[1..], p, q)
    requires Within(show, ChildOrNull(x, at[0]), v, segs[1..]) == m
    requires Within(show, ChildOrNull(y, at[0]), v, segs[1..]) == n
    ensures WriteAlike(SetAt(show, x, v, segs), SetAt(show, y, v, segs), at, p, q)
  {
    SameSlot(show, x, y, at, p, q, segs);
    SetStep(show, x, v, segs, at[0]);
    SetStep(show, y, v, segs, at[0]);
    assert at == [at[0]] + at[1..];
    if m.Written? { PutAlike(x, y, at, p, q, m.doc, n.doc, at[1..], p, q); }
  }

  /** A write gives documents that are alike again, or is refused in both for the same reason. */
  lemma {:induction false} WritesAlike(
    show: Printer, x: JSON, y: JSON, at: seq<Step>, p: seq<nat>, q: seq<nat>, v: JSON, segs: Path)
    requires segs != [] && Reordered(x, y, at, p, q) && Unindexed(show, x, segs, at)
    ensures WriteAlike(SetAt(show, x, v, segs), SetAt(show, y, v, segs), at, p, q)
    decreases |segs|
  {
    SameKind(x, y, at, p, q);
    if at == [] {
      if ParsePredicate(segs[0]).Some? { PermutationPermutesWrites(show, x.items, y.items, p, q, v, segs); }
    } else {
      SameSlot(show, x, y, at, p, q, segs);
      if SlotOf(show, x, segs[0]).At? {
        var st, rest := SlotOf(show, x, segs[0]).step, segs[1..];
        var a, b := ChildOrNull(x, st), ChildOrNull(y, st);
        if st == at[0] && rest != [] && ContainerMatches(a, rest[0]) {
          SameKind(a, b, at[1..], p, q);
          WritesAlike(show, a, b, at[1..], p, q, v, rest);
          AlikeWithin(show, x, y, at, p, q, v, segs, SetAt(show, a, v, rest), SetAt(show, b, v, rest));
        } else {
          if st == at[0] { SameKind(a, b, at[1..], p, q); } else { OtherChildren(x, y, at, p, q, st); }
          SameWithin(show, x, y, at, p, q, v, segs, Within(show, a, v, rest));
        }
      }
    }
  }

  // ----- removals -----

  /** Where the array stands once the path is removed. */
  function After(show: Printer, x: JSON, segs: Path, at: seq<Step>): seq<Step> {
    match Locate(show, x, segs)
    case Some(l) => (match Moved(l, at) case Some(m) => m case None => at)
    case None => at
  }

  /** Dropping another child; an earlier element of an array around the reordered one moves that up. */
  lemma DropAlike(x: JSON, y: JSON, at: seq<Step>, p: seq<nat>, q: seq<nat>, st: Step)
    requires Reordered(x, y, at, p, q) && at != [] && Child(x, st).Some?
    ensures Child(y, st).Some?
    ensures var to := if Moved([st], at).Some? then Moved([st], at).value else at;
            Alike(Drop(x, st), Drop(y, st), to, p, q)
  {
    SameKind(x, y, at, p, q);
    if st == at[0] {
      if x.Arr? {
        assert x.items[..st.i] == y.items[..st.i] && x.items[st.i + 1..] == y.items[st.i + 1..];
      } else {
        assert y.fields - {st.k} == x.fields - {st.k};
      }
    } else {
      DropBeside(x, y, at, p, q, st);
    }
  }

  lemma DropBeside(x: JSON, y: JSON, at: seq<Step>, p: seq<nat>, q: seq<nat>, st: Step)
    requires Reordered(x, y, at, p, q) && at != [] && Child(x, st).Some? && st != at[0]
    ensures Child(y, st).Some?
    ensures var to := if Moved([st], at).Some? then Moved([st], at).value else at;
            Alike(Drop(x, st), Drop(y, st), to, p, q)
  {
    var a, n := at[0], Child(y, at[0]).value;
    SameKind(x, y, at, p, q);
    OtherChildren(x, y, at, p, q, st);
    if x.Obj? {
      assert y.fields - {st.k} == (x.fields - {st.k})[a.k := n];
    } else {
      var i := if st.i < a.i then a.i - 1 else a.i;
      assert Pad(x.items, a.i + 1) == x.items;
      assert Drop(y, st).items == Drop(x, st).items[i := n];
      assert Pad(Drop(x, st).items, i + 1) == Drop(x, st).items;
    }
  }

  lemma AfterBelow(show: Printer, x: JSON, segs: Path, at: seq<Step>, st: Step)
    requires |segs| > 1 && SlotOf(show, x, segs[0]) == At(st) && Child(x, st).Some? && at != []
    ensures After(show, x, segs, at)
            == if st == at[0] then [st] + After(show, Child(x, st).value, segs[1..], at[1..]) else at
  {
    var child := Child(x, st).value;
    if Locate(show, child, segs[1..]).Some? {
      RemoveLaws.LocateStep(show, x, segs);
      RemoveLaws.LocateStep(show, child, segs[1..]);
      var l := Locate(show, x, segs).value;
      assert l[1..] == Locate(show, child, segs[1..]).value;
    }
    if st == at[0] { assert at == [st] + at[1..]; }
  }

  /** A removal that ends here, or goes on elsewhere than towards the array. */
  lemma RemovalBeside(show: Printer, x: JSON, y: JSON, at: seq<Step>, p: seq<nat>, q: seq<nat>, segs: Path, st: Step)
    requires segs != [] && Reordered(x, y, at, p, q) && at != [] && Unindexed(show, x, segs, at)
    requires SlotOf(show, x, segs[0]) == At(st) && (|segs| == 1 || st != at[0])
    ensures Alike(RemoveAt(show, x, segs), RemoveAt(show, y, segs), After(show, x, segs, at), p, q)
  {
    SameKind(x, y, at, p, q);
    SameSlot(show, x, y, at, p, q, segs);
    RemoveStep(show, x, segs, st);
    RemoveStep(show, y, segs, st);
    if st != at[0] { OtherChildren(x, y, at, p, q, st); }
    if Child(x, st).Some? {
      if |segs| == 1 {
        assert Locate(show, Child(x, st).value, segs[1..]) == Some([]);
        DropAlike(x, y, at, p, q, st);
      } else {
        AfterBelow(show, x, segs, at, st);
        PutBoth(x, y, at, p, q, st, RemoveAt(show, Child(x, st).value, segs[1..]));
      }
    }
  }

  /** A removal gives documents that are alike again. */
  lemma {:induction false} RemovalsAlike(
    show: Printer, x: JSON, y: JSON, at: seq<Step>, p: seq<nat>, q: seq<nat>, segs: Path)
    returns (p': seq<nat>, q': seq<nat>)
    requires segs != [] && Reordered(x, y, at, p, q) && Unindexed(show, x, segs, at)
    ensures Alike(RemoveAt(show, x, segs), RemoveAt(show, y, segs), After(show, x, segs, at), p', q')
    decreases |segs|
  {
    p', q' := p, q;
    SameKind(x, y, at, p, q);
    if at == [] {
      if ParsePredicate(segs[0]).Some? {
        p', q' := PermutationPermutesRemovals(show, x.items, y.items, p, q, segs);
      }
    } else {
      SameSlot(show, x, y, at, p, q, segs);
      match SlotOf(show, x, segs[0])
      case At(st) =>
        if |segs| == 1 || st != at[0] {
          RemovalBeside(show, x, y, at, p, q, segs, st);
        } else {
          var a, b, rest := Child(x, st).value, Child(y, st).value, segs[1..];
          RemoveStep(show, x, segs, st);
          RemoveStep(show, y, segs, st);
          AfterBelow(show, x, segs, at, st);
          p', q' := RemovalsAlike(show, a, b, at[1..], p, q, rest);
          var to := After(show, a, rest, at[1..]);
          PutAlike(x, y, at, p, q, RemoveAt(show, a, rest), RemoveAt(show, b, rest), to, p', q');
        }
      case _ =>
    }
  }
}

/** Reordering an array of the spec, as far as the request is concerned. */
module RequestOrder {
  import opened Json
  import opened Nested
  import opened PathParsing
  import opened CallConfig
  import opened Reordering
  import CallConfigLaws
  import RemoveLaws
  import RequestLaws

  type Fields = map<string, JSON>

  /** No mapping that writes into the body addresses the array by index. */
  predicate WritesUnindexed(show: Printer, effects: seq<Effect>, r: Request, at: seq<Step>) {
    effects != [] ==>
      && (effects[0].ToBody? && effects[0].path != [] ==> Unindexed(show, Obj(r.body), effects[0].path, at))
      && WritesUnindexed(show, effects[1..], Apply(show, effects[0], r), at)
  }

  lemma MappingAlike(show: Printer, e: Effect, r: Request, s: Request, at: seq<Step>, p: seq<nat>, q: seq<nat>)
    requires Alike(Obj(r.body), Obj(s.body), at, p, q)
    requires e.ToBody? && e.path != [] ==> Unindexed(show, Obj(r.body), e.path, at)
    ensures Alike(Obj(Apply(show, e, r).body), Obj(Apply(show, e, s).body), at, p, q)
  {
    if e.ToBody? && e.path != [] && r.body != s.body {
      WritesAlike(show, Obj(r.body), Obj(s.body), at, p, q, e.val, e.path);
      if SetAt(show, Obj(r.body), e.val, e.path).Written? {
        RequestLaws.WriteKeepsKind(show, Obj(r.body), e.val, e.path);
        RequestLaws.WriteKeepsKind(show, Obj(s.body), e.val, e.path);
      }
    }
  }

  lemma {:induction false} MappingsAlike(
    show: Printer, effects: seq<Effect>, r: Request, s: Request, at: seq<Step>, p: seq<nat>, q: seq<nat>)
    requires Alike(Obj(r.body), Obj(s.body), at, p, q) && WritesUnindexed(show, effects, r, at)
    ensures Alike(Obj(ApplyAll(show, effects, r).body), Obj(ApplyAll(show, effects, s).body), at, p, q)
    decreases |effects|
  {
    if effects != [] {
      MappingAlike(show, effects[0], r, s, at, p, q);
      MappingsAlike(show, effects[1..], Apply(show, effects[0], r), Apply(show, effects[0], s), at, p, q);
    }
  }

  /** Nor does any resolver source, each in the body as the strip has left it by then. */
  predicate SourcesUnindexed(show: Printer, mappings: seq<Mapping>, body: Fields, at: seq<Step>) {
    mappings != [] ==>
      && (SourceOf(mappings[0]).Some? ==> Unindexed(show, Obj(body), SourceOf(mappings[0]).value, at))
      && SourcesUnindexed(show, mappings[1..], StripOne(show, mappings[0], body), AfterOne(show, mappings[0], body, at))
  }

  function AfterOne(show: Printer, m: Mapping, body: Fields, at: seq<Step>): seq<Step> {
    match SourceOf(m) case Some(s) => After(show, Obj(body), s, at) case None => at
  }

  lemma {:induction false} StripAlike(
    show: Printer, mappings: seq<Mapping>, b: Fields, c: Fields, at: seq<Step>, p: seq<nat>, q: seq<nat>)
    returns (at': seq<Step>, p': seq<nat>, q': seq<nat>)
    requires Alike(Obj(b), Obj(c), at, p, q) && SourcesUnindexed(show, mappings, b, at)
    ensures Alike(Obj(Strip(show, mappings, b)), Obj(Strip(show, mappings, c)), at', p', q')
    decreases |mappings|
  {
    at', p', q' := at, p, q;
    if mappings != [] && b != c {
      var source := SourceOf(mappings[0]);
      if source.Some? {
        p', q' := RemovalsAlike(show, Obj(b), Obj(c), at, p, q, source.value);
        RemoveLaws.RemoveKeepsKind(show, Obj(b), source.value);
        RemoveLaws.RemoveKeepsKind(show, Obj(c), source.value);
      }
      at', p', q' := StripAlike(show, mappings[1..], StripOne(show, mappings[0], b), StripOne(show, mappings[0], c),
                                AfterOne(show, mappings[0], b, at), p', q');
    }
  }

  /** The same inputs, but for the order of one array of the spec. */
  ghost predicate SameButOrder(inp: Inputs, other: Inputs, k: string, at: seq<Step>, p: seq<nat>, q: seq<nat>) {
    && k in inp.spec && k in other.spec
    && other == inp.(spec := inp.spec[k := other.spec[k]], resource := other.resource)
    && Reordered(inp.spec[k], other.spec[k], at, p, q)
    && Reordered(inp.resource, other.resource, [Key("spec"), Key(k)] + at, p, q)
  }

  /** A field with another value, nil in neither case, fills the body with that value. */
  lemma FillOther(wanted: set<string>, fields: Fields, k: string, v: JSON)
    requires k in fields && fields[k] != Null && v != Null
    ensures FillBody(wanted, fields[k := v], map[])
            == var body := FillBody(wanted, fields, map[]); if k != "" && k in wanted then body[k := v] else body
  {}

  lemma FillUnder(wanted: set<string>, fields: Fields, body: Fields, k: string, v: JSON)
    requires k in body && body[k] != Null && v != Null
    ensures FillBody(wanted, fields, body[k := v]) == FillBody(wanted, fields, body)[k := v]
    ensures FillBody(wanted, fields, body)[k] == body[k]
  {}

  lemma FilledAlike(inp: Inputs, other: Inputs, info: CallInfo, k: string, at: seq<Step>, p: seq<nat>, q: seq<nat>)
    requires SameButOrder(inp, other, k, at, p, q)
    ensures Alike(Obj(CallConfigLaws.Filled(inp, info).body), Obj(CallConfigLaws.Filled(other, info).body),
                  [Key(k)] + at, p, q)
  {
    var v := other.spec[k];
    SameKind(inp.spec[k], v, at, p, q);
    FillOther(info.bodyFields, inp.spec, k, v);
    var b := FillBody(info.bodyFields, inp.spec, map[]);
    var x := FillBody(info.bodyFields, inp.status, b);
    FilledBody(inp, info);
    FilledBody(other, info);
    if k != "" && k in info.bodyFields {
      assert b[k] == inp.spec[k];
      FillUnder(info.bodyFields, inp.status, b, k, v);
      ReorderedUnder(x, k, v, at, p, q);
    }
  }

  lemma FilledBody(inp: Inputs, info: CallInfo)
    ensures CallConfigLaws.Filled(inp, info).body
            == FillBody(info.bodyFields, inp.status, FillBody(info.bodyFields, inp.spec, map[]))
  {}

  lemma ReorderedUnder(x: Fields, k: string, v: JSON, at: seq<Step>, p: seq<nat>, q: seq<nat>)
    requires k in x && Reordered(x[k], v, at, p, q)
    ensures Reordered(Obj(x), Obj(x[k := v]), [Key(k)] + at, p, q)
  {
    assert ([Key(k)] + at)[1..] == at;
  }

  /** The resource path, if a mapping reads one, leads past the array by predicate, or elsewhere. */
  predicate ReadsBeyond(inp: Inputs, m: Mapping, at: seq<Step>) {
    match ParsePath(m.inCustomResource)
    case Some(segs) =>
      segs != [] ==> Unindexed(inp.show, inp.resource, segs, at) && EndsBeyond(inp.show, inp.resource, segs, at)
    case None => true
  }

  predicate MappingsReadBeyond(inp: Inputs, info: CallInfo, at: seq<Step>) {
    && (forall m | m in info.requestFieldMapping :: ReadsBeyond(inp, m, at))
    && (forall m | m in info.fieldMapping && m.resolver.NoResolver? :: ReadsBeyond(inp, m, at))
  }

  lemma SameEffects(inp: Inputs, other: Inputs, info: CallInfo, k: string, at: seq<Step>, p: seq<nat>, q: seq<nat>)
    requires SameButOrder(inp, other, k, at, p, q)
    requires MappingsReadBeyond(inp, info, [Key("spec"), Key(k)] + at)
    ensures Effects(inp, info) == Effects(other, info)
  {
    forall m | ReadsBeyond(inp, m, [Key("spec"), Key(k)] + at)
      ensures ReadResource(inp, m.inCustomResource) == ReadResource(other, m.inCustomResource)
    {
      match ParsePath(m.inCustomResource)
      case Some(segs) =>
        if segs != [] { ReadsAlike(inp.show, inp.resource, other.resource, [Key("spec"), Key(k)] + at, p, q, segs); }
      case None =>
    }
    forall i | 0 <= i < |info.requestFieldMapping|
      ensures OldEffect(inp, info.requestFieldMapping[i]) == OldEffect(other, info.requestFieldMapping[i])
    {
      assert info.requestFieldMapping[i] in info.requestFieldMapping;
    }
    forall i | 0 <= i < |info.fieldMapping|
      ensures NewEffect(inp, info.fieldMapping[i]) == NewEffect(other, info.fieldMapping[i])
    {
      assert info.fieldMapping[i] in info.fieldMapping;
    }
  }

  /**
   * When mappings and resolver sources address an array of the spec by predicate, its order does not matter:
   * the body of the request is the same, or the same but for the order of that array.
   */
  lemma BuildIgnoresArrayOrder(
    inp: Inputs, other: Inputs, info: CallInfo, k: string, at: seq<Step>, p: seq<nat>, q: seq<nat>)
    returns (at': seq<Step>, p': seq<nat>, q': seq<nat>)
    requires SameButOrder(inp, other, k, at, p, q)
    requires MappingsReadBeyond(inp, info, [Key("spec"), Key(k)] + at)
    requires WritesUnindexed(inp.show, Effects(inp, info), CallConfigLaws.Filled(inp, info), [Key(k)] + at)
    requires SourcesUnindexed(inp.show, info.fieldMapping, RequestLaws.Mapped(inp, info).body, [Key(k)] + at)
    ensures Alike(Obj(Build(inp, info).body), Obj(Build(other, info).body), at', p', q')
  {
    FilledAlike(inp, other, info, k, at, p, q);
    SameEffects(inp, other, info, k, at, p, q);
    MappingsAlike(inp.show, Effects(inp, info), CallConfigLaws.Filled(inp, info), CallConfigLaws.Filled(other, info),
                  [Key(k)] + at, p, q);
    at', p', q' := StripAlike(inp.show, info.fieldMapping, RequestLaws.Mapped(inp, info).body,
                              RequestLaws.Mapped(other, info).body, [Key(k)] + at, p, q);
  }
}
