/** The request as a whole: what mappings and the strip of resolver sources leave in the body. */
module RequestLaws {
  import opened Options
  import opened Json
  import opened Nested
  import opened NestedSteps
  import opened LocationLaws
  import opened PathLaws
  import opened CallConfig
  import SetLaws
  import RemoveLaws
  import CallConfigLaws

  type Fields = map<string, JSON>

  predicate Scalar(v: JSON) {
    !v.Obj? && !v.Arr?
  }

  // ----- the strip, location by location -----

  /** The location of the j-th mapping's source in the body as the strip has left it by then. */
  function SourceAt(show: Printer, mappings: seq<Mapping>, body: Fields, j: nat): Option<seq<Step>>
    requires j < |mappings|
  {
    match SourceOf(mappings[j])
    case Some(s) => Locate(show, Obj(Strip(show, mappings[..j], body)), s)
    case None => None
  }

  lemma SourceAfter(show: Printer, mappings: seq<Mapping>, body: Fields, j: nat)
    requires 0 < j < |mappings|
    ensures SourceAt(show, mappings, body, j)
            == SourceAt(show, mappings[1..], StripOne(show, mappings[0], body), j - 1)
  {
    assert mappings[..j][1..] == mappings[1..][..j - 1] && mappings[..j][0] == mappings[0];
  }

  /** One step of the strip: the source it finds is removed, if there is one. */
  lemma StripOneIs(show: Printer, mappings: seq<Mapping>, body: Fields)
    requires mappings != []
    ensures var at, next := SourceAt(show, mappings, body, 0), Obj(StripOne(show, mappings[0], body));
            if at.None? then next == Obj(body)
            else SourceOf(mappings[0]).Some? && SourceOf(mappings[0]).value != []
                 && Locate(show, Obj(body), SourceOf(mappings[0]).value) == at
                 && next == RemoveAt(show, Obj(body), SourceOf(mappings[0]).value)
  {
    assert Strip(show, mappings[..0], body) == body;
    match SourceOf(mappings[0])
    case Some(s) =>
      RemoveLaws.RemoveKeepsKind(show, Obj(body), s);
      if Locate(show, Obj(body), s).None? { RemoveWhereNothing(show, Obj(body), s); }
    case None =>
  }

  /** Where the value at `l` of the body stands after the strip; None if a source takes it, or part of it. */
  function StripMoves(show: Printer, mappings: seq<Mapping>, body: Fields, l: seq<Step>): Option<seq<Step>> {
    if mappings == [] then Some(l)
    else
      var at := SourceAt(show, mappings, body, 0);
      var m := if at.Some? then Moved(at.value, l) else Some(l);
      if m.Some? then StripMoves(show, mappings[1..], StripOne(show, mappings[0], body), m.value) else None
  }

  lemma {:induction false} StripKeepsLocation(show: Printer, mappings: seq<Mapping>, body: Fields, l: seq<Step>)
    requires StripMoves(show, mappings, body, l).Some?
    ensures ChildAt(Obj(Strip(show, mappings, body)), StripMoves(show, mappings, body, l).value)
            == ChildAt(Obj(body), l)
    decreases |mappings|
  {
    if mappings != [] {
      StripOneIs(show, mappings, body);
      var at := SourceAt(show, mappings, body, 0);
      var m := if at.Some? then Moved(at.value, l).value else l;
      if at.Some? { RemoveMoves(show, Obj(body), SourceOf(mappings[0]).value, l); }
      StripKeepsLocation(show, mappings[1..], StripOne(show, mappings[0], body), m);
    }
  }

  /** Every source the strip finds ends at a map key, or is at least no earlier element of an array `l` goes through. */
  predicate NothingShifts(show: Printer, mappings: seq<Mapping>, body: Fields, l: seq<Step>) {
    forall j | 0 <= j < |mappings| && SourceAt(show, mappings, body, j).Some? ::
      LeavesIndexes(SourceAt(show, mappings, body, j).value, l)
  }

  predicate LeavesIndexes(p: seq<Step>, l: seq<Step>) {
    EndsWithKey(p) || Moved(p, l) == Some(l)
  }

  /** No source the strip finds is at or around `l`. */
  predicate NoSourceAround(show: Printer, mappings: seq<Mapping>, body: Fields, l: seq<Step>) {
    forall j | 0 <= j < |mappings| && SourceAt(show, mappings, body, j).Some? ::
      !(SourceAt(show, mappings, body, j).value <= l)
  }

  lemma AfterFirstSource(show: Printer, mappings: seq<Mapping>, body: Fields, l: seq<Step>)
    requires mappings != []
    ensures var rest, next, at := mappings[1..], StripOne(show, mappings[0], body), SourceAt(show, mappings, body, 0);
            && (NothingShifts(show, mappings, body, l) <==>
                  (at.Some? ==> LeavesIndexes(at.value, l)) && NothingShifts(show, rest, next, l))
            && (NoSourceAround(show, mappings, body, l) <==>
                  (at.Some? ==> !(at.value <= l)) && NoSourceAround(show, rest, next, l))
  {
    forall j | 0 < j < |mappings|
      ensures SourceAt(show, mappings, body, j)
              == SourceAt(show, mappings[1..], StripOne(show, mappings[0], body), j - 1)
    {
      SourceAfter(show, mappings, body, j);
    }
    var rest, next := mappings[1..], StripOne(show, mappings[0], body);
    forall j | 0 <= j < |rest|
      ensures SourceAt(show, rest, next, j) == SourceAt(show, mappings, body, j + 1)
    {
      SourceAfter(show, mappings, body, j + 1);
    }
  }

  /** What removing the source found does to a location at which no element moves up. */
  lemma FirstSource(show: Printer, mappings: seq<Mapping>, body: Fields, l: seq<Step>)
    requires mappings != [] && SourceAt(show, mappings, body, 0).Some?
    requires LeavesIndexes(SourceAt(show, mappings, body, 0).value, l)
    ensures var p, next := SourceAt(show, mappings, body, 0).value, Obj(StripOne(show, mappings[0], body));
            && (p <= l ==> ChildAt(next, l).None?)
            && (!(p <= l) && !(l <= p) ==> ChildAt(next, l) == ChildAt(Obj(body), l))
            && (l <= p ==> ChildAt(Obj(body), l).Some? && (Scalar(ChildAt(Obj(body), l).value) ==> p == l))
  {
    StripOneIs(show, mappings, body);
    var p, s := SourceAt(show, mappings, body, 0).value, SourceOf(mappings[0]).value;
    LocatedIsThere(show, Obj(body), s);
    MovedUnlessNested(p, l);
    if p <= l { RemoveEmpties(show, Obj(body), s, l); }
    if Moved(p, l).Some? { RemoveMoves(show, Obj(body), s, l); }
    if l <= p {
      Around(Obj(body), l, p);
      if Scalar(ChildAt(Obj(body), l).value) { ScalarsHoldNothing(Obj(body), l, p); }
    }
  }

  lemma {:induction false} ScalarsHoldNothing(c: JSON, l: seq<Step>, p: seq<Step>)
    requires l <= p && ChildAt(c, p).Some? && ChildAt(c, l).Some? && Scalar(ChildAt(c, l).value)
    ensures l == p
    decreases |l|
  {
    if l != [] {
      assert l[0] == p[0] && l[1..] <= p[1..];
      ScalarsHoldNothing(Child(c, l[0]).value, l[1..], p[1..]);
      assert l == [l[0]] + l[1..] && p == [p[0]] + p[1..];
    }
  }

  lemma {:induction false} Around(c: JSON, l: seq<Step>, p: seq<Step>)
    requires l <= p && ChildAt(c, p).Some?
    ensures ChildAt(c, l).Some?
    decreases |l|
  {
    if l != [] { Around(Child(c, l[0]).value, l[1..], p[1..]); }
  }

  lemma {:induction false} LocatedIsThere(show: Printer, c: JSON, segs: Path)
    requires Locate(show, c, segs).Some?
    ensures ChildAt(c, Locate(show, c, segs).value).Some?
    decreases |segs|
  {
    if segs != [] {
      RemoveLaws.LocateStep(show, c, segs);
      var st := SlotOf(show, c, segs[0]).step;
      LocatedIsThere(show, Child(c, st).value, segs[1..]);
      RemoveLaws.Below(c, st, Locate(show, Child(c, st).value, segs[1..]).value);
    }
  }

  /** Where nothing is, the strip puts nothing. */
  lemma {:induction false} StripFillsNothing(show: Printer, mappings: seq<Mapping>, body: Fields, l: seq<Step>)
    requires ChildAt(Obj(body), l).None? && NothingShifts(show, mappings, body, l)
    ensures ChildAt(Obj(Strip(show, mappings, body)), l).None?
    decreases |mappings|
  {
    if mappings != [] {
      AfterFirstSource(show, mappings, body, l);
      StripOneIs(show, mappings, body);
      if SourceAt(show, mappings, body, 0).Some? { FirstSource(show, mappings, body, l); }
      StripFillsNothing(show, mappings[1..], StripOne(show, mappings[0], body), l);
    }
  }

  /** A scalar in the body survives the strip exactly when no source the strip finds is at or around it. */
  lemma {:induction false} SurvivesStrip(show: Printer, mappings: seq<Mapping>, body: Fields, l: seq<Step>)
    requires ChildAt(Obj(body), l).Some? && Scalar(ChildAt(Obj(body), l).value)
    requires NothingShifts(show, mappings, body, l)
    ensures ChildAt(Obj(Strip(show, mappings, body)), l) == ChildAt(Obj(body), l)
            <==> NoSourceAround(show, mappings, body, l)
    decreases |mappings|
  {
    if mappings != [] {
      var at, rest, next := SourceAt(show, mappings, body, 0), mappings[1..], StripOne(show, mappings[0], body);
      AfterFirstSource(show, mappings, body, l);
      StripOneIs(show, mappings, body);
      if at.Some? { FirstSource(show, mappings, body, l); }
      if at.Some? && at.value <= l {
        StripFillsNothing(show, rest, next, l);
      } else {
        SurvivesStrip(show, rest, next, l);
      }
    }
  }

  // ----- the mappings, location by location -----

  /** The write, if it is one and is accepted, leaves the value at `l` alone. */
  predicate Leaves(show: Printer, e: Effect, body: Fields, l: seq<Step>) {
    e.ToBody? && e.path != [] && SetAt(show, Obj(body), e.val, e.path).Written? ==>
      Diverges(Replaced(show, Obj(body), e.path), l)
  }

  /** So does each of these, in the body as the earlier ones left it. */
  predicate AllLeave(show: Printer, effects: seq<Effect>, r: Request, l: seq<Step>) {
    effects != [] ==>
      Leaves(show, effects[0], r.body, l) && AllLeave(show, effects[1..], Apply(show, effects[0], r), l)
  }

  lemma WriteKeepsKind(show: Printer, c: JSON, v: JSON, segs: Path)
    requires segs != [] && SetAt(show, c, v, segs).Written?
    ensures SetAt(show, c, v, segs).doc.Obj? <==> c.Obj?
  {
    SlotFits(show, c, segs[0]);
  }

  lemma {:induction false} MappingsKeepLocation(show: Printer, effects: seq<Effect>, r: Request, l: seq<Step>)
    requires AllLeave(show, effects, r, l) && ChildAt(Obj(r.body), l).Some?
    ensures ChildAt(Obj(ApplyAll(show, effects, r).body), l) == ChildAt(Obj(r.body), l)
    decreases |effects|
  {
    if effects != [] {
      var e := effects[0];
      if e.ToBody? && e.path != [] && SetAt(show, Obj(r.body), e.val, e.path).Written? {
        WriteKeepsKind(show, Obj(r.body), e.val, e.path);
        SetLeavesOthers(show, Obj(r.body), e.val, e.path, l);
      }
      MappingsKeepLocation(show, effects[1..], Apply(show, e, r), l);
    }
  }

  function Mapped(inp: Inputs, info: CallInfo): Request {
    ApplyAll(inp.show, Effects(inp, info), CallConfigLaws.Filled(inp, info))
  }

  // ----- what a request carries -----

  /**
   * Any value of the spec, or of the status for a field the spec leaves nil, reaches the request whole: every
   * field of every array element that no mapping replaces and no source takes. Elements after a removed one
   * move up.
   */
  lemma UntouchedLocationsAreSent(inp: Inputs, info: CallInfo, l: seq<Step>)
    requires l != [] && l[0].Key? && l[0].k != "" && l[0].k in info.bodyFields
    requires ChildAt(Obj(CallConfigLaws.Origin(inp, l[0].k)), l).Some?
    requires AllLeave(inp.show, Effects(inp, info), CallConfigLaws.Filled(inp, info), l)
    requires StripMoves(inp.show, info.fieldMapping, Mapped(inp, info).body, l).Some?
    ensures var to := StripMoves(inp.show, info.fieldMapping, Mapped(inp, info).body, l).value;
            ChildAt(Obj(Build(inp, info).body), to) == ChildAt(Obj(CallConfigLaws.Origin(inp, l[0].k)), l)
  {
    CallConfigLaws.FilledFromOrigin(inp, info, l[0].k);
    MappingsKeepLocation(inp.show, Effects(inp, info), CallConfigLaws.Filled(inp, info), l);
    StripKeepsLocation(inp.show, info.fieldMapping, Mapped(inp, info).body, l);
  }

  /** Where nothing shifts and no source meets `l`, the strip moves nothing there. */
  lemma {:induction false} StripStays(show: Printer, mappings: seq<Mapping>, body: Fields, l: seq<Step>)
    requires forall j | 0 <= j < |mappings| && SourceAt(show, mappings, body, j).Some? ::
               EndsWithKey(SourceAt(show, mappings, body, j).value)
               && Diverges(SourceAt(show, mappings, body, j).value, l)
    ensures StripMoves(show, mappings, body, l) == Some(l)
    decreases |mappings|
  {
    if mappings != [] {
      var at, rest, next := SourceAt(show, mappings, body, 0), mappings[1..], StripOne(show, mappings[0], body);
      if at.Some? {
        DivergingNeverNested(at.value, l);
        MovedUnlessNested(at.value, l);
      }
      forall j | 0 <= j < |rest| ensures SourceAt(show, rest, next, j) == SourceAt(show, mappings, body, j + 1) {
        SourceAfter(show, mappings, body, j + 1);
      }
      StripStays(show, rest, next, l);
    }
  }

  lemma {:induction false} DivergingNeverNested(p: seq<Step>, l: seq<Step>)
    requires Diverges(p, l)
    ensures !(p <= l) && !(l <= p)
    decreases |p|
  {
    if p[0] == l[0] {
      DivergingNeverNested(p[1..], l[1..]);
      assert p == [p[0]] + p[1..] && l == [l[0]] + l[1..];
    }
  }

  /** Mapping `e` meets the request `before`, and `later` mappings follow it. */
  predicate Meets(inp: Inputs, info: CallInfo, i: nat, e: Effect, before: Request, later: seq<Effect>) {
    && i < |Effects(inp, info)| && e == Effects(inp, info)[i] && later == Effects(inp, info)[i + 1..]
    && before == ApplyAll(inp.show, Effects(inp, info)[..i], CallConfigLaws.Filled(inp, info))
  }

  lemma MappingsSplit(inp: Inputs, info: CallInfo, i: nat, e: Effect, before: Request, later: seq<Effect>)
    requires Meets(inp, info, i, e, before, later)
    ensures Mapped(inp, info) == ApplyAll(inp.show, later, Apply(inp.show, e, before))
  {
    CallConfigLaws.ApplySplits(inp.show, Effects(inp, info), i, CallConfigLaws.Filled(inp, info));
  }

  /** The mapping writes into the body. */
  predicate Writes(show: Printer, e: Effect, before: Request) {
    e.ToBody? && e.path != [] && SetAt(show, Obj(before.body), e.val, e.path).Written?
  }

  /**
   * A value written by a mapping, through array elements or not, is in the request where it was written, moved
   * up with its element if an earlier one is removed; and a scalar is there if and only if no source found by
   * the strip is at or around it.
   */
  lemma ResolvedValueIsSent(
    inp: Inputs, info: CallInfo, i: nat, e: Effect, before: Request, later: seq<Effect>, l: seq<Step>)
    requires Meets(inp, info, i, e, before, later)
    requires Writes(inp.show, e, before) && l == Target(inp.show, Obj(before.body), e.path)
    requires AllLeave(inp.show, later, Apply(inp.show, e, before), l)
    ensures var body := Mapped(inp, info).body;
            var to := StripMoves(inp.show, info.fieldMapping, body, l);
            && (to.Some? ==> ChildAt(Obj(Build(inp, info).body), to.value) == Some(e.val))
            && (Scalar(e.val) && NothingShifts(inp.show, info.fieldMapping, body, l) ==>
                  (ChildAt(Obj(Build(inp, info).body), l) == Some(e.val)
                   <==> NoSourceAround(inp.show, info.fieldMapping, body, l)))
  {
    var body := Mapped(inp, info).body;
    MappingsSplit(inp, info, i, e, before, later);
    WriteKeepsKind(inp.show, Obj(before.body), e.val, e.path);
    SetLands(inp.show, Obj(before.body), e.val, e.path);
    MappingsKeepLocation(inp.show, later, Apply(inp.show, e, before), l);
    if StripMoves(inp.show, info.fieldMapping, body, l).Some? {
      StripKeepsLocation(inp.show, info.fieldMapping, body, l);
    }
    if Scalar(e.val) && NothingShifts(inp.show, info.fieldMapping, body, l) {
      SurvivesStrip(inp.show, info.fieldMapping, body, l);
    }
  }

  // ----- the same, as the path reads it -----

  /** `s` parts from `t`, lies below it, or takes away what is read at it. */
  predicate Comparable(s: Path, t: Path) {
    PartsFrom(s, t) || (t <= s && t != s) || Takes(s, t)
  }

  predicate SourcesComparable(mappings: seq<Mapping>, t: Path) {
    forall j | 0 <= j < |mappings| && SourceOf(mappings[j]).Some? :: Comparable(SourceOf(mappings[j]).value, t)
  }

  predicate NoSourceTakes(mappings: seq<Mapping>, t: Path) {
    forall j | 0 <= j < |mappings| && SourceOf(mappings[j]).Some? :: !Takes(SourceOf(mappings[j]).value, t)
  }

  /** If a source is a key that a predicate on `t` tests, the predicates on `t` are applied to arrays. */
  predicate TestedInArrays(show: Printer, mappings: seq<Mapping>, body: Fields, t: Path) {
    (exists j | 0 <= j < |mappings| :: SourceOf(mappings[j]).Some? && NamesTestedKey(SourceOf(mappings[j]).value, t))
    ==> PredicatesMeetArrays(show, Obj(body), t)
  }

  predicate ReadsScalar(show: Printer, body: Fields, t: Path) {
    Get(show, Obj(body), t).Found? && Scalar(Get(show, Obj(body), t).value)
  }

  /** What one step of the strip does to the read of a scalar. */
  lemma StripOneReads(show: Printer, mappings: seq<Mapping>, body: Fields, t: Path)
    requires mappings != [] && SourcesComparable(mappings, t) && TestedInArrays(show, mappings, body, t)
    requires Get(show, Obj(body), t).Found? ==> ReadsScalar(show, body, t)
    ensures var next, source := StripOne(show, mappings[0], body), SourceOf(mappings[0]);
            && SourcesComparable(mappings[1..], t) && TestedInArrays(show, mappings[1..], next, t)
            && (if source.Some? && Takes(source.value, t) then !Get(show, Obj(next), t).Found?
                else Get(show, Obj(next), t) == Get(show, Obj(body), t))
  {
    assert forall j | 0 <= j < |mappings[1..]| :: mappings[1..][j] == mappings[j + 1];
    match SourceOf(mappings[0])
    case Some(s) =>
      RemoveLaws.RemoveKeepsKind(show, Obj(body), s);
      if Takes(s, t) {
        RemovalTakesRead(show, Obj(body), s, t);
        if PredicatesMeetArrays(show, Obj(body), t) { RemovalStillMeetsArrays(show, Obj(body), s, t); }
      } else if PartsFrom(s, t) {
        RemovalKeepsRead(show, Obj(body), s, t);
      } else {
        RemovalBelowScalar(show, Obj(body), s, t);
      }
    case None =>
  }

  lemma {:induction false} StripReadsNothingNew(show: Printer, mappings: seq<Mapping>, body: Fields, t: Path)
    requires SourcesComparable(mappings, t) && TestedInArrays(show, mappings, body, t)
    requires !Get(show, Obj(body), t).Found?
    ensures !Get(show, Obj(Strip(show, mappings, body)), t).Found?
    decreases |mappings|
  {
    if mappings != [] {
      StripOneReads(show, mappings, body, t);
      StripReadsNothingNew(show, mappings[1..], StripOne(show, mappings[0], body), t);
    }
  }

  /** A scalar is read after the strip as before it exactly when no source takes it. */
  lemma {:induction false} ReadSurvivesStrip(show: Printer, mappings: seq<Mapping>, body: Fields, t: Path)
    requires SourcesComparable(mappings, t) && TestedInArrays(show, mappings, body, t)
    requires ReadsScalar(show, body, t)
    ensures Get(show, Obj(Strip(show, mappings, body)), t) == Get(show, Obj(body), t) <==> NoSourceTakes(mappings, t)
    decreases |mappings|
  {
    if mappings != [] {
      var rest, next := mappings[1..], StripOne(show, mappings[0], body);
      assert forall j | 0 <= j < |rest| :: rest[j] == mappings[j + 1];
      assert forall j | 1 <= j < |mappings| :: mappings[j] == rest[j - 1];
      StripOneReads(show, mappings, body, t);
      if SourceOf(mappings[0]).Some? && Takes(SourceOf(mappings[0]).value, t) {
        StripReadsNothingNew(show, rest, next, t);
      } else {
        ReadSurvivesStrip(show, rest, next, t);
      }
    }
  }

  /** Each of these writes, if it is accepted, discards no container and parts from `t`. */
  predicate AllPart(show: Printer, effects: seq<Effect>, r: Request, t: Path) {
    effects != [] ==>
      var e := effects[0];
      && (e.ToBody? && e.path != [] && SetAt(show, Obj(r.body), e.val, e.path).Written? ==>
            PartsFrom(e.path, t) && SetLaws.KeepsContainers(show, Obj(r.body), e.path))
      && AllPart(show, effects[1..], Apply(show, e, r), t)
  }

  lemma {:induction false} MappingsKeepRead(show: Printer, effects: seq<Effect>, r: Request, t: Path)
    requires AllPart(show, effects, r, t) && Get(show, Obj(r.body), t).Found?
    ensures var after := Obj(ApplyAll(show, effects, r).body);
            && Get(show, after, t) == Get(show, Obj(r.body), t)
            && (PredicatesMeetArrays(show, Obj(r.body), t) ==> PredicatesMeetArrays(show, after, t))
    decreases |effects|
  {
    if effects != [] {
      var e := effects[0];
      if e.ToBody? && e.path != [] && SetAt(show, Obj(r.body), e.val, e.path).Written? {
        WriteKeepsKind(show, Obj(r.body), e.val, e.path);
        WriteKeepsRead(show, Obj(r.body), e.val, e.path, t);
      }
      MappingsKeepRead(show, effects[1..], Apply(show, e, r), t);
    }
  }

  /** A scalar read at `t` before the mappings is read there in the request exactly when no source takes it. */
  lemma UntouchedReadsAreSent(inp: Inputs, info: CallInfo, t: Path)
    requires ReadsScalar(inp.show, CallConfigLaws.Filled(inp, info).body, t)
    requires AllPart(inp.show, Effects(inp, info), CallConfigLaws.Filled(inp, info), t)
    requires SourcesComparable(info.fieldMapping, t)
    requires TestedInArrays(inp.show, info.fieldMapping, CallConfigLaws.Filled(inp, info).body, t)
    ensures Get(inp.show, Obj(Build(inp, info).body), t)
            == Get(inp.show, Obj(CallConfigLaws.Filled(inp, info).body), t)
            <==> NoSourceTakes(info.fieldMapping, t)
  {
    MappingsKeepRead(inp.show, Effects(inp, info), CallConfigLaws.Filled(inp, info), t);
    ReadSurvivesStrip(inp.show, info.fieldMapping, Mapped(inp, info).body, t);
  }

  /**
   * A scalar written by a mapping, through predicates that still select its element, is read at the mapping's
   * path in the request exactly when no source takes it: names it, something it goes through, or the key by
   * which a predicate finds its element.
   */
  lemma ResolvedValueIsRead(inp: Inputs, info: CallInfo, i: nat, e: Effect, before: Request, later: seq<Effect>)
    requires Meets(inp, info, i, e, before, later)
    requires Writes(inp.show, e, before) && Scalar(e.val)
    requires SetLaws.Sticks(inp.show, Obj(before.body), e.val, e.path)
    requires AllPart(inp.show, later, Apply(inp.show, e, before), e.path)
    requires SourcesComparable(info.fieldMapping, e.path)
    requires TestedInArrays(inp.show, info.fieldMapping, Apply(inp.show, e, before).body, e.path)
    ensures Get(inp.show, Obj(Build(inp, info).body), e.path) == Found(e.val)
            <==> NoSourceTakes(info.fieldMapping, e.path)
  {
    MappingsSplit(inp, info, i, e, before, later);
    WriteKeepsKind(inp.show, Obj(before.body), e.val, e.path);
    SetLaws.GetAfterSet(inp.show, Obj(before.body), e.val, e.path);
    MappingsKeepRead(inp.show, later, Apply(inp.show, e, before), e.path);
    ReadSurvivesStrip(inp.show, info.fieldMapping, Mapped(inp, info).body, e.path);
  }
}
