/**
 * compareScope: updatable (clienttools.go, helpers.go): drift is looked for only where the update verb's
 * body can reach, so that no reported drift is unfixable.
 */
module Drift {
  import opened Options
  import opened Json
  import opened Nested
  import opened PathParsing
  import opened KeyPaths
  import opened Unstructured
  import opened DeepCopy
  import opened Schemas
  import CallConfig
  import CallConfigLaws
  import C = Comparison

  // ----- projection -----

  function ProjectOnto(show: Printer, spec: Fields, paths: seq<string>, out: Fields): Option<Fields>
    decreases |paths|
  {
    if paths == [] then Some(out)
    else match ParsePath(paths[0])
      case None => ProjectOnto(show, spec, paths[1..], out)
      case Some(segs) =>
        if segs == [] then ProjectOnto(show, spec, paths[1..], out)
        else match NestedField(Obj(spec), segs)
          case Found(v) =>
            (match SetNestedMap(out, Copy(show, v), segs)
             case Some(next) => ProjectOnto(show, spec, paths[1..], next)
             case None => None)
          case _ => ProjectOnto(show, spec, paths[1..], out)
  }

  function Project(show: Printer, spec: Fields, paths: seq<string>): Option<Fields> {
    ProjectOnto(show, spec, paths, map[])
  }

  method ProjectSpecFields(show: Printer, spec: Fields, paths: seq<string>) returns (out: Option<Fields>)
    ensures out == Project(show, spec, paths)
  {
    var acc: Fields := map[];
    for i := 0 to |paths|
      invariant ProjectOnto(show, spec, paths[i..], acc) == Project(show, spec, paths)
    {
      assert paths[i..][1..] == paths[i + 1..];
      var segs := ParsePath(paths[i]);
      if segs.Some? && segs.value != [] {
        var value := NestedField(Obj(spec), segs.value);
        if value.Found? {
          var next := SetNestedMap(acc, Copy(show, value.value), segs.value);
          if next.None? { return None; }
          acc := next.value;
        }
      }
    }
    out := Some(acc);
  }

  datatype Scope = FullSpec | IdentifiersAndStatus | UpdatableScope

  /**
   * isCRUpdated: the whole spec, or each of the listed paths, against the remote. It fails only where a map or an
   * array of what is compared meets a value of another kind.
   */
  method IsCRUpdated(show: Printer, read: C.Reader, spec: Fields, rm: Fields, scope: Scope, scopeFields: seq<string>)
    returns (r: C.Result)
    ensures r == C.EQUAL <==>
              if scope.FullSpec? then C.Agree(read, Obj(spec), Obj(rm))
              else forall p | p in Parsed(scopeFields) :: PathAgrees(show, read, spec, rm, p)
    ensures r.error ==> !r.isEqual
    ensures r.error && scope.FullSpec? ==> C.Clash(Obj(spec), Obj(rm))
    ensures r.error && !scope.FullSpec? ==> exists p | p in Parsed(scopeFields) :: PathClashes(show, spec, rm, p)
  {
    var m := spec;
    if !scope.FullSpec? {
      ProjectedDrift(show, read, spec, rm, scopeFields);
      var projected := ProjectSpecFields(show, spec, scopeFields);
      if projected.None? { return C.ERROR; }
      m := projected.value;
    }
    r := C.CompareExisting(read, m, rm, Obj(m));
  }

  /** The paths that take part in the comparison of a restricted scope. */
  function ScopePaths(
    scope: Scope, identifiers: seq<string>, additionalStatusFields: seq<string>, update: Option<Schema>): seq<Path>
  {
    if scope.UpdatableScope? then (if update.Some? then Updatable(update.value) else [])
    else Parsed(identifiers + additionalStatusFields)
  }

  /** The drift decision of Observe; `update` is the body schema of the update verb, if it has one. */
  method DetectDrift(show: Printer, read: C.Reader, spec: Fields, rm: Fields, scope: Scope,
                     identifiers: seq<string>, additionalStatusFields: seq<string>, update: Option<Schema>)
    returns (r: C.Result)
    requires update.Some? ==> WellFormed(update.value)
    ensures scope.FullSpec? ==> (r == C.EQUAL <==> C.Agree(read, Obj(spec), Obj(rm)))
    ensures scope.IdentifiersAndStatus? ==>
              (r == C.EQUAL <==>
                 forall p | p in Parsed(identifiers + additionalStatusFields) :: PathAgrees(show, read, spec, rm, p))
    ensures scope.UpdatableScope? && update.None? ==> r == C.EQUAL
    ensures scope.UpdatableScope? && update.Some? ==>
              (r == C.EQUAL <==> forall p | p in Updatable(update.value) :: PathAgrees(show, read, spec, rm, p))
    ensures r.error ==> !r.isEqual
    ensures r.error && scope.FullSpec? ==> C.Clash(Obj(spec), Obj(rm))
    ensures r.error && !scope.FullSpec? ==>
              exists p | p in ScopePaths(scope, identifiers, additionalStatusFields, update) ::
                PathClashes(show, spec, rm, p)
  {
    var scopeFields := identifiers + additionalStatusFields;
    if scope.UpdatableScope? {
      if update.Some? {
        scopeFields := UpdatableBodyPaths(update.value);
        PlainUpdatable(update.value);
      } else {
        scopeFields := [];
      }
    }
    r := IsCRUpdated(show, read, spec, rm, scope, scopeFields);
  }

  // ----- drift, path by path -----

  /** The remote either says nothing at `p`, through maps as far as it goes, or agrees with `v` there. */
  predicate AgreesAt(read: C.Reader, v: JSON, r: JSON, p: Path) {
    if p == [] then C.Agree(read, v, r)
    else r.Obj? && (p[0] in r.fields ==> AgreesAt(read, v, r.fields[p[0]], p[1..]))
  }

  predicate PathAgrees(show: Printer, read: C.Reader, spec: Fields, rm: Fields, p: Path) {
    match NestedField(Obj(spec), p)
    case Found(x) => AgreesAt(read, Copy(show, x), Obj(rm), p)
    case _ => true
  }

  /** On the way along `p`, or below it, a map or an array meets a value of another kind. */
  predicate ClashesAt(v: JSON, r: JSON, p: Path) {
    if p == [] then C.Clash(v, r)
    else !r.Null? && (!r.Obj? || (p[0] in r.fields && ClashesAt(v, r.fields[p[0]], p[1..])))
  }

  predicate PathClashes(show: Printer, spec: Fields, rm: Fields, p: Path) {
    match NestedField(Obj(spec), p)
    case Found(x) => ClashesAt(Copy(show, x), Obj(rm), p)
    case _ => false
  }

  /** All of `full`, or parts of what is under some of its keys. */
  predicate PartOf(x: JSON, full: JSON) {
    x == full
    || (x.Obj? && full.Obj? && forall k | k in x.fields :: k in full.fields && PartOf(x.fields[k], full.fields[k]))
  }

  predicate Part(m: Fields, full: Fields) {
    forall k | k in m :: k in full && PartOf(m[k], full[k])
  }

  /** What agrees as a whole agrees in part, and what clashes in part clashes as a whole. */
  lemma {:induction false} PartAgrees(read: C.Reader, x: JSON, full: JSON, r: JSON)
    requires PartOf(x, full)
    ensures C.Agree(read, full, r) ==> C.Agree(read, x, r)
    ensures C.Clash(x, r) ==> C.Clash(full, r)
    decreases x
  {
    if x != full && r.Obj? {
      forall k | k in x.fields && k in r.fields
        ensures C.Agree(read, full.fields[k], r.fields[k]) ==> C.Agree(read, x.fields[k], r.fields[k])
        ensures C.Clash(x.fields[k], r.fields[k]) ==> C.Clash(full.fields[k], r.fields[k])
      {
        PartAgrees(read, x.fields[k], full.fields[k], r.fields[k]);
      }
    }
  }

  /** Agreement and clashes on the keys other than `k`. */
  predicate AgreeElsewhere(read: C.Reader, m: Fields, rm: Fields, k: string) {
    forall j | j in m && j in rm && j != k :: C.Agree(read, m[j], rm[j])
  }

  predicate ClashElsewhere(m: Fields, rm: Fields, k: string) {
    exists j | j in m && j in rm && j != k :: C.Clash(m[j], rm[j])
  }

  lemma AgreeSplits(read: C.Reader, m: Fields, rm: Fields, k: string)
    ensures C.Agree(read, Obj(m), Obj(rm))
            <==> AgreeElsewhere(read, m, rm, k) && (k in m && k in rm ==> C.Agree(read, m[k], rm[k]))
    ensures C.Clash(Obj(m), Obj(rm))
            <==> ClashElsewhere(m, rm, k) || (k in m && k in rm && C.Clash(m[k], rm[k]))
  {}

  /** Replacing the value under one key: what agrees or clashes elsewhere stays as it is. */
  lemma OneKeySet(read: C.Reader, m: Fields, k: string, x: JSON, rm: Fields)
    ensures C.Agree(read, Obj(m[k := x]), Obj(rm))
            <==> AgreeElsewhere(read, m, rm, k) && (k in rm ==> C.Agree(read, x, rm[k]))
    ensures C.Clash(Obj(m[k := x]), Obj(rm)) <==> ClashElsewhere(m, rm, k) || (k in rm && C.Clash(x, rm[k]))
  {
    var n := m[k := x];
    AgreeSplits(read, n, rm, k);
    assert AgreeElsewhere(read, m, rm, k) <==> AgreeElsewhere(read, n, rm, k);
    assert ClashElsewhere(m, rm, k) <==> ClashElsewhere(n, rm, k);
  }

  /** The value at a path, put into a part of the whole: it fits, and adds that path's agreement or clash. */
  lemma {:induction false} PartGrows(read: C.Reader, m: Fields, full: Fields, v: JSON, p: Path, rm: Fields)
    requires Part(m, full) && p != [] && NestedField(Obj(full), p) == Found(v)
    ensures SetNestedMap(m, v, p).Some? && Part(SetNestedMap(m, v, p).value, full)
    ensures C.Agree(read, Obj(SetNestedMap(m, v, p).value), Obj(rm))
            <==> C.Agree(read, Obj(m), Obj(rm)) && AgreesAt(read, v, Obj(rm), p)
    ensures C.Clash(Obj(SetNestedMap(m, v, p).value), Obj(rm))
            <==> C.Clash(Obj(m), Obj(rm)) || ClashesAt(v, Obj(rm), p)
    decreases |p|, 1
  {
    var k := p[0];
    BranchFits(read, m, full, v, p);
    var n := SetNestedMap(m, v, p).value;
    AgreeSplits(read, m, rm, k);
    OneKeySet(read, m, k, n[k], rm);
    if k in rm { BranchAgrees(read, m, full, v, p, rm[k]); }
  }

  /** The map that a path goes on with below its first key. */
  function Below(m: Fields, k: string): Fields {
    if k in m && m[k].Obj? then m[k].fields else map[]
  }

  lemma {:induction false} BranchFits(read: C.Reader, m: Fields, full: Fields, v: JSON, p: Path)
    requires Part(m, full) && p != [] && NestedField(Obj(full), p) == Found(v)
    ensures SetNestedMap(m, v, p).Some? && Part(SetNestedMap(m, v, p).value, full)
    ensures |p| > 1 ==> full[p[0]].Obj? && Part(Below(m, p[0]), full[p[0]].fields)
    ensures |p| > 1 ==> SetNestedMap(Below(m, p[0]), v, p[1..]).Some?
    ensures SetNestedMap(m, v, p).value
            == m[p[0] := if |p| == 1 then v else Obj(SetNestedMap(Below(m, p[0]), v, p[1..]).value)]
    decreases |p|
  {
    if |p| > 1 {
      BranchFits(read, Below(m, p[0]), full[p[0]].fields, v, p[1..]);
    } else {
      assert p[1..] == [];
    }
  }

  lemma {:induction false} BranchAgrees(read: C.Reader, m: Fields, full: Fields, v: JSON, p: Path, r: JSON)
    requires Part(m, full) && p != [] && NestedField(Obj(full), p) == Found(v)
    ensures SetNestedMap(m, v, p).Some? && p[0] in SetNestedMap(m, v, p).value
    ensures C.Agree(read, SetNestedMap(m, v, p).value[p[0]], r)
            <==> (p[0] in m ==> C.Agree(read, m[p[0]], r)) && AgreesAt(read, v, r, p[1..])
    ensures C.Clash(SetNestedMap(m, v, p).value[p[0]], r)
            <==> (p[0] in m && C.Clash(m[p[0]], r)) || ClashesAt(v, r, p[1..])
    decreases |p|, 0
  {
    BranchFits(read, m, full, v, p);
    var k := p[0];
    if |p| == 1 {
      assert p[1..] == [] && v == full[k];
      if k in m { PartAgrees(read, m[k], full[k], r); }
    } else if r.Obj? {
      PartGrows(read, Below(m, k), full[k].fields, v, p[1..], r.fields);
    }
  }

  /** The copy of a document, read along a path, is the copy of what is read there. */
  lemma {:induction false} CopyReads(show: Printer, v: JSON, p: Path)
    ensures NestedField(v, p).Found? ==> NestedField(Copy(show, v), p) == Found(Copy(show, NestedField(v, p).value))
    decreases |p|
  {
    if p != [] && v.Obj? && p[0] in v.fields { CopyReads(show, v.fields[p[0]], p[1..]); }
  }

  lemma PlainPathReadsBack(p: Path)
    requires p != [] && PlainPath(p)
    ensures ParsePath(Join(p)) == Some(p)
  {
    DottedSegments(p);
    ParseInvertsPrint(Dotted(p));
  }

  /** The paths that these texts stand for; one that does not parse, or names nothing, stands for none. */
  function Parsed(texts: seq<string>): seq<Path> {
    if texts == [] then []
    else match ParsePath(texts[0])
      case Some(p) => if p == [] then Parsed(texts[1..]) else [p] + Parsed(texts[1..])
      case None => Parsed(texts[1..])
  }

  lemma {:induction false} PlainPathsParse(paths: seq<Path>)
    requires forall i | 0 <= i < |paths| :: paths[i] != [] && PlainPath(paths[i])
    ensures Parsed(Texts([], paths)) == paths
    decreases |paths|
  {
    if paths != [] {
      var p, rest := paths[0], paths[1..];
      assert [] + p == p && Texts([], paths)[0] == Join(p) && Texts([], paths)[1..] == Texts([], rest);
      PlainPathReadsBack(p);
      PlainPathsParse(rest);
    }
  }

  /**
   * Projecting never fails, whatever the paths, and comparing the projection is comparing each path of it, one by
   * one, also where one path lies on the way of another.
   */
  lemma {:induction false} ProjectionIsPathwise(
    show: Printer, read: C.Reader, spec: Fields, rm: Fields, texts: seq<string>, out: Fields)
    requires Part(out, Copy(show, Obj(spec)).fields)
    ensures var projected := ProjectOnto(show, spec, texts, out);
            && projected.Some?
            && (C.Agree(read, Obj(projected.value), Obj(rm))
                <==> C.Agree(read, Obj(out), Obj(rm))
                     && forall p | p in Parsed(texts) :: PathAgrees(show, read, spec, rm, p))
            && (C.Clash(Obj(projected.value), Obj(rm))
                <==> C.Clash(Obj(out), Obj(rm)) || exists p | p in Parsed(texts) :: PathClashes(show, spec, rm, p))
    decreases |texts|
  {
    if texts != [] {
      var segs := ParsePath(texts[0]);
      if segs.Some? && segs.value != [] {
        OnePathProjected(show, read, spec, rm, segs.value, out);
        ProjectionIsPathwise(show, read, spec, rm, texts[1..], WithProjected(show, spec, segs.value, out));
      } else {
        ProjectionIsPathwise(show, read, spec, rm, texts[1..], out);
      }
    }
  }

  /** The projection with one more path. */
  function WithProjected(show: Printer, spec: Fields, p: Path, out: Fields): Fields
    requires p != []
  {
    match NestedField(Obj(spec), p)
    case Found(x) => (match SetNestedMap(out, Copy(show, x), p) case Some(next) => next case None => out)
    case _ => out
  }

  lemma OnePathProjected(show: Printer, read: C.Reader, spec: Fields, rm: Fields, p: Path, out: Fields)
    requires p != [] && Part(out, Copy(show, Obj(spec)).fields)
    ensures NestedField(Obj(spec), p).Found? ==> SetNestedMap(out, Copy(show, NestedField(Obj(spec), p).value), p).Some?
    ensures var next := WithProjected(show, spec, p, out);
            && Part(next, Copy(show, Obj(spec)).fields)
            && (C.Agree(read, Obj(next), Obj(rm))
                <==> C.Agree(read, Obj(out), Obj(rm)) && PathAgrees(show, read, spec, rm, p))
            && (C.Clash(Obj(next), Obj(rm)) <==> C.Clash(Obj(out), Obj(rm)) || PathClashes(show, spec, rm, p))
  {
    match NestedField(Obj(spec), p)
    case Found(x) =>
      CopyReads(show, Obj(spec), p);
      PartGrows(read, out, Copy(show, Obj(spec)).fields, Copy(show, x), p, rm);
    case _ =>
  }

  /** The same from nothing: no drift at all, and no clash, for a projection onto no path. */
  lemma ProjectedDrift(show: Printer, read: C.Reader, spec: Fields, rm: Fields, texts: seq<string>)
    ensures Project(show, spec, texts).Some?
    ensures C.Agree(read, Obj(Project(show, spec, texts).value), Obj(rm))
            <==> forall p | p in Parsed(texts) :: PathAgrees(show, read, spec, rm, p)
    ensures C.Clash(Obj(Project(show, spec, texts).value), Obj(rm))
            <==> exists p | p in Parsed(texts) :: PathClashes(show, spec, rm, p)
  {
    ProjectionIsPathwise(show, read, spec, rm, texts, map[]);
  }

  /** Drift is reported exactly when some updatable path of the spec disagrees with the remote. */
  lemma DriftIsPathwise(show: Printer, read: C.Reader, spec: Fields, rm: Fields, s: Schema)
    requires WellFormed(s)
    ensures Project(show, spec, Texts([], Updatable(s))).Some?
    ensures C.Agree(read, Obj(Project(show, spec, Texts([], Updatable(s))).value), Obj(rm))
            <==> forall p | p in Updatable(s) :: PathAgrees(show, read, spec, rm, p)
  {
    UpdatablePaths(s);
    PlainUpdatable(s);
    ProjectedDrift(show, read, spec, rm, Texts([], Updatable(s)));
  }

  lemma PlainUpdatable(s: Schema)
    requires WellFormed(s)
    ensures Parsed(Texts([], Updatable(s))) == Updatable(s)
  {
    UpdatablePaths(s);
    forall i | 0 <= i < |Updatable(s)| ensures Updatable(s)[i] != [] && PlainPath(Updatable(s)[i]) {
      assert Updatable(s)[i] in Updatable(s);
    }
    PlainPathsParse(Updatable(s));
  }

  // ----- which reported drift an update fixes -----

  /**
   * Every number in `v` that an int64 can hold prints as its value, and its integer part is exact; the text of
   * any other reads as the number does.
   */
  predicate Readable(show: Printer, read: C.Reader, v: JSON) {
    match v
    case Obj(f) => forall k | k in f :: Readable(show, read, f[k])
    case Arr(a) => forall i | 0 <= i < |a| :: Readable(show, read, a[i])
    case Float(r) =>
      if FitsInt64(r) then C.PrintsExactly(read, Trunc(r)) && (C.Whole(r) || read(v) == C.JsonNumber(r))
      else read(Str(show(v))) == read(v)
    case _ => true
  }

  /** No number an int64 can hold in `v` is a fraction, and nothing else in it reads as NaN. */
  predicate Stable(read: C.Reader, v: JSON) {
    match v
    case Obj(f) => forall k | k in f :: Stable(read, f[k])
    case Arr(a) => forall i | 0 <= i < |a| :: Stable(read, a[i])
    case Float(r) => if FitsInt64(r) then C.Whole(r) else !C.ReadsAsNaN(read, v)
    case _ => !C.ReadsAsNaN(read, v)
  }

  lemma WholeIsItsFloor(r: real)
    requires C.Whole(r)
    ensures Trunc(r) as real == r
  {
    if r < 0.0 { assert -r == (-r.Floor) as real; }
  }

  /** A fraction is not its integer part, and prints as another number. */
  lemma FractionsDisagree(read: C.Reader, r: real)
    requires !C.Whole(r) && C.PrintsExactly(read, Trunc(r)) && read(Float(r)) == C.JsonNumber(r)
    ensures !C.CompareAny(read, Int(Trunc(r)), Float(r))
  {
    assert C.InferType(read(Float(r))) == C.Double(C.Finite(r));
  }

  /** The copy made by the projection agrees with the original exactly when that holds. */
  lemma {:induction false} CopyAgrees(show: Printer, read: C.Reader, v: JSON)
    requires Readable(show, read, v)
    ensures C.Agree(read, Copy(show, v), v) <==> Stable(read, v)
    decreases v
  {
    match v
    case Obj(f) =>
      forall k | k in f ensures C.Agree(read, Copy(show, f[k]), f[k]) <==> Stable(read, f[k]) {
        CopyAgrees(show, read, f[k]);
      }
    case Arr(a) =>
      forall i | 0 <= i < |a| ensures C.Agree(read, Copy(show, a[i]), a[i]) <==> Stable(read, a[i]) {
        CopyAgrees(show, read, a[i]);
      }
    case Float(r) =>
      if FitsInt64(r) && C.Whole(r) {
        WholeIsItsFloor(r);
        C.IntegersAndFloatsAgree(read, Trunc(r), Trunc(r));
      } else if FitsInt64(r) {
        FractionsDisagree(read, r);
      }
    case _ =>
  }

  lemma {:induction false} StoredValueAgrees(read: C.Reader, v: JSON, x: JSON, r: JSON, p: Path)
    requires NestedField(r, p) == Found(x)
    ensures AgreesAt(read, v, r, p) <==> C.Agree(read, v, x)
    decreases |p|
  {
    if p != [] { StoredValueAgrees(read, v, x, r.fields[p[0]], p[1..]); }
  }

  /** The update request: built for a verb whose body schema is `s`, no mapping touching the updatable paths. */
  predicate UpdateRequest(inp: CallConfig.Inputs, info: CallConfig.CallInfo, s: Schema) {
    && WellFormed(s) && info.bodyFields == RequestedBody(s)
    && forall p | p in Updatable(s) ::
         CallConfigLaws.EffectsClear(CallConfig.Effects(inp, info), p)
         && CallConfigLaws.SourcesDisjoint(info.fieldMapping, p)
  }

  /** The spec, not the status, provides the field: the spec's value is not nil, or the status has none. */
  predicate SpecProvides(inp: CallConfig.Inputs, k: string) {
    k in inp.spec && inp.spec[k] == Null && k in inp.status ==> inp.status[k] == Null
  }

  /** Every updatable value of the spec is carried by the update. */
  lemma UpdatableValuesAreSent(inp: CallConfig.Inputs, info: CallConfig.CallInfo, s: Schema, p: Path)
    requires UpdateRequest(inp, info, s) && p in Updatable(s) && p != []
    requires NestedField(Obj(inp.spec), p).Found? && SpecProvides(inp, p[0])
    ensures NestedField(Obj(CallConfig.Build(inp, info).body), p) == NestedField(Obj(inp.spec), p)
  {
    UpdatablePaths(s);
    assert PlainName(p[0]);
    CallConfigLaws.UntouchedFieldsAreSent(inp, info, p);
  }

  /** For a field the spec leaves nil while the status has a value, the update carries the status's. */
  lemma StatusValueIsSent(inp: CallConfig.Inputs, info: CallConfig.CallInfo, s: Schema, k: string)
    requires UpdateRequest(inp, info, s) && [k] in Updatable(s) && k in inp.spec && !SpecProvides(inp, k)
    ensures NestedField(Obj(CallConfig.Build(inp, info).body), [k]) == Found(inp.status[k])
  {
    UpdatablePaths(s);
    assert PlainName([k][0]) && [k][1..] == [];
    assert NestedField(Obj(inp.status), [k]) == Found(inp.status[k]);
    CallConfigLaws.UntouchedFieldsAreSent(inp, info, [k]);
  }

  /** The remote holds, at every updatable path, what the update carried there. */
  predicate Stores(inp: CallConfig.Inputs, info: CallConfig.CallInfo, s: Schema, rm: Fields) {
    var body := CallConfig.Build(inp, info).body;
    forall p | p in Updatable(s) && NestedField(Obj(body), p).Found? ::
      NestedField(Obj(rm), p) == NestedField(Obj(body), p)
  }

  /** A path drifts no longer exactly when the spec provides a value there that survives the copy. */
  lemma StoredPathAgrees(
    inp: CallConfig.Inputs, info: CallConfig.CallInfo, s: Schema, read: C.Reader, rm: Fields, p: Path, x: JSON)
    requires UpdateRequest(inp, info, s) && Stores(inp, info, s, rm)
    requires p in Updatable(s) && p != [] && NestedField(Obj(inp.spec), p) == Found(x) && Readable(inp.show, read, x)
    ensures PathAgrees(inp.show, read, inp.spec, rm, p) <==> SpecProvides(inp, p[0]) && Stable(read, x)
  {
    var copy := Copy(inp.show, x);
    if SpecProvides(inp, p[0]) {
      UpdatableValuesAreSent(inp, info, s, p);
      CopyAgrees(inp.show, read, x);
      StoredValueAgrees(read, copy, x, Obj(rm), p);
    } else {
      assert x == Null && p == [p[0]];
      StatusValueIsSent(inp, info, s, p[0]);
      StoredValueAgrees(read, copy, inp.status[p[0]], Obj(rm), p);
    }
  }

  /**
   * Once the remote stores what the update carried, the next observation reports no drift, exactly when the
   * spec provides each of its values, not the status for one the spec leaves nil, and none of them is or
   * holds a fraction or a text that reads as NaN.
   */
  lemma UpdateConverges(inp: CallConfig.Inputs, info: CallConfig.CallInfo, s: Schema, read: C.Reader, rm: Fields)
    requires UpdateRequest(inp, info, s) && Stores(inp, info, s, rm)
    requires forall p | p in Updatable(s) && NestedField(Obj(inp.spec), p).Found? ::
               Readable(inp.show, read, NestedField(Obj(inp.spec), p).value)
    ensures Project(inp.show, inp.spec, Texts([], Updatable(s))).Some?
    ensures C.Agree(read, Obj(Project(inp.show, inp.spec, Texts([], Updatable(s))).value), Obj(rm))
            <==> forall p | p in Updatable(s) && p != [] && NestedField(Obj(inp.spec), p).Found? ::
                   SpecProvides(inp, p[0]) && Stable(read, NestedField(Obj(inp.spec), p).value)
  {
    DriftIsPathwise(inp.show, read, inp.spec, rm, s);
    UpdatablePaths(s);
    forall p | p in Updatable(s) && NestedField(Obj(inp.spec), p).Found?
      ensures p != []
      ensures PathAgrees(inp.show, read, inp.spec, rm, p)
              <==> SpecProvides(inp, p[0]) && Stable(read, NestedField(Obj(inp.spec), p).value)
    {
      StoredPathAgrees(inp, info, s, read, rm, p, NestedField(Obj(inp.spec), p).value);
    }
  }
}
