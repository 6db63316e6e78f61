/** Alias tables, called bidirectional: which values come back as they were sent, and which fields keep drifting. */
module AliasLaws {
  import opened FieldMapping

  /** The text sent for `v`: that of the first pair naming it, else `v` itself. */
  function Sent(v: string, aliases: seq<Alias>): string {
    if aliases == [] then v
    else if v == aliases[0].customResourceValue then aliases[0].apiValue
    else Sent(v, aliases[1..])
  }

  /** The table read the other way round. */
  function Swapped(aliases: seq<Alias>): (r: seq<Alias>)
    ensures |r| == |aliases|
  {
    seq(|aliases|, i requires 0 <= i < |aliases| => Alias(aliases[i].apiValue, aliases[i].customResourceValue))
  }

  /** What `v` reads as after it was sent, stored and observed. */
  function RoundTrip(v: string, aliases: seq<Alias>): string {
    Sent(Sent(v, aliases), Swapped(aliases))
  }

  function CrValues(aliases: seq<Alias>): set<string> {
    set i | 0 <= i < |aliases| :: aliases[i].customResourceValue
  }

  function ApiValues(aliases: seq<Alias>): set<string> {
    set i | 0 <= i < |aliases| :: aliases[i].apiValue
  }

  /** No earlier pair has the same value in the custom resource, so this one decides what is sent for it. */
  predicate Leads(aliases: seq<Alias>, i: nat)
    requires i < |aliases|
  {
    forall j | 0 <= j < i :: aliases[j].customResourceValue != aliases[i].customResourceValue
  }

  lemma {:induction false} SentByLeader(v: string, aliases: seq<Alias>) returns (i: nat)
    requires v in CrValues(aliases)
    ensures i < |aliases| && Leads(aliases, i)
    ensures aliases[i].customResourceValue == v && Sent(v, aliases) == aliases[i].apiValue
    ensures forall j | 0 <= j < |aliases| && Leads(aliases, j) && aliases[j].customResourceValue == v :: j == i
    decreases |aliases|
  {
    i := 0;
    if aliases[0].customResourceValue != v {
      var k :| 0 <= k < |aliases| && aliases[k].customResourceValue == v;
      assert aliases[1..][k - 1] == aliases[k];
      var n := SentByLeader(v, aliases[1..]);
      LeadsBelow(v, aliases, n);
      i := n + 1;
    }
    OneLeader(v, aliases, i);
  }

  lemma LeadsBelow(v: string, aliases: seq<Alias>, n: nat)
    requires n + 1 < |aliases| && aliases[0].customResourceValue != v
    requires Leads(aliases[1..], n) && aliases[1..][n].customResourceValue == v
    ensures Leads(aliases, n + 1) && aliases[n + 1].customResourceValue == v
  {
    forall j | 0 < j < n + 1 ensures aliases[j].customResourceValue != v {
      assert aliases[1..][j - 1] == aliases[j];
    }
  }

  lemma OneLeader(v: string, aliases: seq<Alias>, i: nat)
    requires i < |aliases| && Leads(aliases, i) && aliases[i].customResourceValue == v
    ensures forall j | 0 <= j < |aliases| && Leads(aliases, j) && aliases[j].customResourceValue == v :: j == i
  {}

  lemma {:induction false} UnlistedIsSent(v: string, aliases: seq<Alias>)
    requires v !in CrValues(aliases)
    ensures Sent(v, aliases) == v
    decreases |aliases|
  {
    if aliases != [] {
      assert aliases[0].customResourceValue != v;
      assert forall j | 0 <= j < |aliases| - 1 :: aliases[1..][j] == aliases[j + 1];
      UnlistedIsSent(v, aliases[1..]);
    }
  }

  lemma SwappedValues(aliases: seq<Alias>)
    ensures CrValues(Swapped(aliases)) == ApiValues(aliases) && ApiValues(Swapped(aliases)) == CrValues(aliases)
    ensures Swapped(Swapped(aliases)) == aliases
  {
    var back := Swapped(aliases);
    forall i | 0 <= i < |aliases|
      ensures back[i].customResourceValue == aliases[i].apiValue && back[i].apiValue == aliases[i].customResourceValue
    {}
    forall w | w in ApiValues(aliases) ensures w in CrValues(back) {
      var i :| 0 <= i < |aliases| && aliases[i].apiValue == w;
      assert back[i].customResourceValue == w;
    }
    forall v | v in CrValues(aliases) ensures v in ApiValues(back) {
      var i :| 0 <= i < |aliases| && aliases[i].customResourceValue == v;
      assert back[i].apiValue == v;
    }
  }

  /** The pair that decides what is sent for `v` is also the first with its API value. */
  predicate LeaderReturns(v: string, aliases: seq<Alias>) {
    forall i | 0 <= i < |aliases| && aliases[i].customResourceValue == v && Leads(aliases, i) ::
      Leads(Swapped(aliases), i)
  }

  /**
   * A value comes back as it was if and only if, when the custom resource lists it, its pair is the first with
   * that API value, and when only the API lists it, never.
   */
  lemma RoundTripsExactly(v: string, aliases: seq<Alias>)
    ensures RoundTrip(v, aliases) == v
            <==> LeaderReturns(v, aliases) && (v in ApiValues(aliases) ==> v in CrValues(aliases))
  {
    SwappedValues(aliases);
    if v in CrValues(aliases) {
      var i := SentByLeader(v, aliases);
      assert Swapped(aliases)[i].customResourceValue == aliases[i].apiValue;
      var j := SentByLeader(aliases[i].apiValue, Swapped(aliases));
      assert Swapped(aliases)[j].apiValue == aliases[j].customResourceValue;
    } else {
      UnlistedIsSent(v, aliases);
      if v in ApiValues(aliases) {
        var j := SentByLeader(v, Swapped(aliases));
        assert Swapped(aliases)[j].apiValue == aliases[j].customResourceValue;
      } else {
        UnlistedIsSent(v, Swapped(aliases));
      }
    }
  }

  ghost predicate RoundTripsAlways(aliases: seq<Alias>) {
    forall v :: RoundTrip(v, aliases) == v
  }

  /** Every value comes back exactly when the custom resource lists all API values, and no two pairs share one. */
  lemma RoundTripsAlwaysExactly(aliases: seq<Alias>)
    ensures RoundTripsAlways(aliases)
            <==> ApiValues(aliases) <= CrValues(aliases)
                 && forall i | 0 <= i < |aliases| && Leads(aliases, i) :: Leads(Swapped(aliases), i)
  {
    forall v ensures RoundTrip(v, aliases) == v
                     <==> LeaderReturns(v, aliases) && (v in ApiValues(aliases) ==> v in CrValues(aliases)) {
      RoundTripsExactly(v, aliases);
    }
    if RoundTripsAlways(aliases) {
      forall i | 0 <= i < |aliases| && Leads(aliases, i) ensures Leads(Swapped(aliases), i) {
        assert RoundTrip(aliases[i].customResourceValue, aliases) == aliases[i].customResourceValue;
      }
      forall v | v in ApiValues(aliases) ensures v in CrValues(aliases) {
        assert RoundTrip(v, aliases) == v;
      }
    }
  }

  // ----- one direction is enough -----

  predicate OneToOne(s: set<string>, f: string -> string) {
    forall v, w | v in s && w in s :: f(v) == f(w) ==> v == w
  }

  function Image(s: set<string>, f: string -> string): set<string> {
    set v | v in s :: f(v)
  }

  lemma {:induction false} ImageSize(s: set<string>, f: string -> string)
    requires OneToOne(s, f)
    ensures |Image(s, f)| == |s|
    decreases |s|
  {
    if s != {} {
      var x :| x in s;
      ImageSize(s - {x}, f);
      assert Image(s, f) == Image(s - {x}, f) + {f(x)};
    }
  }

  lemma {:induction false} SubsetSize(a: set<string>, b: set<string>)
    requires a <= b
    ensures |a| <= |b|
    decreases |a|
  {
    if a != {} {
      var x :| x in a;
      SubsetSize(a - {x}, b - {x});
    }
  }

  /** A one-to-one map of a finite set into itself reaches all of it. */
  lemma Reaches(s: set<string>, f: string -> string, w: string) returns (v: string)
    requires OneToOne(s, f) && Image(s, f) <= s && w in s
    ensures v in s && f(v) == w
  {
    ImageSize(s, f);
    if w !in Image(s, f) { SubsetSize(Image(s, f), s - {w}); }
    v :| v in s && f(v) == w;
  }

  /** If every value survives being sent and observed, every API value survives being observed and sent. */
  lemma OneWayIsBothWays(aliases: seq<Alias>)
    requires RoundTripsAlways(aliases)
    ensures RoundTripsAlways(Swapped(aliases))
  {
    var back, s := Swapped(aliases), CrValues(aliases);
    SwappedValues(aliases);
    RoundTripsAlwaysExactly(aliases);
    var f := v => Sent(v, aliases);
    forall v | v in s ensures f(v) in s {
      var i := SentByLeader(v, aliases);
      assert f(v) in ApiValues(aliases);
    }
    forall v, w | v in s && w in s && f(v) == f(w) ensures v == w {
      assert RoundTrip(v, aliases) == v && RoundTrip(w, aliases) == w;
    }
    assert Image(s, f) <= s;
    forall w ensures RoundTrip(w, back) == w {
      if w in s {
        var v := Reaches(s, f, w);
        assert RoundTrip(v, aliases) == v;
      } else {
        UnlistedIsSent(w, aliases);
        UnlistedIsSent(w, back);
      }
    }
  }

  /** The table is an inverse of itself in one direction exactly when it is in the other. */
  lemma BothWaysAlike(aliases: seq<Alias>)
    ensures RoundTripsAlways(aliases) <==> RoundTripsAlways(Swapped(aliases))
  {
    SwappedValues(aliases);
    if RoundTripsAlways(aliases) { OneWayIsBothWays(aliases); }
    if RoundTripsAlways(Swapped(aliases)) { OneWayIsBothWays(Swapped(aliases)); }
  }
}

/** A field both of whose mappings use one table: what the next observation makes of it. */
module MappedFields {
  import opened Options
  import opened Json
  import opened Nested
  import opened PathParsing
  import opened Unstructured
  import opened KeyPaths
  import opened DeepCopy
  import opened FieldMapping
  import opened AliasLaws
  import opened Drift
  import C = Comparison
  import opened Segments
  import opened Schemas
  import NormalizeLaws
  import PathLaws
  import SetLaws
  import CallConfig
  import CallConfigLaws
  import RequestLaws

  // ----- values -----

  predicate Listed(text: string, aliases: seq<Alias>) {
    text in CrValues(aliases) || text in ApiValues(aliases)
  }

  /** What is observed of `v`, sent through the table, copied into the body, stored and read back. */
  function Observed(show: Printer, v: JSON, aliases: seq<Alias>): JSON {
    ApplyAlias(show, Copy(show, CallConfig.ToApi(show, v, aliases)), aliases)
  }

  ghost predicate TextsPrint(show: Printer) {
    forall s {:trigger show(Str(s))} :: show(Str(s)) == s
  }

  lemma {:induction false} SentValue(show: Printer, v: JSON, aliases: seq<Alias>)
    ensures CallConfig.ToApi(show, v, aliases)
            == if show(v) in CrValues(aliases) then Str(Sent(show(v), aliases)) else v
    decreases |aliases|
  {
    if aliases != [] {
      SentValue(show, v, aliases[1..]);
      ValuesSplit(aliases);
    }
  }

  lemma {:induction false} ReadValue(show: Printer, v: JSON, aliases: seq<Alias>)
    ensures ApplyAlias(show, v, aliases)
            == if show(v) in ApiValues(aliases) then Str(Sent(show(v), Swapped(aliases))) else v
    decreases |aliases|
  {
    if aliases != [] {
      ReadValue(show, v, aliases[1..]);
      ValuesSplit(aliases);
      assert Swapped(aliases)[1..] == Swapped(aliases[1..]);
    }
  }

  lemma ValuesSplit(aliases: seq<Alias>)
    requires aliases != []
    ensures CrValues(aliases) == {aliases[0].customResourceValue} + CrValues(aliases[1..])
    ensures ApiValues(aliases) == {aliases[0].apiValue} + ApiValues(aliases[1..])
  {
    assert forall i | 0 < i < |aliases| :: aliases[i] == aliases[1..][i - 1];
    assert forall i | 0 <= i < |aliases| - 1 :: aliases[1..][i] == aliases[i + 1];
    forall v | v in CrValues(aliases[1..]) ensures v in CrValues(aliases) {
      var i :| 0 <= i < |aliases[1..]| && aliases[1..][i].customResourceValue == v;
      assert aliases[i + 1].customResourceValue == v;
    }
    forall v | v in ApiValues(aliases[1..]) ensures v in ApiValues(aliases) {
      var i :| 0 <= i < |aliases[1..]| && aliases[1..][i].apiValue == v;
      assert aliases[i + 1].apiValue == v;
    }
  }

  /** A value comes back as it was exactly when its text does and, if the table lists it, it is a text. */
  lemma ValueRoundTrips(show: Printer, v: JSON, aliases: seq<Alias>)
    requires TextsPrint(show) && RequestLaws.Scalar(v) && !v.Float?
    ensures Observed(show, v, aliases)
            == if Listed(show(v), aliases) then Str(RoundTrip(show(v), aliases)) else v
    ensures Observed(show, v, aliases) == v
            <==> RoundTrip(show(v), aliases) == show(v) && (Listed(show(v), aliases) ==> v.Str?)
  {
    var text := show(v);
    SentValue(show, v, aliases);
    ReadValue(show, Copy(show, CallConfig.ToApi(show, v, aliases)), aliases);
    if text in CrValues(aliases) {
      var i := SentByLeader(text, aliases);
      assert Sent(text, aliases) in ApiValues(aliases);
      assert show(Str(Sent(text, aliases))) == Sent(text, aliases);
    } else {
      UnlistedIsSent(text, aliases);
      if text !in ApiValues(aliases) {
        SwappedValues(aliases);
        UnlistedIsSent(text, Swapped(aliases));
      }
    }
  }

  // ----- the two mappings -----

  /** A field of the spec, kept by the API at `apiField`. */
  datatype Field = Field(path: Path, apiField: string, apiPath: Path, aliases: seq<Alias>)
  {
    function InCustomResource(): string {
      "spec." + Join(path)
    }

    function InRequest(): CallConfig.Mapping {
      CallConfig.Mapping("", "", apiField, InCustomResource(), CallConfig.NoResolver, CallConfig.Aliases(aliases))
    }

    function InResponse(default: Default): Entry {
      Entry(apiField, InCustomResource(), Aliases(aliases), default)
    }

    predicate Valid() {
      && KeyPath(path) && PlainPath(path)
      && apiField != "" && apiPath != [] && ParsePath(apiField) == Some(apiPath)
    }
  }

  lemma FieldReadsBack(f: Field)
    requires f.Valid()
    ensures ParsePath(f.InCustomResource()) == Some(["spec"] + f.path)
    ensures BodyRelativePath(f.InCustomResource()) == Some(f.path)
  {
    var p := ["spec"] + f.path;
    assert PlainName("spec");
    assert PlainPath(p);
    PlainPathReadsBack(p);
    PlainPathReadsBack(f.path);
    assert p[1..] == f.path && Join(p) == "spec" + "." + Join(f.path);
    assert "spec" + "." == "spec.";
    assert f.InCustomResource()[..5] == "spec." && f.InCustomResource()[5..] == Join(f.path);
  }

  /** Along map keys both ways of reading find the same. */
  lemma {:induction false} MapReadsAgree(show: Printer, v: JSON, p: Path)
    requires forall i | 0 <= i < |p| :: !WantsArray(p[i])
    ensures Get(show, v, p).Found? || NestedField(v, p).Found? ==> Get(show, v, p) == NestedField(v, p)
    decreases |p|
  {
    if p != [] && v.Obj? && p[0] in v.fields { MapReadsAgree(show, v.fields[p[0]], p[1..]); }
  }

  // ----- out and back -----

  /** The custom resource has `v` in the field. */
  predicate Holds(inp: CallConfig.Inputs, f: Field, v: JSON) {
    && inp.resource.Obj? && "spec" in inp.resource.fields && inp.resource.fields["spec"] == Obj(inp.spec)
    && NestedField(Obj(inp.spec), f.path) == Found(v)
  }

  lemma MappingSends(inp: CallConfig.Inputs, f: Field, v: JSON)
    requires f.Valid() && Holds(inp, f, v)
    ensures CallConfig.NewEffect(inp, f.InRequest())
            == CallConfig.ToBody(f.apiPath, Copy(inp.show, CallConfig.ToApi(inp.show, v, f.aliases)))
  {
    FieldReadsBack(f);
    MapReadsAgree(inp.show, Obj(inp.spec), f.path);
    var p := ["spec"] + f.path;
    assert p[1..] == f.path;
    assert Get(inp.show, inp.resource, p) == Found(v);
  }

  /** The request carries the field's value where the field's mapping writes it. */
  predicate Carries(inp: CallConfig.Inputs, info: CallConfig.CallInfo, f: Field) {
    var e := CallConfig.NewEffect(inp, f.InRequest());
    e.ToBody? && Get(inp.show, Obj(CallConfig.Build(inp, info).body), f.apiPath) == Found(e.val)
  }

  /** If the write is accepted and no later one is at odds with it, that is when no stripped source takes it. */
  lemma CarriedUnlessTaken(
    inp: CallConfig.Inputs, info: CallConfig.CallInfo, i: nat, e: CallConfig.Effect, before: CallConfig.Request,
    later: seq<CallConfig.Effect>, f: Field)
    requires e == CallConfig.NewEffect(inp, f.InRequest()) && e.ToBody? && e.path == f.apiPath
    requires RequestLaws.Meets(inp, info, i, e, before, later)
    requires RequestLaws.Writes(inp.show, e, before) && RequestLaws.Scalar(e.val)
    requires SetLaws.Sticks(inp.show, Obj(before.body), e.val, e.path)
    requires RequestLaws.AllPart(inp.show, later, CallConfig.Apply(inp.show, e, before), e.path)
    requires RequestLaws.SourcesComparable(info.fieldMapping, e.path)
    requires RequestLaws.TestedInArrays(inp.show, info.fieldMapping, CallConfig.Apply(inp.show, e, before).body, e.path)
    ensures Carries(inp, info, f) <==> RequestLaws.NoSourceTakes(info.fieldMapping, f.apiPath)
  {
    RequestLaws.ResolvedValueIsRead(inp, info, i, e, before, later);
  }

  /** The remote returns, where the field is kept, what the request carried there. */
  predicate Returns(
    inp: CallConfig.Inputs, info: CallConfig.CallInfo, f: Field, programs: seq<Program>, remote: Fields)
  {
    && Transform(programs, remote).Some?
    && Get(inp.show, Obj(Transform(programs, remote).value), f.apiPath)
       == Get(inp.show, Obj(CallConfig.Build(inp, info).body), f.apiPath)
  }

  /** The response mapping is the field's, with any default, among entries that stay out of each other's way. */
  ghost predicate Normalizes(
    rt: Runtime, f: Field, default: Default, programs: seq<Program>, entries: seq<Entry>, remote: Fields)
  {
    && f.InResponse(default) in entries && Normalize(rt, programs, entries, remote).Some?
    && NormalizeLaws.Orderly(ResolveAll(rt, entries, Transform(programs, remote).value).value)
  }

  lemma FieldNormalized(
    rt: Runtime, f: Field, default: Default, programs: seq<Program>, entries: seq<Entry>, remote: Fields, sent: JSON)
    requires f.Valid() && Normalizes(rt, f, default, programs, entries, remote)
    requires Get(rt.show, Obj(Transform(programs, remote).value), f.apiPath) == Found(sent)
    ensures var back := rt.canonical(ApplyAlias(rt.show, sent, f.aliases));
            && back.Some?
            && NestedField(Obj(Normalize(rt, programs, entries, remote).value), f.path) == Found(back.value)
  {
    var shaped := Transform(programs, remote).value;
    FieldReadsBack(f);
    ResponseResolves(rt, f, default, sent, shaped);
    AllResolved(rt, entries, f.InResponse(default), shaped);
    NormalizeLaws.NormalizedBody(rt, programs, entries, remote);
    MapReadsAgree(rt.show, Obj(Normalize(rt, programs, entries, remote).value), f.path);
  }

  /** The field of the observed body holds what comes back of its value, in canonical form. */
  lemma FieldObserved(
    inp: CallConfig.Inputs, info: CallConfig.CallInfo, f: Field, v: JSON,
    rt: Runtime, default: Default, programs: seq<Program>, entries: seq<Entry>, remote: Fields)
    requires f.Valid() && Holds(inp, f, v) && Carries(inp, info, f)
    requires rt.show == inp.show && Returns(inp, info, f, programs, remote)
    requires Normalizes(rt, f, default, programs, entries, remote)
    ensures rt.canonical(Observed(inp.show, v, f.aliases)).Some?
    ensures NestedField(Obj(Normalize(rt, programs, entries, remote).value), f.path)
            == Found(rt.canonical(Observed(inp.show, v, f.aliases)).value)
  {
    MappingSends(inp, f, v);
    var sent := Copy(inp.show, CallConfig.ToApi(inp.show, v, f.aliases));
    FieldNormalized(rt, f, default, programs, entries, remote, sent);
  }

  lemma ResponseResolves(rt: Runtime, f: Field, default: Default, sent: JSON, shaped: Fields)
    requires f.Valid() && Get(rt.show, Obj(shaped), f.apiPath) == Found(sent)
    requires BodyRelativePath(f.InCustomResource()) == Some(f.path)
    ensures ResolveResponseEntry(rt, f.InResponse(default), shaped)
            == match rt.canonical(ApplyAlias(rt.show, sent, f.aliases))
               case None => Invalid
               case Some(c) => Resolved(AnyMove.Move(f.apiPath, f.path, c))
  {
    assert f.InCustomResource()[0] == 's';
  }

  /** No entry of a normalization that succeeds is invalid. */
  lemma {:induction false} AllResolved(rt: Runtime, entries: seq<Entry>, e: Entry, body: Fields)
    requires ResolveAll(rt, entries, body).Some? && e in entries
    ensures !ResolveResponseEntry(rt, e, body).Invalid?
    decreases |entries|
  {
    if e != entries[0] { AllResolved(rt, entries[1..], e, body); }
  }

  /** Canonical form changes neither what a value is read as nor whether it is nil. */
  predicate KeepsReading(rt: Runtime, read: C.Reader, v: JSON) {
    match rt.canonical(v)
    case None => true
    case Some(c) => (c.Null? <==> v.Null?) && C.InferType(read(c)) == C.InferType(read(v))
  }

  lemma DriftThroughCanonical(
    show: Printer, rt: Runtime, read: C.Reader, spec: Fields, v: JSON, back: JSON, rm: Fields, p: Path)
    requires RequestLaws.Scalar(v) && KeepsReading(rt, read, back) && rt.canonical(back).Some?
    requires NestedField(Obj(spec), p) == Found(v) && NestedField(Obj(rm), p) == Found(rt.canonical(back).value)
    ensures PathAgrees(show, read, spec, rm, p) <==> C.Agree(read, Copy(show, v), back)
  {
    StoredValueAgrees(read, Copy(show, v), rt.canonical(back).value, Obj(rm), p);
  }

  /**
   * After an update the remote stored, a field mapped out and back through one table agrees, for the drift
   * check, exactly when its value agrees with what comes back of it.
   */
  lemma MappedFieldConverges(
    inp: CallConfig.Inputs, info: CallConfig.CallInfo, f: Field, v: JSON, read: C.Reader,
    rt: Runtime, default: Default, programs: seq<Program>, entries: seq<Entry>, remote: Fields)
    requires f.Valid() && Holds(inp, f, v) && RequestLaws.Scalar(v) && Carries(inp, info, f)
    requires rt.show == inp.show && Returns(inp, info, f, programs, remote)
    requires Normalizes(rt, f, default, programs, entries, remote)
    requires KeepsReading(rt, read, Observed(inp.show, v, f.aliases))
    ensures PathAgrees(inp.show, read, inp.spec, Normalize(rt, programs, entries, remote).value, f.path)
            <==> C.Agree(read, Copy(inp.show, v), Observed(inp.show, v, f.aliases))
  {
    FieldObserved(inp, info, f, v, rt, default, programs, entries, remote);
    DriftThroughCanonical(
      inp.show, rt, read, inp.spec, v, Observed(inp.show, v, f.aliases), Normalize(rt, programs, entries, remote).value,
      f.path);
  }

  lemma ObservedAsText(show: Printer, read: C.Reader, v: JSON, aliases: seq<Alias>)
    requires RequestLaws.Scalar(v) && !v.Float? && !v.Null? && TextsPrint(show) && read(v) == read(Str(show(v)))
    ensures C.Agree(read, Copy(show, v), Observed(show, v, aliases))
            <==> C.CompareAny(read, Str(show(v)), Str(RoundTrip(show(v), aliases)))
  {
    ValueRoundTrips(show, v, aliases);
    if !Listed(show(v), aliases) {
      SwappedValues(aliases);
      UnlistedIsSent(show(v), aliases);
      UnlistedIsSent(show(v), Swapped(aliases));
    }
  }

  /**
   * For a text, a boolean or an integer: no drift at the field exactly when the text that comes back reads as
   * the one that was sent, as it does if that very text comes back and does not read as NaN.
   */
  lemma MappedTextConverges(
    inp: CallConfig.Inputs, info: CallConfig.CallInfo, f: Field, v: JSON, read: C.Reader,
    rt: Runtime, default: Default, programs: seq<Program>, entries: seq<Entry>, remote: Fields)
    requires f.Valid() && Holds(inp, f, v) && Carries(inp, info, f)
    requires RequestLaws.Scalar(v) && !v.Float? && !v.Null?
    requires rt.show == inp.show && Returns(inp, info, f, programs, remote)
    requires Normalizes(rt, f, default, programs, entries, remote)
    requires KeepsReading(rt, read, Observed(inp.show, v, f.aliases))
    requires TextsPrint(inp.show) && read(v) == read(Str(inp.show(v)))
    ensures PathAgrees(inp.show, read, inp.spec, Normalize(rt, programs, entries, remote).value, f.path)
            <==> C.CompareAny(read, Str(inp.show(v)), Str(RoundTrip(inp.show(v), f.aliases)))
    ensures RoundTrip(inp.show(v), f.aliases) == inp.show(v) && !C.ReadsAsNaN(read, v) ==>
              PathAgrees(inp.show, read, inp.spec, Normalize(rt, programs, entries, remote).value, f.path)
  {
    MappedFieldConverges(inp, info, f, v, read, rt, default, programs, entries, remote);
    ObservedAsText(inp.show, read, v, f.aliases);
  }

  // ----- the simplest case, from end to end -----

  /** The field is the only mapping of the verb, and is named differently on both sides. */
  predicate OnlyField(info: CallConfig.CallInfo, f: Field) {
    && f.Valid() && |f.path| == 1 && |f.apiPath| == 1 && KeyPath(f.apiPath) && f.path != f.apiPath
    && info.requestFieldMapping == [] && info.fieldMapping == [f.InRequest()]
  }

  /** What the only mapping of a verb writes at a top-level field of the body is in the request. */
  lemma OnlyWriteIsSent(
    inp: CallConfig.Inputs, info: CallConfig.CallInfo, m: CallConfig.Mapping, k: string, sent: JSON)
    requires info.requestFieldMapping == [] && info.fieldMapping == [m] && m.resolver.NoResolver?
    requires CallConfig.NewEffect(inp, m) == CallConfig.ToBody([k], sent)
    ensures Get(inp.show, Obj(CallConfig.Build(inp, info).body), [k]) == Found(sent)
  {
    var filled := CallConfigLaws.Filled(inp, info);
    OnlyEffect(inp, info, m, CallConfig.ToBody([k], sent));
    OneFieldWritten(inp.show, filled, k, sent);
    NothingStripped(inp.show, m, filled.body[k := sent]);
    assert CallConfig.Build(inp, info).body == filled.body[k := sent];
  }

  lemma OnlyEffect(inp: CallConfig.Inputs, info: CallConfig.CallInfo, m: CallConfig.Mapping, e: CallConfig.Effect)
    requires info.requestFieldMapping == [] && info.fieldMapping == [m] && CallConfig.NewEffect(inp, m) == e
    ensures CallConfig.Effects(inp, info) == [e]
  {}

  lemma OneFieldWritten(show: Printer, r: CallConfig.Request, k: string, sent: JSON)
    ensures CallConfig.ApplyAll(show, [CallConfig.ToBody([k], sent)], r) == r.(body := r.body[k := sent])
  {
    assert [CallConfig.ToBody([k], sent)][1..] == [];
    assert CallConfig.ApplyAll(show, [], r.(body := r.body[k := sent])) == r.(body := r.body[k := sent]);
  }

  lemma NothingStripped(show: Printer, m: CallConfig.Mapping, body: Fields)
    requires m.resolver.NoResolver?
    ensures CallConfig.Strip(show, [m], body) == body
  {
    assert [m][1..] == [] && CallConfig.Strip(show, [], body) == body;
  }

  lemma OnlyFieldCarried(inp: CallConfig.Inputs, info: CallConfig.CallInfo, f: Field, v: JSON)
    requires OnlyField(info, f) && Holds(inp, f, v)
    ensures Carries(inp, info, f)
  {
    var sent := Copy(inp.show, CallConfig.ToApi(inp.show, v, f.aliases));
    MappingSends(inp, f, v);
    assert f.apiPath == [f.apiPath[0]];
    OnlyWriteIsSent(inp, info, f.InRequest(), f.apiPath[0], sent);
  }

  lemma OnlyFieldNormalized(rt: Runtime, info: CallConfig.CallInfo, f: Field, body: Fields, sent: JSON)
    requires OnlyField(info, f) && Get(rt.show, Obj(body), f.apiPath) == Found(sent)
    requires rt.canonical(ApplyAlias(rt.show, sent, f.aliases)).Some?
    ensures Normalizes(rt, f, NoDefault, [], [f.InResponse(NoDefault)], body)
  {
    var entry := f.InResponse(NoDefault);
    FieldReadsBack(f);
    ResponseResolves(rt, f, NoDefault, sent, body);
    var m := ResolveResponseEntry(rt, entry, body).move;
    assert [entry][1..] == [] && [m] + [] == [m];
    assert ResolveAll(rt, [entry], body) == Some([m]);
    PathLaws.KeyPathsRelated(f.path, f.apiPath);
    assert f.path[0] != f.apiPath[0];
    assert PathLaws.PartAtKeys(f.path, f.apiPath);
    NormalizeLaws.KeyPathsAreWritten(rt.show, [m], body);
    assert entry in [entry];
  }

  /**
   * A remote that echoes the request: the observation that follows the update reports drift at the field, for a
   * text, a boolean or an integer, unless the text that comes back through the table reads as the one sent.
   */
  lemma EchoedFieldConverges(
    inp: CallConfig.Inputs, info: CallConfig.CallInfo, f: Field, v: JSON, read: C.Reader, rt: Runtime)
    requires OnlyField(info, f) && Holds(inp, f, v) && RequestLaws.Scalar(v) && !v.Float? && !v.Null?
    requires rt.show == inp.show && rt.canonical(Observed(inp.show, v, f.aliases)).Some?
    requires KeepsReading(rt, read, Observed(inp.show, v, f.aliases))
    requires TextsPrint(inp.show) && read(v) == read(Str(inp.show(v)))
    ensures var observed := Normalize(rt, [], [f.InResponse(NoDefault)], CallConfig.Build(inp, info).body);
            && observed.Some?
            && (PathAgrees(inp.show, read, inp.spec, observed.value, f.path)
                <==> C.CompareAny(read, Str(inp.show(v)), Str(RoundTrip(inp.show(v), f.aliases))))
  {
    var body := CallConfig.Build(inp, info).body;
    OnlyFieldCarried(inp, info, f, v);
    MappingSends(inp, f, v);
    OnlyFieldNormalized(rt, info, f, body, Copy(inp.show, CallConfig.ToApi(inp.show, v, f.aliases)));
    MappedTextConverges(inp, info, f, v, read, rt, NoDefault, [], [f.InResponse(NoDefault)], body);
  }
}
