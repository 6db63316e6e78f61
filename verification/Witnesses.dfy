/** Inputs at which the exact conditions of the other files fail, or are met by a wiring of note. */
module Witnesses {
  import opened Options
  import opened Json
  import opened Segments
  import opened Nested
  import opened PathParsing
  import opened SecretWiring
  import SetLaws
  import FieldMapping
  import AliasLaws
  import CallConfig
  import CallConfigLaws
  import Comparison
  import Schemas
  import Drift
  import Matching
  import FindBy
  import Handles
  import Polling
  import PathTemplate
  import Finalizer
  import Deletion
  import AsyncProtocol
  import ModelB
  import Unstructured

  // ----- paths -----

  const BY_K := "?k=a"
  const TO_K := ["list", BY_K, "k"]

  function OneElement(v: string): JSON {
    Obj(map["list" := Arr([Obj(map["k" := Str(v)])])])
  }

  lemma TheSlot(show: Printer, items: seq<JSON>, p: Predicate, seg: string)
    requires |items| == 1 && ParsePredicate(seg) == Some(p)
    ensures SlotOf(show, Arr(items), seg) == if Selects(show, items[0], p) then At(Idx(0)) else Gone
  {
    if Selects(show, items[0], p) {
      assert items[..0] == [];
      assert MatchItems(show, items[..0], p).Zero?;
    } else {
      SetLaws.NoneSelected(show, items, p);
    }
  }

  /** Changing the key a predicate tests makes the written value unreachable. */
  lemma WriteUnreadable(show: Printer)
    requires show(Str("a")) == "a" && show(Str("b")) == "b"
    ensures SetAt(show, OneElement("a"), Str("b"), TO_K) == Written(OneElement("b"))
    ensures Get(show, OneElement("b"), TO_K) == Absent
  {
    WriteToTestedKey(show);
    PredicateReads(BY_K, Predicate("k", "a"));
    TheSlot(show, [Obj(map["k" := Str("b")])], Predicate("k", "a"), BY_K);
    assert TO_K[1..] == [BY_K, "k"];
    assert Get(show, Arr([Obj(map["k" := Str("b")])]), [BY_K, "k"]) == Absent;
  }

  lemma WriteToTestedKey(show: Printer)
    requires show(Str("a")) == "a"
    ensures SetAt(show, OneElement("a"), Str("b"), TO_K) == Written(OneElement("b"))
  {
    var list, after := Arr([Obj(map["k" := Str("a")])]), Arr([Obj(map["k" := Str("b")])]);
    PredicateReads(BY_K, Predicate("k", "a"));
    NotAnArraySegment("k");
    TheSlot(show, [Obj(map["k" := Str("a")])], Predicate("k", "a"), BY_K);
    assert TO_K[1..] == [BY_K, "k"] && TO_K[1..][1..] == ["k"];
    WriteOneKey(show, "k", Str("a"), Str("b"));
    WriteInElement(show, Obj(map["k" := Str("a")]), Str("b"), [BY_K, "k"]);
    assert Descend(ChildOrNull(OneElement("a"), Key("list")), BY_K) == list;
    assert Put(OneElement("a"), Key("list"), after) == OneElement("b");
  }

  lemma WriteOneKey(show: Printer, k: string, v: JSON, w: JSON)
    ensures SetAt(show, Obj(map[k := v]), w, [k]) == Written(Obj(map[k := w]))
  {
    assert map[k := v][k := w] == map[k := w];
  }

  /** A write through the only element of an array. */
  lemma WriteInElement(show: Printer, e: JSON, v: JSON, segs: Path)
    requires |segs| == 2 && SlotOf(show, Arr([e]), segs[0]) == At(Idx(0)) && ContainerMatches(e, segs[1])
    requires SetAt(show, e, v, [segs[1]]).Written?
    ensures SetAt(show, Arr([e]), v, segs) == Written(Arr([SetAt(show, e, v, [segs[1]]).doc]))
  {
    assert segs[1..] == [segs[1]];
    assert Pad([e], 1) == [e] && [e][0 := SetAt(show, e, v, [segs[1]]).doc] == [SetAt(show, e, v, [segs[1]]).doc];
  }

  /** So does removing it: the old value cannot be set back. */
  lemma RemovalNotUndone(show: Printer)
    requires show(Str("a")) == "a"
    ensures Get(show, OneElement("a"), TO_K) == Found(Str("a"))
    ensures SetAt(show, RemoveAt(show, OneElement("a"), TO_K), Str("a"), TO_K) == Refused(NoMatch)
  {
    var empty := Obj(map["list" := Arr([Obj(map[])])]);
    TestedKeyRemoved(show);
    PredicateReads(BY_K, Predicate("k", "a"));
    TheSlot(show, [Obj(map[])], Predicate("k", "a"), BY_K);
    assert TO_K[1..] == [BY_K, "k"];
    assert SetAt(show, Arr([Obj(map[])]), Str("a"), [BY_K, "k"]) == Refused(NoMatch);
    assert Descend(ChildOrNull(empty, Key("list")), BY_K) == Arr([Obj(map[])]);
  }

  lemma TestedKeyRemoved(show: Printer)
    requires show(Str("a")) == "a"
    ensures Get(show, OneElement("a"), TO_K) == Found(Str("a"))
    ensures RemoveAt(show, OneElement("a"), TO_K) == Obj(map["list" := Arr([Obj(map[])])])
  {
    var e := Obj(map["k" := Str("a")]);
    PredicateReads(BY_K, Predicate("k", "a"));
    TheSlot(show, [e], Predicate("k", "a"), BY_K);
    assert TO_K[1..] == [BY_K, "k"] && [BY_K, "k"][1..] == ["k"];
    assert Get(show, e, ["k"]) == Found(Str("a"));
    assert Get(show, Arr([e]), [BY_K, "k"]) == Found(Str("a"));
    assert RemoveAt(show, e, ["k"]) == Obj(map[]) by { assert map["k" := Str("a")] - {"k"} == map[]; }
    assert RemoveAt(show, Arr([e]), [BY_K, "k"]) == Arr([Obj(map[])]);
    assert map["list" := Arr([e])]["list" := Arr([Obj(map[])])] == map["list" := Arr([Obj(map[])])];
  }

  // ----- requests -----

  const TOKEN := CallConfig.Mapping("", "", "token.value", "spec.token", CallConfig.SecretRef, CallConfig.NoMapping)

  function OnlyToken(show: Printer, secret: string): CallConfig.Inputs {
    CallConfig.Inputs(show, Obj(map[]), map[], map[], None, map[CallConfig.KeyOf(TOKEN) := Str(secret)])
  }

  const TOKEN_CALL := CallConfig.CallInfo("create", {}, {}, {}, [], [], [], [TOKEN])

  lemma TokenPath()
    ensures ParsePath("token.value") == Some(["token", "value"])
  {
    var p := ["token", "value"];
    assert p[1..] == ["value"];
    assert Join(["value"]) == "value";
    assert Join(p) == "token" + "." + "value" == "token.value";
    Drift.PlainPathReadsBack(p);
  }

  lemma TokenSource()
    ensures CallConfig.SourceOf(TOKEN) == Some(["token"])
  {
    assert Join(["token"]) == "token";
    Drift.PlainPathReadsBack(["token"]);
    assert "spec.token"[..5] == "spec." && "spec.token"[5..] == "token";
    assert FieldMapping.TrimPrefix("spec.token", "spec.") == "token";
    assert FieldMapping.TrimPrefix("token", "status.") == "token";
  }

  lemma TokenWritten(show: Printer, secret: string)
    ensures CallConfig.SetOrSkip(show, map[], Str(secret), ["token", "value"])
            == map["token" := Obj(map["value" := Str(secret)])]
  {
    NotAnArraySegment("token");
    NotAnArraySegment("value");
    assert ["token", "value"][1..] == ["value"];
    assert SetAt(show, Obj(map[]), Str(secret), ["value"]) == Written(Obj(map["value" := Str(secret)]));
    assert Descend(ChildOrNull(Obj(map[]), Key("token")), "value") == Obj(map[]);
    assert SetAt(show, Obj(map[]), Str(secret), ["token", "value"])
           == Written(Obj(map["token" := Obj(map["value" := Str(secret)])]));
  }

  lemma TokenEffects(show: Printer, secret: string)
    ensures CallConfig.Effects(OnlyToken(show, secret), TOKEN_CALL)
            == [CallConfig.ToBody(["token", "value"], Str(secret))]
  {
    TokenPath();
    var inp := OnlyToken(show, secret);
    assert CallConfig.MappedValue(inp, TOKEN) == Some(Str(secret));
    assert CallConfig.NewEffect(inp, TOKEN) == CallConfig.ToBody(["token", "value"], Str(secret));
  }

  lemma TokenStripped(show: Printer, body: map<string, JSON>)
    requires body.Keys == {"token"}
    ensures CallConfig.Strip(show, [TOKEN], body) == map[]
  {
    TokenSource();
    assert body - {"token"} == map[];
    assert RemoveAt(show, Obj(body), ["token"]) == Obj(map[]);
    assert CallConfig.Strip(show, [], map[]) == map[];
  }

  /** A secret read from spec.token and written below token is stripped with its source. */
  lemma SecretStripped(show: Printer, secret: string)
    ensures CallConfig.Build(OnlyToken(show, secret), TOKEN_CALL).body == map[]
  {
    var inp := OnlyToken(show, secret);
    var e, filled := CallConfig.ToBody(["token", "value"], Str(secret)), CallConfigLaws.Filled(inp, TOKEN_CALL);
    TokenEffects(show, secret);
    TokenWritten(show, secret);
    assert filled.body == map[];
    assert CallConfig.ApplyAll(show, [e], filled) == CallConfig.Apply(show, e, filled);
    TokenStripped(show, map["token" := Obj(map["value" := Str(secret)])]);
  }

  // ----- drift -----

  const ONE_FIELD := Schemas.Schema(false, None, [Schemas.Property("k", Schemas.Schema(false, None, [], []))], [])

  const UPDATE_CALL := CallConfig.CallInfo("update", {}, {}, {"k"}, [], [], [], [])

  function NilField(show: Printer): CallConfig.Inputs {
    CallConfig.Inputs(show, Obj(map[]), map["k" := Null], map["k" := Str("v")], None, map[])
  }

  lemma OneFieldPaths()
    ensures Schemas.WellFormed(ONE_FIELD) && Schemas.Updatable(ONE_FIELD) == [["k"]]
    ensures Schemas.RequestedBody(ONE_FIELD) == {"k"}
  {
    var leaf := Schemas.Schema(false, None, [], []);
    assert Schemas.Flatten(leaf) == leaf;
    assert Schemas.Flatten(ONE_FIELD).props == [Schemas.Property("k", leaf)];
    assert Schemas.Leaves(leaf, 1) == [[]];
    assert ["k"] + [] == ["k"];
    assert Schemas.Under("k", [[]]) == [["k"]];
    assert Schemas.LeavesOf([Schemas.Property("k", leaf)], 0) == [["k"]] + [];
    assert Schemas.WellFormed(leaf);
  }

  lemma NilFieldSent(show: Printer)
    ensures CallConfig.Build(NilField(show), UPDATE_CALL).body == map["k" := Str("v")]
  {
    var inp := NilField(show);
    var fromSpec := CallConfig.FillBody({"k"}, inp.spec, map[]);
    assert fromSpec == map["k" := Null];
    assert CallConfig.FillBody({"k"}, inp.status, fromSpec) == map["k" := Str("v")];
    assert CallConfigLaws.Filled(inp, UPDATE_CALL).body == map["k" := Str("v")];
    assert CallConfig.Effects(inp, UPDATE_CALL) == [];
  }

  lemma NilDisagrees(show: Printer, read: Comparison.Reader, spec: map<string, JSON>, rm: map<string, JSON>)
    requires spec == map["k" := Null] && rm == map["k" := Str("v")]
    ensures !Drift.PathAgrees(show, read, spec, rm, ["k"])
  {
    assert ["k"][1..] == [];
    assert Unstructured.NestedField(Obj(spec), ["k"]) == Found(Null);
    assert !Drift.AgreesAt(read, Null, Str("v"), []);
  }

  /** A field the spec sets to nil while the status has a value drifts again right after the update. */
  lemma NilFieldDrifts(show: Printer, read: Comparison.Reader)
    ensures var inp, rm := NilField(show), CallConfig.Build(NilField(show), UPDATE_CALL).body;
            var projected := Drift.Project(show, inp.spec, Schemas.Texts([], Schemas.Updatable(ONE_FIELD)));
            projected.Some? && !Comparison.Agree(read, Obj(projected.value), Obj(rm))
  {
    OneFieldPaths();
    NilFieldSent(show);
    NilDisagrees(show, read, map["k" := Null], map["k" := Str("v")]);
    assert ["k"] in Schemas.Updatable(ONE_FIELD);
    Drift.DriftIsPathwise(show, read, map["k" := Null], map["k" := Str("v")], ONE_FIELD);
  }

  // ----- an alias table -----

  const SWITCH := [FieldMapping.Alias("enabled", "on")]

  /** The usual table, of one name on each side: a resource that says what the API says reads back otherwise. */
  lemma ApiTextRewritten()
    ensures AliasLaws.RoundTrip("enabled", SWITCH) == "enabled"
    ensures AliasLaws.RoundTrip("on", SWITCH) == "enabled"
    ensures !AliasLaws.RoundTripsAlways(SWITCH)
  {
    assert AliasLaws.Swapped(SWITCH)[0] == FieldMapping.Alias("on", "enabled");
    assert AliasLaws.Sent("on", SWITCH) == "on" && AliasLaws.Sent("enabled", SWITCH) == "on";
    assert AliasLaws.Sent("on", AliasLaws.Swapped(SWITCH)) == "enabled";
    assert "on" != "enabled";
  }

  // ----- one number in two spellings -----

  const FIVE := Comparison.JsonInteger(5)

  /** `+5.0` is no JSON and no integer, but ParseFloat reads it. */
  const FLOAT_FIVE := Comparison.Text("+5.0", "+5.0", None, Some(Comparison.Finite(5.0)))

  /** `5` and `+5.0` are read as an int32 and an int64, so a resource with the one always drifts from the other. */
  lemma SpellingsDiffer(read: Comparison.Reader)
    requires read(Int(5)) == FIVE && read(Str("+5.0")) == FLOAT_FIVE
    ensures Comparison.NumberOf(FIVE) == Comparison.NumberOf(FLOAT_FIVE) == Some(5.0)
    ensures !Comparison.CompareAny(read, Int(5), Str("+5.0"))
    ensures !Comparison.Agree(read, Obj(map["k" := Int(5)]), Obj(map["k" := Str("+5.0")]))
  {
    Comparison.SameNumberCompares(FIVE, FLOAT_FIVE);
    var mine, theirs := map["k" := Int(5)], map["k" := Str("+5.0")];
    assert "k" in mine && mine["k"] == Int(5) && theirs["k"] == Str("+5.0");
  }

  // ----- a page that is not found -----

  /** The first page is empty and names another; no other is found. */
  function SecondPageMissing(k: nat, token: Option<string>): FindBy.Reply {
    if k == 0 then FindBy.Page(Arr([]), "next") else FindBy.AnswersNotFound
  }

  const IN_QUERY := FindBy.Tokens(FindBy.Query, FindBy.Header)

  /** The search of two pages says "not found", though it never saw what the second page holds. */
  lemma MissingPageIsNotFound(c: Matching.Client)
    ensures FindBy.Chain(IN_QUERY, SecondPageMissing, 0, None, 2)
    ensures FindBy.Continues(FindBy.Ask(IN_QUERY, SecondPageMissing, 0, None))
    ensures FindBy.Search(c, IN_QUERY, SecondPageMissing, 0, None, 2) == FindBy.NotFound
  {
    var second := Some("next");
    assert FindBy.Ask(IN_QUERY, SecondPageMissing, 0, None) == FindBy.Listing([], second);
    assert FindBy.Ask(IN_QUERY, SecondPageMissing, 1, second) == FindBy.Nothing(true);
    assert FindBy.Chain(IN_QUERY, SecondPageMissing, 1, second, 1);
  }

  // ----- the hidden failure -----

  const OPERATION := AsyncProtocol.Op("7", AsyncProtocol.CreateVerb)

  const REQUEUED :=
    ModelB.Async(true, false, Handles.OperationRef(Handles.InHeader("Operation"), None), [], ["failed"])

  const DECLARED := ModelB.Config(false, false, false, ModelB.Declared(REQUEUED), ModelB.Undeclared, true, false)

  const CREATING := ModelB.World(
    DECLARED, true, ModelB.Lands, ModelB.NotConfigured, false,
    ModelB.PollFails, ModelB.RereadFails, ModelB.Lands, ModelB.Lands, ModelB.Lands,
    true, ModelB.NotFound, ModelB.Lands, ModelB.Lands, true, true,
    ModelB.Accepted(ModelB.Response(None, Some(map["Operation" := "7"]), false)), ModelB.BreaksOff, ModelB.Lands,
    true, true, ModelB.Lands)

  /** The poll reports the failure, and the status write that should say so is lost. */
  const FAILING := CREATING.(poll := ModelB.Answers("failed"), failureWrite := ModelB.Lost)

  /** The create verb no longer declares async. */
  const EDITED := CREATING.(cfg := DECLARED.(create := ModelB.Declared(ModelB.NoAsync)))

  lemma CreationRuns()
    ensures AsyncProtocol.Run([AsyncProtocol.Fire(AsyncProtocol.CreateVerb, true), AsyncProtocol.Record(OPERATION),
                               AsyncProtocol.Status(AsyncProtocol.Pending)])
            == Some(AsyncProtocol.State(Some(OPERATION), AsyncProtocol.Pending, None, None))
  {
    var fire, record := AsyncProtocol.Fire(AsyncProtocol.CreateVerb, true), AsyncProtocol.Record(OPERATION);
    var status := AsyncProtocol.Status(AsyncProtocol.Pending);
    assert [] + [fire] == [fire] && [fire] + [record] == [fire, record];
    assert [fire, record] + [status] == [fire, record, status];
    AsyncProtocol.RunExtends([], fire);
    AsyncProtocol.RunExtends([fire], record);
    AsyncProtocol.RunExtends([fire, record], status);
  }

  /** Such a world differs from the first in its update verb and in the statuses its create verb knows. */
  ghost predicate Creates(w: ModelB.World) {
    && w.cfg.create.Declared? && w.cfg.create.async.Async?
    && var async := REQUEUED.(success := w.cfg.create.async.success, failure := w.cfg.create.async.failure);
       w == CREATING.(cfg := DECLARED.(create := ModelB.Declared(async), update := w.cfg.update))
  }

  /** The creation leaves its operation recorded and the resource Pending. */
  method CreationRecorded(r: ModelB.Reconciler, w: ModelB.World) returns (obs: ModelB.Observation)
    requires r.Valid() && r.trace == [] && Creates(w)
    modifies r
    ensures r.Valid() && obs == ModelB.ABSENT
    ensures r.handle == Some(OPERATION) && r.ready == AsyncProtocol.Pending
  {
    CreationRuns();
    assert r.GoesOn(w, r.St()) && ModelB.ReportsAbsence(w, r.ready);
    obs := r.Reconcile(w);
    CreationMutates(r, w);
    assert r.trace == r.Mutation(w, AsyncProtocol.CreateVerb);
  }

  lemma CreationMutates(r: ModelB.Reconciler, w: ModelB.World)
    requires (forall x :: r.floatText(x) != "") && Creates(w)
    ensures r.Mutation(w, AsyncProtocol.CreateVerb)
            == [AsyncProtocol.Fire(AsyncProtocol.CreateVerb, true), AsyncProtocol.Record(OPERATION),
                AsyncProtocol.Status(AsyncProtocol.Pending)]
  {
    assert r.Started(w, AsyncProtocol.CreateVerb) == Some(OPERATION);
    assert r.Recording(w, AsyncProtocol.CreateVerb) == [AsyncProtocol.Record(OPERATION)];
    assert r.Ending(w, AsyncProtocol.CreateVerb) == [AsyncProtocol.Status(AsyncProtocol.Pending)];
  }

  lemma FailureLost(r: ModelB.Reconciler)
    ensures r.LosesFailure(FAILING, OPERATION)
  {
    assert FAILING.cfg.AsyncOf(AsyncProtocol.CreateVerb).failure[0] == "failed";
  }

  /**
   * From the start: a create whose operation is recorded, a poll whose bad news is lost, a definition edited
   * meanwhile. The resource that was never created counts as settled.
   */
  method FailureHidden(fold: string -> string, floatText: real -> string)
    returns (r: ModelB.Reconciler, obs: ModelB.Observation)
    requires forall x :: floatText(x) != ""
    ensures r.Valid() && obs == ModelB.SETTLED && AsyncProtocol.Hidden(r.St())
  {
    r := new ModelB.Reconciler(fold, floatText);
    obs := CreationRecorded(r, CREATING);
    FailureLost(r);
    obs := r.StaleAnnotationHidesFailure(OPERATION, FAILING, EDITED);
  }

  /** The update waits for its operation. */
  const WAITING := ModelB.Async(false, false, REQUEUED.ref, [], [])

  const BOTH := DECLARED.(create := ModelB.Declared(REQUEUED.(success := ["done"])), update := ModelB.Declared(WAITING))

  const CREATED := CREATING.(cfg := BOTH)

  /** The creation is over, the resource has drifted, and the update's operation fails. */
  const DRIFTED := CREATED.(
    poll := ModelB.Answers("done"), waited := ModelB.OperationFails,
    reply := ModelB.Replies(ModelB.Object(true, true, ModelB.Differs), ModelB.NoPredicate))

  lemma CreationDone(r: ModelB.Reconciler)
    ensures r.Succeeds(DRIFTED, OPERATION) && ModelB.AwaitsFailure(DRIFTED, AsyncProtocol.UpdateVerb)
  {
    assert DRIFTED.cfg.AsyncOf(AsyncProtocol.CreateVerb).success[0] == "done";
  }

  /**
   * From the start, with no write lost and no definition edited: a create that succeeds, an update whose
   * operation fails while the status still says Pending, and the resource found to be gone. It counts as settled.
   */
  method WaitedFailureHidden(fold: string -> string, floatText: real -> string)
    returns (r: ModelB.Reconciler, obs: ModelB.Observation)
    requires forall x :: floatText(x) != ""
    ensures ModelB.SameDeclarations([CREATED, DRIFTED, CREATED])
    ensures r.Valid() && obs == ModelB.SETTLED && AsyncProtocol.Hidden(r.St())
  {
    r := new ModelB.Reconciler(fold, floatText);
    obs := CreationRecorded(r, CREATED);
    CreationDone(r);
    assert r.FailsInWait(DRIFTED, r.St());
    obs := r.Reconcile(DRIFTED);
    obs := r.Reconcile(CREATED);
  }

  // ----- a deletion during a creation -----

  /** The id is not known yet, so the path of the delete verb is not filled. */
  function UnknownId(polls: Polling.World): Finalizer.World {
    Finalizer.World(
      Finalizer.Present, true, false, Finalizer.NoSnowplow, true, Finalizer.NotFound,
      Finalizer.Declared("/things/{id}", Finalizer.NoAsync), map[], true,
      Finalizer.CallFails, polls, true)
  }

  lemma IdUnresolved()
    ensures PathTemplate.Unresolved("/things/{id}", map[]) == ["id"]
  {
    var pieces := [PathTemplate.Lit("/things/"), PathTemplate.Hole("id")];
    assert pieces[1..] == [PathTemplate.Hole("id")];
    assert PathTemplate.Render(pieces[1..]) == "{id}";
    assert PathTemplate.Render(pieces) == "/things/" + "{id}" == "/things/{id}";
    PathTemplate.UnresolvedOfTemplate(pieces, map[]);
    assert PathTemplate.Unfilled(pieces[1..], map[]) == ["id"];
  }

  /**
   * From the start: a create whose operation is recorded, and the resource deleted while that is in flight. The
   * finalizer is released without a call to the API, and whatever the operation creates stays.
   */
  method CreationAbandoned(fold: string -> string, floatText: real -> string, polls: Polling.World)
    returns (r: ModelB.Reconciler, released: bool, events: seq<Finalizer.Event>)
    requires forall x :: floatText(x) != ""
    ensures r.Valid() && released && events == [] && r.handle == Some(OPERATION)
  {
    r := new ModelB.Reconciler(fold, floatText);
    var turns := [Deletion.Reconciles(CREATING), Deletion.Deletes(UnknownId(polls))];
    IdUnresolved();
    CreationMutates(r, CREATING);
    assert r.AsksCreate(CREATING, AsyncProtocol.START);
    assert r.HandleAfter(CREATING, AsyncProtocol.START) == Some(OPERATION);
    var n;
    ghost var starts;
    n, released, events, starts := Deletion.Live(r, turns);
    assert Deletion.ReleasesAt(r, turns[1]) && n == 1;
    assert Deletion.RecordsAt(r, turns[0], starts[0], OPERATION);
  }
}
