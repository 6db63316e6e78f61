/** Delete (restResources.go, mutate_restaction.go): when the finalizer of a custom resource is released. */
module Finalizer {
  import opened Options
  import opened Json
  import Handles
  import Polling
  import PathTemplate

  datatype Definition = Present | GenuinelyAbsent | Unreadable

  /** A get issued to verify a delegated delete. */
  datatype Probe = NotFound | StillThere | ProbeFails

  datatype Delegate = NoSnowplow | ResolveFails | Resolves

  datatype Async = NoAsync | Async(ref: Handles.OperationRef, poll: Polling.Config)

  datatype DeleteVerb = BuilderFails | Undeclared | Declared(path: string, async: Async)

  datatype Call = CallFails | Accepted(body: Option<JSON>, headers: Option<Handles.Headers>)

  /** Everything one Delete attempt meets. */
  datatype World = World(
    definition: Definition, clientBuilds: bool,
    deleteApiRef: bool, delegate: Delegate, usableGet: bool, probe: Probe,
    verb: DeleteVerb, parameters: PathTemplate.Params, transforms: bool,
    call: Call, polls: Polling.World, conditionSets: bool)

  /** What was done to the external resource, in order. */
  datatype Event = DelegatedDelete | Probed(probe: Probe) | CallSent(accepted: bool) | OperationSucceeded

  /** The delete operation, if any, was seen to succeed. */
  ghost predicate OperationSucceeds(w: World, floatText: real -> string)
    requires w.call.Accepted? && w.verb.Declared? && w.verb.async.Async?
    requires forall x :: floatText(x) != ""
  {
    && (w.verb.async.ref.source.InBody? ==> w.call.body.Some? && w.call.body.value.Obj?)
    && Handles.ExtractOperationHandle(floatText, ObjectBody(w.call.body), w.call.headers, w.verb.async.ref).Some?
    && Polling.Observes(w.verb.async.poll, w.polls, Some(Polling.Succeeded))
  }

  function ObjectBody(body: Option<JSON>): Option<JSON> {
    match body case Some(Obj(m)) => Some(Obj(m)) case _ => None
  }

  /** The exits that release the finalizer. */
  ghost predicate Releases(w: World, floatText: real -> string)
    requires forall x :: floatText(x) != ""
  {
    || (w.definition.GenuinelyAbsent? && w.conditionSets)
    || (w.definition.Present? && w.clientBuilds
        && if w.deleteApiRef then w.delegate.Resolves? && (!w.usableGet || w.probe.NotFound?)
           else w.verb.Undeclared?
                || (w.verb.Declared? && PathTemplate.Unresolved(w.verb.path, w.parameters) != [])
                || (w.verb.Declared? && w.transforms && w.call.Accepted? && w.conditionSets
                    && (w.verb.async.Async? ==> OperationSucceeds(w, floatText))))
  }

  /** A release here leaves the external resource alone, not a single call being made. */
  predicate LeavesAlone(w: World) {
    || !w.definition.Present?
    || (!w.deleteApiRef
        && (w.verb.Undeclared? || (w.verb.Declared? && PathTemplate.Unresolved(w.verb.path, w.parameters) != [])))
  }

  /** The external resource was dealt with, as far as anything could tell. */
  predicate TornDown(es: seq<Event>) {
    es == [DelegatedDelete, Probed(NotFound)] || es == [CallSent(true)] || es == [CallSent(true), OperationSucceeded]
  }

  /** The delete call can be aimed at the resource. */
  predicate Callable(w: World) {
    && w.definition.Present? && w.clientBuilds && !w.deleteApiRef
    && w.verb.Declared? && PathTemplate.Unresolved(w.verb.path, w.parameters) == []
  }

  method ExternalResourceStillExists(w: World) returns (stillExists: bool, error: bool, events: seq<Event>)
    ensures !stillExists && !error <==> !w.usableGet || w.probe.NotFound?
    ensures events == if w.usableGet then [Probed(w.probe)] else []
  {
    if !w.usableGet { return false, false, []; }
    events := [Probed(w.probe)];
    match w.probe {
      case NotFound => return false, false, events;
      case ProbeFails => return false, true, events;
      case StillThere => return true, false, events;
    }
  }

  /** driveAsync on the delete path; it never re-reads the resource. */
  method DriveAsync(w: World, floatText: real -> string) returns (ok: bool)
    requires w.call.Accepted? && w.verb.Declared? && w.verb.async.Async?
    requires forall x :: floatText(x) != ""
    ensures ok <==> OperationSucceeds(w, floatText)
  {
    var body := ObjectBody(w.call.body);
    if w.verb.async.ref.source.InBody? && body.None? { return false; }
    var handle := Handles.ExtractOperationHandle(floatText, body, w.call.headers, w.verb.async.ref);
    if handle.None? { return false; }
    var verdict := Polling.PollUntilTerminal(w.verb.async.poll, w.polls);
    ok := verdict.Success?;
  }

  /** One attempt. Not released means the error is returned and the finalizer held. */
  method Delete(w: World, floatText: real -> string) returns (released: bool, events: seq<Event>)
    requires forall x :: floatText(x) != ""
    ensures released <==> Releases(w, floatText)
    ensures released && w.definition.Present? && w.deleteApiRef ==>
              events != [] && events[0] == DelegatedDelete && (w.usableGet ==> TornDown(events))
    ensures released && w.definition.Present? && !w.deleteApiRef ==> TornDown(events) || events == []
    ensures released ==> (events == [] <==> LeavesAlone(w))
    ensures released && w.definition.Present? && !w.deleteApiRef && events != [] ==>
              w.call.Accepted? && w.verb.Declared?
              && (w.verb.async.Async? ==>
                    OperationSucceeds(w, floatText) && events == [CallSent(true), OperationSucceeded])
    ensures w.definition.Unreadable? || (w.definition.Present? && !w.clientBuilds) ==> !released
    ensures w.definition.GenuinelyAbsent? ==> released == w.conditionSets
    ensures w.definition.Present? && w.clientBuilds && w.deleteApiRef ==>
              (released <==> w.delegate.Resolves? && (w.usableGet ==> w.probe.NotFound?))
    ensures Callable(w) && !w.transforms ==> !released && events == []
    ensures Callable(w) && w.transforms && w.call.CallFails? ==> !released && events == [CallSent(false)]
    ensures Callable(w) && w.transforms && w.call.Accepted? && w.verb.async.NoAsync? ==>
              released == w.conditionSets && events == [CallSent(true)]
  {
    events := [];
    match w.definition {
      case Unreadable => return false, [];
      case GenuinelyAbsent => return w.conditionSets, [];
      case Present =>
    }
    if !w.clientBuilds { return false, []; }

    if w.deleteApiRef {
      if w.delegate.NoSnowplow? { return false, []; }
      if w.delegate.ResolveFails? { return false, [DelegatedDelete]; }
      var stillExists, error, probed := ExternalResourceStillExists(w);
      events := [DelegatedDelete] + probed;
      return !error && !stillExists, events;
    }

    if w.verb.BuilderFails? { return false, []; }
    if w.verb.Undeclared? { return true, []; }
    var missing := PathTemplate.UnresolvedPathParams(w.verb.path, w.parameters);
    if missing != [] { return true, []; }
    if !w.transforms { return false, []; }
    if w.call.CallFails? { return false, [CallSent(false)]; }
    events := [CallSent(true)];
    if w.verb.async.Async? {
      var ok := DriveAsync(w, floatText);
      if !ok { return false, events; }
      events := events + [OperationSucceeded];
    }
    return w.conditionSets, events;
  }

  /** Retried until released: every failed attempt holds the finalizer, and the one that releases it may. */
  method DeleteUntilReleased(worlds: seq<World>, floatText: real -> string) returns (attempts: nat, released: bool)
    requires forall x :: floatText(x) != ""
    ensures attempts <= |worlds|
    ensures forall i | 0 <= i < |worlds| && i < attempts - 1 :: !Releases(worlds[i], floatText)
    ensures released <==> exists i | 0 <= i < |worlds| :: Releases(worlds[i], floatText)
    ensures released ==> attempts > 0 && Releases(worlds[attempts - 1], floatText)
  {
    attempts := 0;
    released := false;
    while attempts < |worlds|
      invariant attempts <= |worlds|
      invariant forall i | 0 <= i < attempts :: !Releases(worlds[i], floatText)
    {
      var done, _ := Delete(worlds[attempts], floatText);
      released := done;
      attempts := attempts + 1;
      if released { return; }
    }
  }
}
