/**
 * The reconcile handlers (restResources.go, async_requeue.go, observe_restaction.go) over one custom
 * resource. Every call and every write has an outcome of its own, so a run may fail or crash between any two
 * of them. Each handler is proved to follow the protocol of AsyncProtocol, event by event.
 */
module ModelB {
  import opened Options
  import opened Json
  import opened Polling
  import opened Handles
  import opened AsyncProtocol

  // ----- configuration and surroundings -----

  datatype Async =
    NoAsync | Async(requeue: bool, postGet: bool, ref: OperationRef, success: seq<string>, failure: seq<string>)

  datatype VerbDecl = Undeclared | Declared(async: Async)

  /** The part of a RestDefinition the handlers branch on; it may change between reconciles. */
  datatype Config = Config(
    observeApiRef: bool, createApiRef: bool, updateApiRef: bool,
    create: VerbDecl, update: VerbDecl, get: bool, findBy: bool)
  {
    function AsyncOf(v: Verb): Async {
      var decl := if v.CreateVerb? then create else update;
      if decl.Declared? then decl.async else NoAsync
    }
  }

  /**
   * A persisted write: it lands and the handler goes on; it is lost; or it lands but the handler stops
   * (a crash, or an error reported for a write that took effect).
   */
  datatype Write = Lands | Lost | LandsUnseen

  datatype PollReply = PollFails | Answers(status: string)

  datatype Snowplow =
    NotConfigured | ResolveFails | PredicateFails | ReportsAbsent | Composes(upToDate: bool, write: Write)

  datatype Absence = NoPredicate | EvaluationFails | Says(absent: bool)

  datatype Body = NoBody | NotAnObject | Object(normalizes: bool, populates: bool, comparison: Comparison)

  datatype Comparison = CompareFails | Equal | Differs

  datatype Reply = CallFails | NotFound | Replies(body: Body, absence: Absence)

  datatype Reread = RereadFails | RereadNotObject | RereadObject(normalizes: bool, populates: bool)

  datatype Response = Response(body: Option<JSON>, headers: Option<Headers>, isPending: bool)

  datatype Trigger = TriggerFails | Accepted(response: Response)

  /** The end of waiting for an operation: given up, terminal failure, success that was not read back, or response. */
  datatype Waited = BreaksOff | OperationFails | ResultUnread | Responds(response: Response)

  /** Everything one reconcile meets. */
  datatype World = World(
    cfg: Config,
    definition: bool,               // the definition and the client could be built
    objectUpdate: Write,            // tools.Update at the start of Observe
    snowplow: Snowplow,
    delegated: bool,                // the create or update RESTAction resolves
    poll: PollReply, reread: Reread, rereadWrite: Write, failureWrite: Write, clearWrite: Write,
    getValidates: bool, reply: Reply, statusWrite: Write, readyWrite: Write,
    resolves: bool, transforms: bool,   // resolvers and requestTransform
    trigger: Trigger, waited: Waited, recordWrite: Write,
    normalizes: bool, populates: bool, finalWrite: Write)

  datatype Observation = Failed | Observed(present: bool, upToDate: bool)

  const ABSENT := Observed(false, false)
  const SETTLED := Observed(true, true)

  /** The get request can be built and validates. */
  predicate Known(w: World) {
    w.cfg.get && w.getValidates
  }

  predicate RereadSucceeds(w: World) {
    w.reread.RereadObject? && w.reread.normalizes && w.reread.populates && w.rereadWrite.Lands?
  }

  /** The status was read again, or there was nothing to read it from. */
  predicate RereadGoesThrough(w: World) {
    !w.cfg.get || w.reread.RereadNotObject? || RereadSucceeds(w)
  }

  /** An ordinary observation reports the resource absent, so that it will be created. */
  predicate ReportsAbsence(w: World, ready: Ready) {
    if Known(w) || w.cfg.findBy
    then ready != Pending
         && (w.reply.NotFound? || (w.reply.Replies? && !w.reply.body.NoBody? && w.reply.absence == Says(true)))
    else ready != Creating && ready != Available
  }

  /** A body is there to compare, and it differs. */
  predicate ReportsDrift(w: World, ready: Ready) {
    && (Known(w) || w.cfg.findBy)
    && w.reply.Replies? && BodyDiffers(w, w.reply.body)
    && (ready == Pending || w.reply.absence == NoPredicate || w.reply.absence == Says(false))
  }

  /** A body is there to compare, it agrees, and that is persisted. */
  predicate ReportsAgreement(w: World, ready: Ready) {
    && (Known(w) || w.cfg.findBy)
    && w.reply.Replies? && w.reply.body == Object(true, true, Equal) && w.statusWrite.Lands? && w.readyWrite.Lands?
    && (ready == Pending || w.reply.absence == NoPredicate || w.reply.absence == Says(false))
  }

  predicate BodyDiffers(w: World, body: Body) {
    body.Object? && body.normalizes && body.populates && w.statusWrite.Lands? && body.comparison == Differs
  }

  /** There is no get that validates and no findby, and the resource was created before. */
  predicate Unobservable(w: World, ready: Ready) {
    !Known(w) && !w.cfg.findBy && (ready == Creating || ready == Available) && w.readyWrite.Lands?
  }

  predicate Delegated(cfg: Config, verb: Verb) {
    if verb.CreateVerb? then cfg.createApiRef else cfg.updateApiRef
  }

  /** The mutation leaves its operation to later reconciles. */
  predicate Requeued(cfg: Config, verb: Verb) {
    !Delegated(cfg, verb) && cfg.AsyncOf(verb).Async? && cfg.AsyncOf(verb).requeue
  }

  /** The mutation waits for its operation. */
  predicate Blocking(cfg: Config, verb: Verb) {
    !Delegated(cfg, verb) && cfg.AsyncOf(verb).Async? && !cfg.AsyncOf(verb).requeue
  }

  /** The mutating call is sent. */
  predicate Sends(w: World, verb: Verb) {
    w.definition
    && if Delegated(w.cfg, verb) then !w.snowplow.NotConfigured?
       else (if verb.CreateVerb? then w.cfg.create else w.cfg.update).Declared? && w.resolves && w.transforms
  }

  function FinalResponse(w: World, verb: Verb): Response
    requires w.trigger.Accepted? && (Blocking(w.cfg, verb) ==> w.waited.Responds?)
  {
    if Blocking(w.cfg, verb) then w.waited.response else w.trigger.response
  }

  /** The condition a mutation that concludes leaves: Pending whenever an operation goes on. */
  function Condition(w: World, verb: Verb): Ready
    requires Delegated(w.cfg, verb) || (w.trigger.Accepted? && (Blocking(w.cfg, verb) ==> w.waited.Responds?))
  {
    if Delegated(w.cfg, verb) then (if verb.CreateVerb? then Creating else Available)
    else if Requeued(w.cfg, verb) || FinalResponse(w, verb).isPending then Pending
    else Creating
  }

  /** The mutating call of a verb is sent and accepted, and what it starts is on record, waited for, or nothing. */
  predicate Answered(w: World, verb: Verb, started: Option<Op>, response: Response) {
    var decl := if verb.CreateVerb? then w.cfg.create else w.cfg.update;
    && w.definition && !Delegated(w.cfg, verb) && decl.Declared? && w.resolves && w.transforms
    && w.trigger.Accepted?
    && if decl.async.Async? && !decl.async.requeue then w.waited == Responds(response)
       else response == w.trigger.response && (decl.async.Async? ==> started.Some? && w.recordWrite.Lands?)
  }

  /** The response has no body, or one that is taken over into the status. */
  predicate Taken(w: World, response: Response) {
    response.body.Some? ==> response.body.value.Obj? && w.normalizes && w.populates
  }

  /** The mutation is sent and accepted, and the operation it waits for fails. */
  predicate AwaitsFailure(w: World, verb: Verb) {
    Sends(w, verb) && Blocking(w.cfg, verb) && w.trigger.Accepted? && w.waited.OperationFails?
  }

  /** What a mutation sees of an operation it waits for. */
  function Waiting(w: World, verb: Verb): seq<Event> {
    if !Blocking(w.cfg, verb) || w.trigger.TriggerFails? || w.waited.BreaksOff? then []
    else [Await(if w.waited.OperationFails? then FailedTerminally else Succeeded)]
  }

  /** From the n-th event on, no annotation is removed as stale. */
  predicate NothingStale(trace: seq<Event>, n: nat) {
    forall i | n <= i < |trace| :: !trace[i].ClearStale?
  }

  /** Nor is a create or update sent, or its operation waited for. */
  predicate Quiet(trace: seq<Event>, n: nat) {
    forall i | n <= i < |trace| :: !trace[i].ClearStale? && !trace[i].Fire? && !trace[i].Await?
  }

  /** No create or update is sent. */
  predicate NothingSent(trace: seq<Event>, n: nat) {
    forall i | n <= i < |trace| :: !trace[i].Fire?
  }

  /** The last operation was observed as failed, and the status still says Pending. */
  predicate Unreported(s: State) {
    s.ready == Pending && s.lastPoll == Some(FailedTerminally)
  }

  /** The definition may change between reconciles, but not in which verbs are async. */
  predicate SameDeclarations(worlds: seq<World>) {
    forall i, j, v | 0 <= i < |worlds| && 0 <= j < |worlds| ::
      worlds[i].cfg.AsyncOf(v).Async? == worlds[j].cfg.AsyncOf(v).Async?
  }

  /** No create or update waits for an operation. */
  predicate NeverBlocking(worlds: seq<World>) {
    forall i, v | 0 <= i < |worlds| :: !Blocking(worlds[i].cfg, v)
  }

  class Reconciler {
    var handle: Option<Op>
    var ready: Ready
    ghost var trace: seq<Event>
    const fold: string -> string
    const floatText: real -> string

    /** The events so far follow the protocol and lead to the persisted state. */
    ghost predicate Valid()
      reads this
    {
      && (forall x :: floatText(x) != "")
      && Run(trace).Some? && Run(trace).value.handle == handle && Run(trace).value.ready == ready
    }

    ghost function St(): State
      requires Valid()
      reads this
    {
      Run(trace).value
    }

    constructor (fold: string -> string, floatText: real -> string)
      requires forall x :: floatText(x) != ""
      ensures Valid() && trace == [] && St() == START
    {
      this.fold, this.floatText := fold, floatText;
      handle, ready, trace := None, NotSet, [];
    }

    /** The operation in flight, if any, was started by a verb this definition still declares async. */
    predicate Declares(cfg: Config)
      reads this
    {
      handle.Some? ==> cfg.AsyncOf(handle.value.verb).Async?
    }

    // ----- persisted writes and calls -----

    method UpdateStatus(w: Write, r: Ready) returns (ok: bool)
      requires Valid()
      requires r == Pending && ready != Pending ==> St().lastPoll != Some(FailedTerminally)
      modifies this
      ensures Valid() && ok == w.Lands?
      ensures trace == old(trace) + if w.Lost? then [] else [Status(r)]
      ensures St() == old(St()).(ready := if w.Lost? then old(ready) else r)
    {
      ok := w.Lands?;
      if !w.Lost? {
        RunExtends(trace, Status(r));
        ready := r;
        trace := trace + [Status(r)];
      }
    }

    method RecordHandle(w: Write, op: Op) returns (ok: bool)
      requires Valid() && St().handle == None && St().open == Some(op.verb) && St().lastPoll == None && op.id != ""
      modifies this
      ensures Valid() && ok == w.Lands?
      ensures trace == old(trace) + if w.Lost? then [] else [Record(op)]
      ensures St() == if w.Lost? then old(St()) else old(St()).(handle := Some(op), open := None)
    {
      ok := w.Lands?;
      if !w.Lost? {
        RunExtends(trace, Record(op));
        handle := Some(op);
        trace := trace + [Record(op)];
      }
    }

    /** clearAsyncOperation: nothing to do when no annotation is present. */
    method ClearHandle(w: Write, stale: bool) returns (ok: bool)
      requires Valid()
      requires handle.Some? && !stale ==> Step(St(), Clear(handle.value)).Some?
      modifies this
      ensures Valid() && (ok <==> old(handle).None? || w.Lands?)
      ensures trace == old(trace) + if old(handle).None? || w.Lost? then []
                                    else [if stale then ClearStale(old(handle).value) else Clear(old(handle).value)]
      ensures St() == if w.Lost? then old(St()) else old(St()).(handle := None)
    {
      if handle.None? { return true; }
      ok := w.Lands?;
      if !w.Lost? {
        var e := if stale then ClearStale(handle.value) else Clear(handle.value);
        RunExtends(trace, e);
        handle := None;
        trace := trace + [e];
      }
    }

    /** Notes a call in the history. */
    ghost method Log(e: Event)
      requires Valid() && (e.Fire? || e.Poll? || e.Await?) && Step(St(), e).Some?
      modifies this`trace
      ensures Valid() && trace == old(trace) + [e] && Some(St()) == Step(old(St()), e)
    {
      RunExtends(trace, e);
      CallsPersistNothing(St(), e);
      trace := trace + [e];
    }

    lemma CallsPersistNothing(s: State, e: Event)
      requires (e.Fire? || e.Poll? || e.Await?) && Step(s, e).Some?
      ensures Step(s, e).value.handle == s.handle && Step(s, e).value.ready == s.ready
    {}

    // ----- Observe -----

    /** observeViaRestAction. A recorded operation defers it, so that the operation is polled. */
    method ObserveViaRestAction(w: World) returns (obs: Observation, handled: bool)
      requires Valid()
      modifies this
      ensures Valid() && handle == old(handle) && old(trace) <= trace
      ensures Quiet(trace, |old(trace)|)
      ensures handled <==> w.cfg.observeApiRef && (w.snowplow.NotConfigured? || handle.None?)
      ensures !handled ==> trace == old(trace)
      ensures handle.Some? && handled ==> obs == Failed && trace == old(trace)
      ensures handled && handle.None? ==>
                && (obs == ABSENT <==> w.snowplow.ReportsAbsent?)
                && (obs == ABSENT ==> trace == old(trace))
                && (obs == Observed(true, false) <==>
                      w.snowplow.Composes? && !w.snowplow.upToDate && w.snowplow.write.Lands?)
                && (obs == Observed(true, false) ==> ready == Unavailable)
                && (obs == SETTLED ==> ready == Available)
    {
      if !w.cfg.observeApiRef { return Failed, false; }
      if w.snowplow.NotConfigured? { return Failed, true; }
      if handle.Some? && handle.value.id != "" { return Failed, false; }
      HandlesAreNonEmpty(trace);
      match w.snowplow {
        case ResolveFails => return Failed, true;
        case PredicateFails => return Failed, true;
        case ReportsAbsent => return ABSENT, true;
        case Composes(upToDate, write) =>
          var ok := UpdateStatus(write, if upToDate then Available else Unavailable);
          if !ok { return Failed, true; }
          return Observed(true, upToDate), true;
      }
    }

    /** reReadStatusOnAsyncSuccess: the status is written again under the condition it has. */
    method ReReadStatus(w: World) returns (ok: bool)
      requires Valid()
      modifies this
      ensures Valid() && handle == old(handle) && ready == old(ready) && St() == old(St()) && old(trace) <= trace
      ensures Quiet(trace, |old(trace)|)
      ensures ok <==> RereadGoesThrough(w)
    {
      if !w.cfg.get { return true; }
      match w.reread {
        case RereadFails => return false;
        case RereadNotObject => return true;
        case RereadObject(normalizes, populates) =>
          if !normalizes || !populates { return false; }
          ok := UpdateStatus(w.rereadWrite, ready);
      }
    }

    /** driveAsyncRequeue: one poll of the recorded operation. */
    method DriveAsyncRequeue(w: World, op: Op) returns (obs: Observation, handled: bool)
      requires Valid() && handle == Some(op)
      modifies this
      ensures Valid() && old(trace) <= trace
      ensures old(Declares(w.cfg)) ==> Declares(w.cfg)
      ensures NoLongerAsync(w, op) ==>
                trace == old(trace) + if w.clearWrite.Lost? then [] else [ClearStale(op)]
      ensures !NoLongerAsync(w, op) ==> Quiet(trace, |old(trace)|)
      ensures handle.Some? && Unreported(St()) ==>
                Unreported(old(St())) || (old(ready) == Pending && LosesFailure(w, op))
      ensures handled <==> !((NoLongerAsync(w, op) || Succeeds(w, op)) && w.clearWrite.Lands?)
      ensures handled ==> obs == if StillInFlight(w, op) then SETTLED else Failed
      ensures handle == if (NoLongerAsync(w, op) || Succeeds(w, op) || FailsVisibly(w, op)) && !w.clearWrite.Lost?
                        then None else Some(op)
      ensures ready == if Observes(w, op, FailedTerminally) && !w.failureWrite.Lost? then Unavailable else old(ready)
      ensures (Observes(w, op, Succeeded) && w.cfg.AsyncOf(op.verb).postGet && w.cfg.get && w.reread.RereadFails?) ==>
                handle == Some(op) && obs == Failed
      ensures LosesFailure(w, op) ==> St() == old(St()).(lastPoll := Some(FailedTerminally))
      ensures NoLongerAsync(w, op) && w.clearWrite.Lands? ==> St() == old(St()).(handle := None)
    {
      var async := w.cfg.AsyncOf(op.verb);
      if async.NoAsync? {
        var ok := ClearHandle(w.clearWrite, true);
        return Failed, !ok;
      }
      if w.poll.PollFails? { return Failed, true; }
      var outcome := ClassifyStatus(fold, async.success, async.failure, w.poll.status);
      Log(Poll(op, outcome));
      match outcome {
        case Succeeded =>
          if async.postGet {
            var ok := ReReadStatus(w);
            if !ok { return Failed, true; }
          }
          var ok := ClearHandle(w.clearWrite, false);
          return Failed, !ok;
        case FailedTerminally =>
          var written := UpdateStatus(w.failureWrite, Unavailable);
          if !written { return Failed, true; }
          var ok := ClearHandle(w.clearWrite, false);
          return Failed, true;
        case StillPending =>
          return SETTLED, true;
      }
    }

    /** The poll of this reconcile answers with outcome `o`. */
    predicate Observes(w: World, op: Op, o: Outcome) {
      w.cfg.AsyncOf(op.verb).Async? && w.poll.Answers?
      && ClassifyStatus(fold, w.cfg.AsyncOf(op.verb).success, w.cfg.AsyncOf(op.verb).failure, w.poll.status) == o
    }

    predicate StillInFlight(w: World, op: Op) {
      Observes(w, op, StillPending)
    }

    predicate NoLongerAsync(w: World, op: Op) {
      w.cfg.AsyncOf(op.verb).NoAsync?
    }

    /** The operation is observed to have succeeded, and its result was read if that is asked for. */
    predicate Succeeds(w: World, op: Op) {
      Observes(w, op, Succeeded) && (w.cfg.AsyncOf(op.verb).postGet ==> RereadGoesThrough(w))
    }

    /** The operation is observed to have failed, and the status says so. */
    predicate FailsVisibly(w: World, op: Op) {
      Observes(w, op, FailedTerminally) && w.failureWrite.Lands?
    }

    /** The annotation of the recorded operation is removed as stale, unpolled. */
    predicate Discards(w: World, h: Option<Op>) {
      h.Some? && ReachesPoll(w) && NoLongerAsync(w, h.value) && !w.clearWrite.Lost?
    }

    /** A reconcile removes a stale annotation first of all, or not at all. */
    predicate StalesOnly(w: World, h: Option<Op>, before: seq<Event>, after: seq<Event>) {
      if Discards(w, h)
      then |before| < |after| && after[|before|] == ClearStale(h.value) && NothingStale(after, |before| + 1)
      else NothingStale(after, |before|)
    }

    /** An unreported failure of an operation still recorded is an old one, or has just been observed. */
    predicate StaysUnreported(w: World, before: State, after: State) {
      Unreported(after) ==>
        && after.handle.Some? && after.handle == before.handle
        && (Unreported(before)
            || (before.ready == Pending && ReachesPoll(w) && LosesFailure(w, after.handle.value)))
    }

    /** The operation is observed to be over, and what follows from that is persisted. */
    predicate Finishes(w: World, op: Op) {
      (Succeeds(w, op) || FailsVisibly(w, op)) && w.clearWrite.Lands?
    }

    /** The operation is observed as failed, but the status write that says so is lost. */
    predicate LosesFailure(w: World, op: Op) {
      Observes(w, op, FailedTerminally) && w.failureWrite.Lost?
    }

    /** The verb no longer declares async, and a get finds nothing. */
    predicate DropsHandle(w: World, op: Op) {
      NoLongerAsync(w, op) && w.clearWrite.Lands? && Known(w) && w.reply.NotFound?
    }

    /** The get or findby observation, from the existence check to the drift comparison. */
    method ObserveExternal(w: World) returns (obs: Observation)
      requires Valid()
      modifies this
      ensures Valid() && handle == old(handle) && old(trace) <= trace
      ensures Quiet(trace, |old(trace)|)
      ensures St().lastPoll == old(St()).lastPoll && (ready == Pending ==> old(ready) == Pending)
      ensures obs == ABSENT <==> ReportsAbsence(w, old(ready))
      ensures obs == ABSENT ==> trace == old(trace)
      ensures obs == Observed(true, false) <==> ReportsDrift(w, old(ready))
      ensures obs == Observed(true, false) ==> trace == old(trace) + [Status(old(ready))] && ready == old(ready)
      ensures ReportsAgreement(w, old(ready)) ==> obs == SETTLED
      ensures obs == SETTLED ==> ready == Available || (old(ready) == Pending && w.reply.NotFound? && St() == old(St()))
      ensures !Known(w) && !w.cfg.findBy && w.readyWrite.Lands? ==> obs == ABSENT || obs == SETTLED
      ensures Known(w) && w.reply.NotFound? && old(ready) == Pending ==> obs == SETTLED && St() == old(St())
    {
      if !Known(w) && !w.cfg.findBy {
        if ready != Creating && ready != Available { return ABSENT; }
        obs := MarkAvailable(w);
        return;
      }
      match w.reply {
        case CallFails => return Failed;
        case NotFound => return if ready == Pending then SETTLED else ABSENT;
        case Replies(body, absence) =>
          if !body.NoBody? && ready != Pending {
            match absence {
              case EvaluationFails => return Failed;
              case Says(absent) => if absent { return ABSENT; }
              case NoPredicate =>
            }
          }
          obs := ObserveBody(w, body);
      }
    }

    /** The observed body populates the status and is compared with the spec; without one, all is well. */
    method ObserveBody(w: World, body: Body) returns (obs: Observation)
      requires Valid()
      modifies this
      ensures Valid() && handle == old(handle) && old(trace) <= trace && obs != ABSENT
      ensures Quiet(trace, |old(trace)|)
      ensures St().lastPoll == old(St()).lastPoll && (ready == Pending ==> old(ready) == Pending)
      ensures obs == Observed(true, false) <==> BodyDiffers(w, body)
      ensures obs == Observed(true, false) ==> trace == old(trace) + [Status(old(ready))] && ready == old(ready)
      ensures body == Object(true, true, Equal) && w.statusWrite.Lands? && w.readyWrite.Lands? ==> obs == SETTLED
      ensures obs == SETTLED ==> ready == Available
    {
      match body {
        case NoBody => obs := MarkAvailable(w);
        case NotAnObject => return Failed;
        case Object(normalizes, populates, comparison) =>
          if !normalizes || !populates { return Failed; }
          var ok := UpdateStatus(w.statusWrite, ready);
          if !ok { return Failed; }
          match comparison {
            case CompareFails => return Failed;
            case Differs => return Observed(true, false);
            case Equal => obs := MarkAvailable(w);
          }
      }
    }

    method MarkAvailable(w: World) returns (obs: Observation)
      requires Valid()
      modifies this
      ensures Valid() && handle == old(handle)
      ensures St().lastPoll == old(St()).lastPoll && (ready == Pending ==> old(ready) == Pending)
      ensures trace == old(trace) + if w.readyWrite.Lost? then [] else [Status(Available)]
      ensures obs == if w.readyWrite.Lands? then SETTLED else Failed
      ensures obs == SETTLED ==> ready == Available
    {
      var ok := UpdateStatus(w.readyWrite, Available);
      return if ok then SETTLED else Failed;
    }

    /** Nothing stands between Observe and the poll of a recorded operation. */
    predicate ReachesPoll(w: World) {
      w.definition && w.objectUpdate.Lands? && !(w.cfg.observeApiRef && w.snowplow.NotConfigured?)
    }

    /** The observation is delegated, no operation being in flight. */
    predicate Composed(w: World, s: State) {
      w.definition && w.objectUpdate.Lands? && w.cfg.observeApiRef && s.handle.None?
    }

    /** Observe gets past a recorded operation, if there is one, to an observation of its own. */
    predicate GoesOn(w: World, s: State) {
      ReachesPoll(w)
      && match s.handle
         case None => !w.cfg.observeApiRef
         case Some(op) => (NoLongerAsync(w, op) || Succeeds(w, op)) && w.clearWrite.Lands?
    }

    predicate AsksCreate(w: World, s: State) {
      (Composed(w, s) && w.snowplow.ReportsAbsent?) || (GoesOn(w, s) && ReportsAbsence(w, s.ready))
    }

    predicate AsksUpdate(w: World, s: State) {
      || (Composed(w, s) && w.snowplow.Composes? && !w.snowplow.upToDate && w.snowplow.write.Lands?)
      || (GoesOn(w, s) && ReportsDrift(w, s.ready))
    }

    /** While Pending, the reconcile sends a mutation whose operation it waits for and sees fail. */
    predicate FailsInWait(w: World, s: State) {
      s.ready == Pending
      && ((AsksCreate(w, s) && AwaitsFailure(w, CreateVerb))
          || (!Composed(w, s) && AsksUpdate(w, s) && AwaitsFailure(w, UpdateVerb)))
    }

    /** The recorded operation, unless this reconcile polls it and clears it, or drops it as stale. */
    function Kept(w: World, h: Option<Op>): Option<Op> {
      if h.Some? && ReachesPoll(w) && !w.clearWrite.Lost?
         && (NoLongerAsync(w, h.value) || Succeeds(w, h.value) || FailsVisibly(w, h.value)) then None else h
    }

    method Observe(w: World) returns (obs: Observation)
      requires Valid()
      modifies this
      ensures Valid() && old(trace) <= trace
      ensures handle == Kept(w, old(handle))
      ensures old(Declares(w.cfg)) ==> Declares(w.cfg)
      ensures StalesOnly(w, old(handle), old(trace), trace)
      ensures handle.Some? ==> StaysUnreported(w, old(St()), St())
      ensures forall i | |old(trace)| <= i < |trace| :: !trace[i].Fire? && !trace[i].Await?
      ensures obs == ABSENT <==> AsksCreate(w, old(St()))
      ensures obs == Observed(true, false) <==> AsksUpdate(w, old(St()))
      ensures obs == ABSENT ==> ready == old(ready)
      ensures obs == Observed(true, false) ==> ready == if old(Composed(w, St())) then Unavailable else old(ready)
      ensures old(handle).None? && obs == ABSENT ==> trace == old(trace)
      ensures old(handle).None? && GoesOn(w, old(St())) && obs == Observed(true, false) ==>
                trace == old(trace) + [Status(old(ready))]
      ensures GoesOn(w, old(St())) && (ReportsAgreement(w, old(ready)) || Unobservable(w, old(ready))) ==>
                obs == SETTLED && ready == Available
      ensures GoesOn(w, old(St())) && Known(w) && w.reply.NotFound? && old(ready) == Pending ==>
                obs == SETTLED && (old(handle).None? ==> St() == old(St()))
      ensures obs.Observed? && obs != SETTLED ==> handle == None
      ensures old(handle).Some? && ReachesPoll(w) && StillInFlight(w, old(handle).value) ==>
                obs == SETTLED && handle == old(handle) && ready == old(ready)
      ensures old(handle).Some? && ReachesPoll(w) && Finishes(w, old(handle).value) ==> handle == None
      ensures old(handle).Some? && ReachesPoll(w) && Finishes(w, old(handle).value) ==>
                if Observes(w, old(handle).value, FailedTerminally) then obs == Failed && ready == Unavailable
                else obs == ABSENT <==> ReportsAbsence(w, old(ready))
      ensures old(handle).Some? && ReachesPoll(w) && LosesFailure(w, old(handle).value) ==>
                St() == old(St()).(lastPoll := Some(FailedTerminally))
      ensures old(handle).Some? && ReachesPoll(w) && DropsHandle(w, old(handle).value) && old(ready) == Pending ==>
                obs == SETTLED && St() == old(St()).(handle := None)
    {
      if !w.definition || !w.objectUpdate.Lands? { return Failed; }
      var handled;
      obs, handled := ObserveViaRestAction(w);
      if handled { return; }
      if handle.Some? && handle.value.id != "" {
        obs, handled := DriveAsyncRequeue(w, handle.value);
        if handled { return; }
      }
      HandlesAreNonEmpty(trace);
      obs := ObserveExternal(w);
    }

    // ----- Create and Update -----

    /** The operation a trigger response names, if a handle can be extracted from it. */
    function Named(async: Async, verb: Verb, response: Response): Option<Op>
      requires async.Async? && forall x :: floatText(x) != ""
    {
      var body := match response.body case Some(Obj(m)) => Some(Obj(m)) case _ => None;
      if async.ref.source.InBody? && body.None? then None
      else match ExtractOperationHandle(floatText, body, response.headers, async.ref)
        case Some(id) => Some(Op(id, verb))
        case None => None
    }

    /** recordAsyncOperation: extract the handle from the response and persist it. */
    method RecordAsyncOperation(w: World, async: Async, verb: Verb, response: Response) returns (ok: bool)
      requires Valid() && async.Async? && St().handle == None && St().open == Some(verb) && St().lastPoll == None
      modifies this
      ensures Valid() && ready == old(ready) && St().lastPoll == None
      ensures var op := Named(async, verb, response);
              && (ok <==> op.Some? && w.recordWrite.Lands?)
              && handle == (if w.recordWrite.Lost? then None else op)
              && trace == old(trace) + if op.None? || w.recordWrite.Lost? then [] else [Record(op.value)]
    {
      var body := match response.body case Some(Obj(m)) => Some(Obj(m)) case _ => None;
      if async.ref.source.InBody? && body.None? { return false; }
      var id := ExtractOperationHandle(floatText, body, response.headers, async.ref);
      if id.None? { return false; }
      ok := RecordHandle(w.recordWrite, Op(id.value, verb));
    }

    /** The operation a requeued mutation starts, if its trigger is accepted and names one. */
    function Started(w: World, verb: Verb): Option<Op>
      requires forall x :: floatText(x) != ""
    {
      if Requeued(w.cfg, verb) && w.trigger.Accepted?
      then Named(w.cfg.AsyncOf(verb), verb, w.trigger.response) else None
    }

    /** The operation a mutation leaves recorded. */
    function Recorded(w: World, verb: Verb): Option<Op>
      requires forall x :: floatText(x) != ""
    {
      if Sends(w, verb) && !w.recordWrite.Lost? then Started(w, verb) else None
    }

    /** Everything up to the last status write succeeds. */
    predicate Concludes(w: World, verb: Verb)
      requires forall x :: floatText(x) != ""
    {
      GoesThrough(w, verb)
      && if Delegated(w.cfg, verb) then w.delegated
         else var body := FinalResponse(w, verb).body; body.Some? ==> body.value.Obj? && w.normalizes && w.populates
    }

    /** The condition a mutation leaves persisted. */
    function ReadyAfter(w: World, verb: Verb, before: Ready): Ready
      requires forall x :: floatText(x) != ""
    {
      if Sends(w, verb) && Concludes(w, verb) && !w.finalWrite.Lost? then Condition(w, verb) else before
    }

    /**
     * A call whose answer is taken over leaves Pending exactly when the answer is pending or the verb leaves its
     * operation to later reconciles, and Creating otherwise, an update included.
     */
    lemma VerbLeaves(w: World, verb: Verb, before: Ready, response: Response)
      requires forall x :: floatText(x) != ""
      requires Answered(w, verb, Started(w, verb), response) && Taken(w, response) && !w.finalWrite.Lost?
      ensures ReadyAfter(w, verb, before)
              == if response.isPending || (w.cfg.AsyncOf(verb).Async? && w.cfg.AsyncOf(verb).requeue) then Pending
                 else Creating
    {}

    /** A RESTAction that resolves leaves Creating after a create and Available after an update. */
    lemma RestActionLeaves(w: World, verb: Verb, before: Ready)
      requires forall x :: floatText(x) != ""
      requires w.definition && !w.snowplow.NotConfigured? && w.delegated && !w.finalWrite.Lost?
      requires if verb.CreateVerb? then w.cfg.createApiRef else w.cfg.updateApiRef
      ensures ReadyAfter(w, verb, before) == if verb.CreateVerb? then Creating else Available
    {}

    /** A mutation that breaks off before its last status write leaves the condition as it was. */
    lemma NothingLeft(w: World, verb: Verb, before: Ready)
      requires forall x :: floatText(x) != ""
      requires !Delegated(w.cfg, verb) && forall response ::
                 Answered(w, verb, Started(w, verb), response) ==> !Taken(w, response) || w.finalWrite.Lost?
      ensures ReadyAfter(w, verb, before) == before
    {
      if Sends(w, verb) && Concludes(w, verb) {
        assert Answered(w, verb, Started(w, verb), FinalResponse(w, verb));
      }
    }

    /**
     * The common course of Create and Update; only the handling of an empty response body differs. The call
     * is sent first, then its operation waited for or its handle persisted, then the status.
     */
    method Mutate(w: World, verb: Verb)
      requires Valid() && handle == None
      modifies this
      ensures Valid() && Declares(w.cfg) && trace == old(trace) + Mutation(w, verb)
      ensures handle == Recorded(w, verb) && (handle.Some? ==> St().lastPoll == None)
      ensures ready == ReadyAfter(w, verb, old(ready))
      ensures forall response | Answered(w, verb, Started(w, verb), response) && Taken(w, response) ::
                !w.finalWrite.Lost? ==>
                  ready == if response.isPending || (w.cfg.AsyncOf(verb).Async? && w.cfg.AsyncOf(verb).requeue)
                           then Pending else Creating
    {
      ghost var before := ready;
      if !Sends(w, verb) {
        assert trace + [] == trace;
      } else if Delegated(w.cfg, verb) {
        MutateViaRestAction(w, verb);
      } else {
        MutateViaVerb(w, verb);
      }
      forall response | Answered(w, verb, Started(w, verb), response) && Taken(w, response) && !w.finalWrite.Lost?
        ensures ready == if response.isPending || (w.cfg.AsyncOf(verb).Async? && w.cfg.AsyncOf(verb).requeue)
                         then Pending else Creating
      {
        VerbLeaves(w, verb, before, response);
      }
    }

    method MutateViaVerb(w: World, verb: Verb)
      requires Valid() && handle == None && Sends(w, verb) && !Delegated(w.cfg, verb)
      modifies this
      ensures Valid() && Declares(w.cfg) && trace == old(trace) + Mutation(w, verb)
      ensures handle == Recorded(w, verb) && (handle.Some? ==> St().lastPoll == None)
      ensures ready == ReadyAfter(w, verb, old(ready))
    {
      Log(Fire(verb, Requeued(w.cfg, verb)));
      MutationParts(w, verb, trace[..|trace| - 1]);
      if w.trigger.TriggerFails? { return; }
      var ok, response := FollowUp(w, verb);
      if ok { Conclude(w, verb, response); }
    }

    /** The whole of a mutation's events, after a history `h`, from its parts. */
    lemma MutationParts(w: World, verb: Verb, h: seq<Event>)
      requires forall x :: floatText(x) != ""
      requires Sends(w, verb)
      ensures var fire, all := [Fire(verb, Requeued(w.cfg, verb))], h + Mutation(w, verb);
              && (Delegated(w.cfg, verb) ==> all == h + fire + Ending(w, verb))
              && (!Delegated(w.cfg, verb) && w.trigger.TriggerFails? ==> all == h + fire)
              && all == h + fire + Waiting(w, verb) + Recording(w, verb) + Ending(w, verb)
              && (!GoesThrough(w, verb) ==> all == h + fire + Waiting(w, verb) + Recording(w, verb))
    {}

    /** The operation, if there is one, is recorded, or waited for and read. */
    predicate GoesThrough(w: World, verb: Verb)
      requires forall x :: floatText(x) != ""
    {
      || Delegated(w.cfg, verb)
      || (w.trigger.Accepted?
          && (Requeued(w.cfg, verb) ==> Started(w, verb).Some? && w.recordWrite.Lands?)
          && (Blocking(w.cfg, verb) ==> w.waited.Responds?))
    }

    /** The response populates the status, which is then persisted. */
    method Conclude(w: World, verb: Verb, response: Response)
      requires Valid() && Sends(w, verb) && !Delegated(w.cfg, verb)
      requires GoesThrough(w, verb) && response == FinalResponse(w, verb)
      requires St().lastPoll != Some(FailedTerminally)
      modifies this
      ensures Valid() && handle == old(handle) && St().lastPoll == old(St()).lastPoll
      ensures trace == old(trace) + Ending(w, verb)
      ensures ready == ReadyAfter(w, verb, old(ready))
    {
      if response.body.Some? && (!response.body.value.Obj? || !w.normalizes || !w.populates) { return; }
      var pending := response.isPending || Requeued(w.cfg, verb);
      var _ := UpdateStatus(w.finalWrite, if pending then Pending else Creating);
    }

    /** What a mutation adds to the history. */
    function Mutation(w: World, verb: Verb): seq<Event>
      requires forall x :: floatText(x) != ""
    {
      if !Sends(w, verb) then []
      else [Fire(verb, Requeued(w.cfg, verb))] + Waiting(w, verb) + Recording(w, verb) + Ending(w, verb)
    }

    /** A failure waited for comes right after the call, and ends the mutation. */
    lemma MutationAwaits(w: World, verb: Verb)
      requires forall x :: floatText(x) != ""
      ensures AwaitsFailure(w, verb) ==> Mutation(w, verb) == [Fire(verb, false), Await(FailedTerminally)]
      ensures !AwaitsFailure(w, verb) ==> Await(FailedTerminally) !in Mutation(w, verb)
      ensures NothingStale(Mutation(w, verb), 0)
    {}

    /** The handle a mutation persists, if any. */
    function Recording(w: World, verb: Verb): seq<Event>
      requires forall x :: floatText(x) != ""
    {
      if Started(w, verb).None? || w.recordWrite.Lost? then [] else [Record(Started(w, verb).value)]
    }

    /** The status it persists at the end, if it gets there. */
    function Ending(w: World, verb: Verb): seq<Event>
      requires forall x :: floatText(x) != ""
    {
      if !Concludes(w, verb) || w.finalWrite.Lost? then [] else [Status(Condition(w, verb))]
    }

    method MutateViaRestAction(w: World, verb: Verb)
      requires Valid() && handle == None && Delegated(w.cfg, verb) && Sends(w, verb)
      modifies this
      ensures Valid() && handle == None && trace == old(trace) + Mutation(w, verb)
      ensures ready == ReadyAfter(w, verb, old(ready))
    {
      MutationParts(w, verb, trace);
      Log(Fire(verb, false));
      ghost var fired := trace;
      if !w.delegated {
        assert Ending(w, verb) == [] && fired + [] == fired;
        return;
      }
      var _ := UpdateStatus(w.finalWrite, if verb.CreateVerb? then Creating else Available);
      assert trace == fired + Ending(w, verb);
    }

    /** An accepted trigger: its operation is recorded, waited for, or there is none. */
    method FollowUp(w: World, verb: Verb) returns (ok: bool, response: Response)
      requires Valid() && handle == None && !Delegated(w.cfg, verb) && w.trigger.Accepted? && St().lastPoll == None
      requires St().open == if Requeued(w.cfg, verb) then Some(verb) else None
      modifies this
      ensures Valid() && ready == old(ready)
      ensures trace == old(trace) + Waiting(w, verb) + Recording(w, verb)
      ensures handle == (if w.recordWrite.Lost? then None else Started(w, verb))
      ensures handle.Some? ==> St().lastPoll == None
      ensures ok <==> GoesThrough(w, verb)
      ensures ok ==> response == FinalResponse(w, verb) && St().lastPoll != Some(FailedTerminally)
    {
      response := w.trigger.response;
      var async := w.cfg.AsyncOf(verb);
      assert trace + [] == trace;
      if Requeued(w.cfg, verb) {
        ok := RecordAsyncOperation(w, async, verb, response);
      } else if async.Async? {
        ok, response := WaitFor(w, verb);
      } else {
        ok := true;
      }
    }

    /** driveAsync, seen from the outside: the call blocks until it knows, or gives up. */
    method WaitFor(w: World, verb: Verb) returns (ok: bool, response: Response)
      requires Valid() && handle == None && Blocking(w.cfg, verb) && w.trigger.Accepted?
      requires St().lastPoll == None && St().open == None
      modifies this
      ensures Valid() && handle == None && ready == old(ready)
      ensures trace == old(trace) + Waiting(w, verb)
      ensures ok <==> w.waited.Responds?
      ensures ok ==> response == w.waited.response && St().lastPoll == Some(Succeeded)
    {
      response := w.trigger.response;
      match w.waited {
        case BreaksOff => return false, response;
        case OperationFails =>
          Log(Await(FailedTerminally));
          return false, response;
        case ResultUnread =>
          Log(Await(Succeeded));
          return false, response;
        case Responds(final) =>
          Log(Await(Succeeded));
          return true, final;
      }
    }

    /** The operation a reconcile leaves recorded. */
    function HandleAfter(w: World, s: State): Option<Op>
      requires forall x :: floatText(x) != ""
    {
      if AsksCreate(w, s) then Recorded(w, CreateVerb)
      else if AsksUpdate(w, s) then Recorded(w, UpdateVerb)
      else Kept(w, s.handle)
    }

    /** The dispatcher: observe, then create or update only when Observe said so without error. */
    method Reconcile(w: World) returns (obs: Observation)
      requires Valid()
      modifies this
      ensures Valid() && old(trace) <= trace
      ensures old(Declares(w.cfg)) ==> Declares(w.cfg)
      ensures StalesOnly(w, old(handle), old(trace), trace)
      ensures VainOnly(w, old(St()), |old(trace)|, trace)
      ensures handle.Some? ==> StaysUnreported(w, old(St()), St())
      ensures handle == HandleAfter(w, old(St()))
      ensures obs == ABSENT <==> AsksCreate(w, old(St()))
      ensures obs == Observed(true, false) <==> AsksUpdate(w, old(St()))
      ensures old(handle).None? && obs == ABSENT ==>
                trace == old(trace) + Mutation(w, CreateVerb) && ready == ReadyAfter(w, CreateVerb, old(ready))
      ensures old(handle).None? && GoesOn(w, old(St())) && obs == Observed(true, false) ==>
                trace == old(trace) + [Status(old(ready))] + Mutation(w, UpdateVerb)
                && ready == ReadyAfter(w, UpdateVerb, old(ready))
      ensures obs == SETTLED || obs == Failed ==> NothingSent(trace, |old(trace)|)
      ensures old(handle).Some? && ReachesPoll(w) && StillInFlight(w, old(handle).value) ==>
                obs == SETTLED && ready == old(ready)
      ensures GoesOn(w, old(St())) && (ReportsAgreement(w, old(ready)) || Unobservable(w, old(ready))) ==>
                obs == SETTLED && ready == Available && handle == None
      ensures FailsInWait(w, old(St())) ==> Hidden(St())
      ensures GoesOn(w, old(St())) && Known(w) && w.reply.NotFound? && old(ready) == Pending ==>
                obs == SETTLED && (old(handle).None? ==> St() == old(St()))
    {
      obs := Observe(w);
      if obs == ABSENT {
        Dispatch(w, CreateVerb);
      } else if obs == Observed(true, false) {
        Dispatch(w, UpdateVerb);
      }
    }

    /** The mutation asked for. */
    method Dispatch(w: World, verb: Verb)
      requires Valid() && handle == None
      modifies this
      ensures Valid() && Declares(w.cfg) && trace == old(trace) + Mutation(w, verb)
      ensures handle == Recorded(w, verb) && (handle.Some? ==> St().lastPoll == None)
      ensures ready == ReadyAfter(w, verb, old(ready))
      ensures NothingStale(trace, |old(trace)|)
      ensures VainAfter(AwaitsFailure(w, verb) && old(ready) == Pending, |old(trace)|, trace)
      ensures AwaitsFailure(w, verb) && old(ready) == Pending ==> Hidden(St())
    {
      ghost var before := trace;
      Mutate(w, verb);
      MutationAwaits(w, verb);
      if AwaitsFailure(w, verb) { FailedWait(before, verb); }
    }

    /** The run up to a failure that was waited for. */
    lemma FailedWait(before: seq<Event>, verb: Verb)
      requires Run(before).Some? && Run(before + [Fire(verb, false), Await(FailedTerminally)]).Some?
      ensures var after := before + [Fire(verb, false), Await(FailedTerminally)];
              && Run(after[..|before| + 1]) == Some(Run(before).value.(open := None, lastPoll := None))
              && Run(after) == Some(Run(before).value.(open := None, lastPoll := Some(FailedTerminally)))
              && Run(before).value.handle == None
    {
      var after := before + [Fire(verb, false), Await(FailedTerminally)];
      assert after[..|before| + 1] == before + [Fire(verb, false)];
      assert after == before + [Fire(verb, false)] + [Await(FailedTerminally)];
      RunExtends(before, Fire(verb, false));
      RunExtends(before + [Fire(verb, false)], Await(FailedTerminally));
    }

    /** A reconcile waits in vain, while Pending, at its last event or not at all. */
    ghost predicate VainOnly(w: World, s: State, n: nat, after: seq<Event>) {
      VainAfter(FailsInWait(w, s), n, after)
    }

    ghost predicate VainAfter(vain: bool, n: nat, after: seq<Event>) {
      if vain then n < |after| && forall i | n <= i < |after| :: WaitsInVain(after, i) <==> i == |after| - 1
      else forall i | n <= i < |after| :: !WaitsInVain(after, i)
    }

    // ----- whole runs -----

    /** The states between the reconciles of a run, and how long its history is at each. */
    ghost predicate Boundaries(worlds: seq<World>, starts: seq<State>, marks: seq<nat>)
      reads this
    {
      BoundariesOf(worlds, |worlds|, starts, marks, trace)
    }

    ghost predicate BoundariesOf(worlds: seq<World>, n: nat, starts: seq<State>, marks: seq<nat>, es: seq<Event>)
      requires n <= |worlds|
    {
      && |starts| == |marks| == n + 1
      && StatesAt(worlds, n, starts, marks, es) && StalesAt(worlds, n, starts, marks, es)
      && VainsAt(worlds, n, starts, marks, es)
    }

    ghost predicate StatesAt(worlds: seq<World>, n: nat, starts: seq<State>, marks: seq<nat>, es: seq<Event>)
      requires n <= |worlds| && |starts| == |marks| == n + 1
    {
      && starts[0] == START && marks[0] == 0 && marks[n] == |es|
      && (forall k | 0 <= k <= n :: marks[k] <= |es| && Run(es[..marks[k]]) == Some(starts[k]))
      && (forall k | 0 <= k < n && starts[k + 1].handle.Some? :: StaysUnreported(worlds[k], starts[k], starts[k + 1]))
    }

    /** Stale annotations are dropped by the reconciles that discard them, and by no other. */
    ghost predicate StalesAt(worlds: seq<World>, n: nat, starts: seq<State>, marks: seq<nat>, es: seq<Event>)
      requires n <= |worlds| && |starts| == |marks| == n + 1
    {
      && (forall k | 0 <= k < n && Discards(worlds[k], starts[k].handle) ::
            marks[k] < |es| && es[marks[k]] == ClearStale(starts[k].handle.value))
      && (forall i | 0 <= i < |es| && es[i].ClearStale? :: StaleAt(worlds, n, starts, marks, i))
    }

    /** Operations are waited for in vain, while Pending, by the reconciles that see them fail, and by no other. */
    ghost predicate VainsAt(worlds: seq<World>, n: nat, starts: seq<State>, marks: seq<nat>, es: seq<Event>)
      requires n <= |worlds| && |starts| == |marks| == n + 1
    {
      && (forall k | 0 <= k < n && FailsInWait(worlds[k], starts[k]) ::
            0 < marks[k + 1] <= |es| && WaitsInVain(es, marks[k + 1] - 1))
      && (forall i | 0 <= i < |es| && WaitsInVain(es, i) :: VainAt(worlds, n, starts))
    }

    /** Some reconcile waits in vain while Pending. */
    ghost predicate VainAt(worlds: seq<World>, n: nat, starts: seq<State>)
      requires n <= |worlds| && n < |starts|
    {
      exists k | 0 <= k < n :: FailsInWait(worlds[k], starts[k])
    }

    /** The i-th event opens a reconcile that drops a stale annotation. */
    ghost predicate StaleAt(worlds: seq<World>, n: nat, starts: seq<State>, marks: seq<nat>, i: nat)
      requires n <= |worlds| && n < |starts| == |marks|
    {
      exists k | 0 <= k < n :: i == marks[k] && Discards(worlds[k], starts[k].handle)
    }

    /** Any number of reconciles from the start, each in surroundings of its own. */
    method Reconciles(worlds: seq<World>) returns (ghost starts: seq<State>, ghost marks: seq<nat>)
      requires Valid() && trace == []
      modifies this
      ensures Valid() && Boundaries(worlds, starts, marks)
      ensures SameDeclarations(worlds) ==> forall k | 0 <= k < |worlds| :: !Discards(worlds[k], starts[k].handle)
    {
      starts, marks := [St()], [0];
      for i := 0 to |worlds|
        invariant Valid() && BoundariesOf(worlds, i, starts, marks, trace) && starts[i] == St()
        invariant SameDeclarations(worlds) ==>
                    && (forall j | 0 <= j < |worlds| :: Declares(worlds[j].cfg))
                    && (forall k | 0 <= k < i :: !Discards(worlds[k], starts[k].handle))
      {
        ghost var before := trace;
        var _ := Reconcile(worlds[i]);
        OneMoreState(worlds, i, starts, marks, before);
        OneMoreStale(worlds, i, starts, marks, before);
        OneMoreVain(worlds, i, starts, marks, before);
        starts, marks := starts + [St()], marks + [|trace|];
      }
    }

    /** Between two reconciles: a failure is observed, and lost, in one, and the stale annotation goes in the other. */
    predicate HidesBetween(worlds: seq<World>, starts: seq<State>, j: nat, i: nat)
      requires |starts| == |worlds| + 1
    {
      && j < i < |worlds| && starts[j].handle.Some? && starts[j].ready == Pending
      && ReachesPoll(worlds[j]) && LosesFailure(worlds[j], starts[j].handle.value)
      && (forall k | j < k <= i :: Unreported(starts[k]) && starts[k].handle == starts[j].handle)
      && Discards(worlds[i], starts[i].handle)
    }

    /**
     * Safety over every run from the start: no trigger while an operation is in flight, every trigger accounted
     * for, and a Pending condition hides a failure exactly when some reconcile loses the failure's status and
     * a later one, nothing having been polled or written in between, drops the annotation as stale, or some
     * reconcile, while Pending, waits for an operation that fails. Neither happens while the definition keeps
     * its async declarations and no verb waits.
     */
    method EveryRunIsSafe(worlds: seq<World>) returns (ghost starts: seq<State>, ghost marks: seq<nat>)
      requires Valid() && trace == []
      modifies this
      ensures Valid() && Boundaries(worlds, starts, marks)
      ensures forall i, j | 0 <= i < j < |trace| && trace[i].Record? && trace[j].Fire? ::
                exists k | i < k < j :: Clears(trace[k], trace[i].op)
      ensures Triggers(trace) == Records(trace) + Superseded(trace) + (if Dangling(trace) then 1 else 0)
      ensures (exists n | 0 <= n <= |trace| :: Run(trace[..n]).Some? && Hidden(Run(trace[..n]).value))
              <==> (exists j: nat, i: nat :: HidesBetween(worlds, starts, j, i)) || VainAt(worlds, |worlds|, starts)
      ensures SameDeclarations(worlds) ==> forall j: nat, i: nat :: !HidesBetween(worlds, starts, j, i)
      ensures NeverBlocking(worlds) ==> !VainAt(worlds, |worlds|, starts)
    {
      starts, marks := Reconciles(worlds);
      forall i, j | 0 <= i < j < |trace| && trace[i].Record? && trace[j].Fire?
        ensures exists k | i < k < j :: Clears(trace[k], trace[i].op)
      {
        NoTriggerInFlight(trace, i, j);
      }
      TriggersAccountedFor(trace);
      FailureHiddenByReconciles(worlds, starts, marks);
    }

    lemma FailureHiddenByReconciles(worlds: seq<World>, starts: seq<State>, marks: seq<nat>)
      requires Valid() && Boundaries(worlds, starts, marks)
      ensures (exists n | 0 <= n <= |trace| :: Run(trace[..n]).Some? && Hidden(Run(trace[..n]).value))
              <==> (exists j: nat, i: nat :: HidesBetween(worlds, starts, j, i)) || VainAt(worlds, |worlds|, starts)
    {
      WhenFailureIsHidden(trace);
      HiddenBetweenReconciles(worlds, starts, marks);
    }

    lemma OneMoreState(worlds: seq<World>, i: nat, starts: seq<State>, marks: seq<nat>, before: seq<Event>)
      requires Valid() && i < |worlds| && before <= trace && |starts| == |marks| == i + 1
      requires StatesAt(worlds, i, starts, marks, before)
      requires St().handle.Some? ==> StaysUnreported(worlds[i], starts[i], St())
      ensures StatesAt(worlds, i + 1, starts + [St()], marks + [|trace|], trace)
    {
      var ss, ms := starts + [St()], marks + [|trace|];
      forall k | 0 <= k <= i + 1 ensures ms[k] <= |trace| && Run(trace[..ms[k]]) == Some(ss[k]) {
        if k <= i {
          assert trace[..ms[k]] == before[..ms[k]];
        } else {
          assert trace[..|trace|] == trace;
        }
      }
      forall k | 0 <= k < i + 1 && ss[k + 1].handle.Some? ensures StaysUnreported(worlds[k], ss[k], ss[k + 1]) {}
    }

    lemma OneMoreStale(worlds: seq<World>, i: nat, starts: seq<State>, marks: seq<nat>, before: seq<Event>)
      requires Valid() && i < |worlds| && before <= trace && |starts| == |marks| == i + 1 && marks[i] == |before|
      requires StalesAt(worlds, i, starts, marks, before)
      requires StalesOnly(worlds[i], starts[i].handle, before, trace)
      ensures StalesAt(worlds, i + 1, starts + [St()], marks + [|trace|], trace)
    {
      var ss, ms := starts + [St()], marks + [|trace|];
      forall k | 0 <= k < i + 1 && Discards(worlds[k], ss[k].handle)
        ensures ms[k] < |trace| && trace[ms[k]] == ClearStale(ss[k].handle.value)
      {
        if k < i { assert trace[marks[k]] == before[marks[k]]; }
      }
      forall n | 0 <= n < |trace| && trace[n].ClearStale? ensures StaleAt(worlds, i + 1, ss, ms, n) {
        if n < |before| {
          assert before[n] == trace[n] && StaleAt(worlds, i, starts, marks, n);
          var k :| 0 <= k < i && n == marks[k] && Discards(worlds[k], starts[k].handle);
          assert n == ms[k] && Discards(worlds[k], ss[k].handle);
        } else {
          assert n == ms[i] && Discards(worlds[i], ss[i].handle);
        }
      }
    }

    lemma OneMoreVain(worlds: seq<World>, i: nat, starts: seq<State>, marks: seq<nat>, before: seq<Event>)
      requires Valid() && i < |worlds| && before <= trace && |starts| == |marks| == i + 1 && marks[i] == |before|
      requires VainsAt(worlds, i, starts, marks, before)
      requires VainOnly(worlds[i], starts[i], |before|, trace)
      ensures VainsAt(worlds, i + 1, starts + [St()], marks + [|trace|], trace)
    {
      var ss, ms := starts + [St()], marks + [|trace|];
      forall n | 0 <= n < |before| ensures WaitsInVain(trace, n) == WaitsInVain(before, n) {
        assert trace[..n] == before[..n];
      }
      forall k | 0 <= k < i + 1 && FailsInWait(worlds[k], ss[k])
        ensures 0 < ms[k + 1] <= |trace| && WaitsInVain(trace, ms[k + 1] - 1)
      {
        if k < i {
          assert ss[k] == starts[k] && ms[k + 1] == marks[k + 1];
          assert WaitsInVain(before, marks[k + 1] - 1);
        }
      }
      forall n | 0 <= n < |trace| && WaitsInVain(trace, n) ensures VainAt(worlds, i + 1, ss) {
        if n < |before| {
          assert VainAt(worlds, i, starts);
          var k :| 0 <= k < i && FailsInWait(worlds[k], starts[k]);
          assert ss[k] == starts[k];
        } else {
          assert ss[i] == starts[i];
        }
      }
    }

    /** A failure unreported between reconciles was lost by an earlier one. */
    lemma {:induction false} WhereLost(worlds: seq<World>, starts: seq<State>, i: nat) returns (j: nat)
      requires |starts| == |worlds| + 1 && i < |starts| && starts[0] == START
      requires forall k | 0 <= k < |worlds| && starts[k + 1].handle.Some? ::
                 StaysUnreported(worlds[k], starts[k], starts[k + 1])
      requires Unreported(starts[i]) && starts[i].handle.Some?
      ensures j < i && starts[j].handle == starts[i].handle && starts[j].ready == Pending
      ensures ReachesPoll(worlds[j]) && LosesFailure(worlds[j], starts[i].handle.value)
      ensures forall k | j < k <= i :: Unreported(starts[k]) && starts[k].handle == starts[i].handle
    {
      j := i - 1;
      if !(starts[j].ready == Pending && ReachesPoll(worlds[j]) && LosesFailure(worlds[j], starts[i].handle.value)) {
        j := WhereLost(worlds, starts, i - 1);
      }
    }

    lemma HiddenBetweenReconciles(worlds: seq<World>, starts: seq<State>, marks: seq<nat>)
      requires Valid() && Boundaries(worlds, starts, marks)
      ensures (exists i | 0 <= i < |trace| :: DropsFailure(trace, i))
              <==> exists j: nat, i: nat :: HidesBetween(worlds, starts, j, i)
      ensures (exists i | 0 <= i < |trace| :: WaitsInVain(trace, i)) <==> VainAt(worlds, |worlds|, starts)
    {
      if n :| 0 <= n < |trace| && DropsFailure(trace, n) {
        assert StaleAt(worlds, |worlds|, starts, marks, n);
        var i :| 0 <= i < |worlds| && n == marks[i] && Discards(worlds[i], starts[i].handle);
        assert Run(trace[..n]) == Some(starts[i]);
        var j := WhereLost(worlds, starts, i);
        assert HidesBetween(worlds, starts, j, i);
      }
      if j: nat, i: nat :| HidesBetween(worlds, starts, j, i) {
        assert DropsFailure(trace, marks[i]);
      }
      if VainAt(worlds, |worlds|, starts) {
        var k :| 0 <= k < |worlds| && FailsInWait(worlds[k], starts[k]);
        assert WaitsInVain(trace, marks[k + 1] - 1);
      }
    }

    /** An operation that is over after n more polls is cleared by the (n+1)-th Observe. */
    method DriveToCompletion(op: Op, worlds: seq<World>) returns (obs: Observation)
      requires Valid() && handle == Some(op) && worlds != []
      requires forall w | w in worlds :: ReachesPoll(w)
      requires forall i | 0 <= i < |worlds| - 1 :: StillInFlight(worlds[i], op)
      requires Finishes(worlds[|worlds| - 1], op)
      modifies this
      ensures Valid() && handle == None
      ensures Observes(worlds[|worlds| - 1], op, FailedTerminally) ==> obs == Failed && ready == Unavailable
      ensures Observes(worlds[|worlds| - 1], op, Succeeded) ==>
                (obs == ABSENT <==> ReportsAbsence(worlds[|worlds| - 1], old(ready)))
      ensures Observes(worlds[|worlds| - 1], op, Succeeded) && old(ready) == Pending ==>
                (obs == ABSENT <==> !Known(worlds[|worlds| - 1]) && !worlds[|worlds| - 1].cfg.findBy)
    {
      var n := |worlds| - 1;
      for i := 0 to n
        invariant Valid() && handle == Some(op) && ready == old(ready)
      {
        obs := Observe(worlds[i]);
      }
      obs := Observe(worlds[n]);
    }

    /**
     * One way to hide a failure: it is observed while its status write is lost, and before the next
     * poll the verb stops declaring async. The missing resource is then reported as settled.
     */
    method StaleAnnotationHidesFailure(op: Op, failing: World, edited: World) returns (obs: Observation)
      requires Valid() && handle == Some(op) && ready == Pending
      requires ReachesPoll(failing) && LosesFailure(failing, op)
      requires ReachesPoll(edited) && DropsHandle(edited, op)
      modifies this
      ensures Valid() && obs == SETTLED && Hidden(St())
    {
      obs := Observe(failing);
      obs := Observe(edited);
    }
  }

  lemma {:induction false} HandlesAreNonEmpty(trace: seq<Event>)
    requires Run(trace).Some?
    ensures Run(trace).value.handle.Some? ==> Run(trace).value.handle.value.id != ""
    decreases |trace|
  {
    if trace != [] { HandlesAreNonEmpty(trace[..|trace| - 1]); }
  }
}
