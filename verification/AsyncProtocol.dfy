/**
 * The requeue-based ("Model B") protocol seen from outside: which persisted writes and which calls may
 * follow one another, whatever crashes or failed writes come in between.
 */
module AsyncProtocol {
  import opened Options
  import opened Polling

  /** The Ready condition persisted on the custom resource. */
  datatype Ready = NotSet | Creating | Available | Unavailable | Pending

  datatype Verb = CreateVerb | UpdateVerb

  /** A recorded operation: its handle and the verb that started it. */
  datatype Op = Op(id: string, verb: Verb)

  datatype Event =
    | Fire(verb: Verb, modelB: bool)      // a mutating call is sent
    | Record(op: Op)                      // the handle annotations are persisted
    | Poll(op: Op, outcome: Outcome)      // a poll of the operation is answered
    | Await(outcome: Outcome)             // an operation the call waits for is seen to end
    | Status(ready: Ready)                // the status is persisted with this condition
    | Clear(op: Op)                       // the annotations of a finished operation are removed
    | ClearStale(op: Op)                  // the annotations of a verb that is no longer async are removed

  /**
   * `handle` and `ready` are what is persisted. `open` is a Model B trigger whose handle is not recorded
   * yet; `lastPoll` is the last status observed of the last operation.
   */
  datatype State = State(handle: Option<Op>, ready: Ready, open: Option<Verb>, lastPoll: Option<Outcome>)

  const START := State(None, NotSet, None, None)

  function Step(s: State, e: Event): Option<State> {
    match e
    case Fire(v, modelB) =>
      if s.handle == None then Some(s.(open := if modelB then Some(v) else None, lastPoll := None)) else None
    case Record(op) =>
      if s.handle == None && s.open == Some(op.verb) && op.id != "" && s.lastPoll == None
      then Some(s.(handle := Some(op), open := None)) else None
    case Poll(op, o) =>
      if s.handle == Some(op) then Some(s.(lastPoll := Some(o))) else None
    case Await(o) =>
      if s.handle == None && s.open == None && s.lastPoll == None && o != StillPending
      then Some(s.(lastPoll := Some(o))) else None
    case Status(r) =>
      if r == Pending && s.ready != Pending && s.lastPoll == Some(FailedTerminally) then None
      else Some(s.(ready := r))
    case Clear(op) =>
      if s.handle == Some(op)
         && (s.lastPoll == Some(Succeeded) || (s.lastPoll == Some(FailedTerminally) && s.ready == Unavailable))
      then Some(s.(handle := None)) else None
    case ClearStale(op) =>
      if s.handle == Some(op) then Some(s.(handle := None)) else None
  }

  /** Where a trace leads, or None when some event in it was not allowed. */
  function Run(trace: seq<Event>): Option<State> {
    if trace == [] then Some(START)
    else match Run(trace[..|trace| - 1])
      case Some(s) => Step(s, trace[|trace| - 1])
      case None => None
  }

  lemma RunExtends(trace: seq<Event>, e: Event)
    ensures Run(trace + [e]) == match Run(trace) case Some(s) => Step(s, e) case None => None
  {
    assert (trace + [e])[..|trace|] == trace;
  }

  lemma {:induction false} PrefixRuns(trace: seq<Event>, n: nat)
    requires Run(trace).Some? && n <= |trace|
    ensures Run(trace[..n]).Some?
    decreases |trace| - n
  {
    if n == |trace| {
      assert trace[..n] == trace;
    } else {
      PrefixRuns(trace, n + 1);
      assert trace[..n + 1][..n] == trace[..n];
    }
  }

  /** The step a trace takes at position i. */
  lemma StepAt(trace: seq<Event>, i: nat)
    requires Run(trace).Some? && i < |trace|
    ensures Run(trace[..i]).Some? && Run(trace[..i + 1]).Some?
    ensures Step(Run(trace[..i]).value, trace[i]) == Run(trace[..i + 1])
  {
    PrefixRuns(trace, i);
    PrefixRuns(trace, i + 1);
    assert trace[..i + 1][..i] == trace[..i];
  }

  // ----- no trigger while an operation is in flight -----

  predicate Clears(e: Event, op: Op) {
    e == Clear(op) || e == ClearStale(op)
  }

  lemma {:induction false} HandleHeld(trace: seq<Event>, i: nat, j: nat, op: Op)
    requires Run(trace).Some? && i < j <= |trace| && trace[i] == Record(op)
    requires forall k | i < k < j :: !Clears(trace[k], op)
    ensures Run(trace[..j]).Some? && Run(trace[..j]).value.handle == Some(op)
    decreases j
  {
    StepAt(trace, j - 1);
    if j > i + 1 { HandleHeld(trace, i, j - 1, op); }
  }

  /** No create or update is sent from the moment a handle is recorded until that handle is cleared. */
  lemma NoTriggerInFlight(trace: seq<Event>, i: nat, j: nat)
    requires Run(trace).Some? && i < j < |trace| && trace[i].Record? && trace[j].Fire?
    ensures exists k | i < k < j :: Clears(trace[k], trace[i].op)
  {
    StepAt(trace, j);
    if forall k | i < k < j :: !Clears(trace[k], trace[i].op) {
      HandleHeld(trace, i, j, trace[i].op);
    }
  }

  // ----- every trigger is accounted for -----

  function Triggers(trace: seq<Event>): nat {
    if trace == [] then 0
    else Triggers(trace[..|trace| - 1]) + (if trace[|trace| - 1].Fire? && trace[|trace| - 1].modelB then 1 else 0)
  }

  function Records(trace: seq<Event>): nat {
    if trace == [] then 0 else Records(trace[..|trace| - 1]) + (if trace[|trace| - 1].Record? then 1 else 0)
  }

  /** The last event among triggers and records is a Model B trigger. */
  predicate Dangling(trace: seq<Event>) {
    trace != [] &&
    var e := trace[|trace| - 1];
    if e.Fire? then e.modelB else !e.Record? && Dangling(trace[..|trace| - 1])
  }

  /** Model B triggers followed by another mutating call before any handle was recorded. */
  function Superseded(trace: seq<Event>): nat {
    if trace == [] then 0
    else
      var front := trace[..|trace| - 1];
      Superseded(front) + (if trace[|trace| - 1].Fire? && Dangling(front) then 1 else 0)
  }

  /** Triggers sent = handles recorded + triggers whose handle was never persisted. */
  lemma {:induction false} TriggersAccountedFor(trace: seq<Event>)
    requires Run(trace).Some?
    ensures Triggers(trace) == Records(trace) + Superseded(trace) + (if Dangling(trace) then 1 else 0)
    ensures Run(trace).value.open.Some? <==> Dangling(trace)
    decreases |trace|
  {
    if trace != [] { TriggersAccountedFor(trace[..|trace| - 1]); }
  }

  // ----- a Pending condition never hides a failure -----

  /** Pending, with nothing in flight, while the last operation was observed as terminally failed. */
  predicate Hidden(s: State) {
    s.handle == None && s.ready == Pending && s.lastPoll == Some(FailedTerminally)
  }

  /** Removing the stale annotations of a failed operation before its failure reached the status. */
  ghost predicate DropsFailure(trace: seq<Event>, i: nat)
    requires i < |trace|
  {
    && trace[i].ClearStale? && Run(trace[..i]).Some?
    && var s := Run(trace[..i]).value; s.ready == Pending && s.lastPoll == Some(FailedTerminally)
  }

  /** Seeing an operation fail that a call waits for, while the status still says Pending. */
  ghost predicate WaitsInVain(trace: seq<Event>, i: nat)
    requires i < |trace|
  {
    trace[i] == Await(FailedTerminally) && Run(trace[..i]).Some? && Run(trace[..i]).value.ready == Pending
  }

  lemma HiddenStep(s: State, e: Event)
    requires !Hidden(s) && Step(s, e).Some?
    ensures Hidden(Step(s, e).value)
            <==> s.ready == Pending && ((e.ClearStale? && s.lastPoll == Some(FailedTerminally))
                                        || e == Await(FailedTerminally))
  {}

  /**
   * A failure is hidden somewhere along a run exactly when the run drops it with stale annotations, or waits
   * for the operation that fails.
   */
  lemma {:induction false} WhenFailureIsHidden(trace: seq<Event>)
    requires Run(trace).Some?
    ensures (exists n | 0 <= n <= |trace| :: Run(trace[..n]).Some? && Hidden(Run(trace[..n]).value))
            <==> exists i | 0 <= i < |trace| :: DropsFailure(trace, i) || WaitsInVain(trace, i)
  {
    if n :| 0 <= n <= |trace| && Run(trace[..n]).Some? && Hidden(Run(trace[..n]).value) {
      FirstHidden(trace, n);
    }
    if i :| 0 <= i < |trace| && (DropsFailure(trace, i) || WaitsInVain(trace, i)) {
      StepAt(trace, i);
      assert Hidden(Run(trace[..i + 1]).value);
    }
  }

  lemma {:induction false} FirstHidden(trace: seq<Event>, n: nat)
    requires Run(trace).Some? && n <= |trace| && Run(trace[..n]).Some? && Hidden(Run(trace[..n]).value)
    ensures exists i | 0 <= i < n :: DropsFailure(trace, i) || WaitsInVain(trace, i)
    decreases n
  {
    assert trace[..0] == [];
    assert n > 0;
    StepAt(trace, n - 1);
    if Hidden(Run(trace[..n - 1]).value) {
      FirstHidden(trace, n - 1);
    } else {
      HiddenStep(Run(trace[..n - 1]).value, trace[n - 1]);
      assert DropsFailure(trace, n - 1) || WaitsInVain(trace, n - 1);
    }
  }
}
