/**
 * A resource whose verbs are plain calls, neither async nor delegated, reconciled without failures: the handlers
 * do what a machine of four Ready conditions does, which sees of the world only what the get answers.
 */
module Scenarios {
  import opened Options
  import opened Json
  import opened AsyncProtocol
  import opened ModelB

  // ----- the machine -----

  datatype Get = Missing | Agrees | Differs

  /** One reconcile: what the get says, and whether the call that may follow is answered as pending (202). */
  datatype Turn = Turn(get: Get, pending: bool)

  /** A missing resource is created, unless it is Pending, and one that differs is updated. */
  function Call(ready: Ready, t: Turn): seq<Verb> {
    match t.get
    case Missing => if ready == Pending then [] else [CreateVerb]
    case Differs => [UpdateVerb]
    case Agrees => []
  }

  function Next(ready: Ready, t: Turn): Ready {
    if t.get.Agrees? then Available
    else if Call(ready, t) == [] then ready
    else if t.pending then Pending
    else Creating
  }

  function Calls(ready: Ready, turns: seq<Turn>): seq<Verb>
    decreases |turns|
  {
    if turns == [] then [] else Call(ready, turns[0]) + Calls(Next(ready, turns[0]), turns[1..])
  }

  function End(ready: Ready, turns: seq<Turn>): Ready
    decreases |turns|
  {
    if turns == [] then ready else End(Next(ready, turns[0]), turns[1..])
  }

  /** Once Pending, a resource that stays missing is left alone, however often it is looked for. */
  lemma {:induction false} PendingIsLeftAlone(turns: seq<Turn>)
    requires forall t | t in turns :: t.get.Missing?
    ensures Calls(Pending, turns) == [] && End(Pending, turns) == Pending
    decreases |turns|
  {
    if turns != [] { PendingIsLeftAlone(turns[1..]); }
  }

  /** Once it agrees it is left alone as well. */
  lemma {:induction false} AgreementIsLeftAlone(ready: Ready, turns: seq<Turn>)
    requires forall t | t in turns :: t.get.Agrees?
    ensures Calls(ready, turns) == [] && End(ready, turns) == if turns == [] then ready else Available
    decreases |turns|
  {
    if turns != [] { AgreementIsLeftAlone(Available, turns[1..]); }
  }

  /**
   * A resource that stays missing is created again at every turn, up to the first create that is answered as
   * pending: k creates go before that one, or all there are.
   */
  lemma {:induction false} MissingIsCreated(ready: Ready, turns: seq<Turn>, k: nat)
    requires ready != Pending && k <= |turns| && (forall t | t in turns :: t.get.Missing?)
    requires (forall i | 0 <= i < k :: !turns[i].pending) && (k < |turns| ==> turns[k].pending)
    ensures Calls(ready, turns) == seq(if k < |turns| then k + 1 else k, _ => CreateVerb)
    decreases |turns|
  {
    if turns != [] {
      if k == 0 {
        PendingIsLeftAlone(turns[1..]);
      } else {
        assert forall i | 0 <= i < k - 1 :: turns[1..][i] == turns[i + 1];
        MissingIsCreated(Creating, turns[1..], k - 1);
      }
    }
  }

  // ----- the handlers -----

  predicate Ordinary(w: World) {
    w.definition && w.objectUpdate.Lands? && !w.cfg.observeApiRef && w.cfg.get && w.getValidates
  }

  /** The verb is declared as a plain call, which is accepted; its response is taken over and persisted. */
  predicate Plain(w: World, verb: Verb, pending: bool) {
    && (if verb.CreateVerb? then w.cfg.create == Declared(NoAsync) && !w.cfg.createApiRef
        else w.cfg.update == Declared(NoAsync) && !w.cfg.updateApiRef)
    && w.resolves && w.transforms && w.trigger.Accepted? && w.finalWrite.Lands?
    && w.trigger.response.isPending == pending
    && (w.trigger.response.body.Some? ==> w.trigger.response.body.value.Obj? && w.normalizes && w.populates)
  }

  /** The world plays this turn. */
  predicate Plays(w: World, t: Turn) {
    && Ordinary(w)
    && match t.get
       case Missing => w.reply == NotFound && Plain(w, CreateVerb, t.pending)
       case Differs =>
         w.reply == Replies(Object(true, true, ModelB.Differs), NoPredicate) && w.statusWrite.Lands?
         && Plain(w, UpdateVerb, t.pending)
       case Agrees =>
         w.reply == Replies(Object(true, true, Equal), NoPredicate) && w.statusWrite.Lands? && w.readyWrite.Lands?
  }

  /** The creates and updates sent along a history. */
  function Sent(trace: seq<Event>): seq<Verb> {
    if trace == [] then []
    else Sent(trace[..|trace| - 1]) + (if trace[|trace| - 1].Fire? then [trace[|trace| - 1].verb] else [])
  }

  lemma {:induction false} SentAdds(a: seq<Event>, b: seq<Event>)
    ensures Sent(a + b) == Sent(a) + Sent(b)
    decreases |b|
  {
    if b == [] {
      assert a + b == a;
    } else {
      assert (a + b)[..|a + b| - 1] == a + b[..|b| - 1];
      SentAdds(a, b[..|b| - 1]);
    }
  }

  lemma {:induction false} NothingAdded(trace: seq<Event>, n: nat)
    requires n <= |trace| && NothingSent(trace, n)
    ensures Sent(trace) == Sent(trace[..n])
    decreases |trace|
  {
    if n == |trace| {
      assert trace[..n] == trace;
    } else {
      var front := trace[..|trace| - 1];
      assert front[..n] == trace[..n];
      NothingAdded(front, n);
    }
  }

  /** A plain mutation sends its call and persists the condition, and that is all. */
  lemma PlainMutation(r: Reconciler, w: World, verb: Verb, pending: bool, ready: Ready)
    requires (forall x :: r.floatText(x) != "") && Ordinary(w) && Plain(w, verb, pending)
    ensures Sent(r.Mutation(w, verb)) == [verb]
    ensures r.ReadyAfter(w, verb, ready) == if pending then Pending else Creating
    ensures r.Recorded(w, verb) == None
  {
    r.VerbLeaves(w, verb, ready, w.trigger.response);
    var c := r.Ending(w, verb);
    assert Waiting(w, verb) == [] && r.Recording(w, verb) == [];
    assert r.Mutation(w, verb) == [Fire(verb, false)] + c;
    SentAdds([Fire(verb, false)], c);
    assert [Fire(verb, false)][..0] == [];
  }

  /** A create or update is sent exactly when nothing it needs is missing, and then once. */
  lemma CallsExactly(r: Reconciler, w: World, verb: Verb)
    requires forall x :: r.floatText(x) != ""
    ensures var decl, delegated := if verb.CreateVerb? then w.cfg.create else w.cfg.update,
                                   if verb.CreateVerb? then w.cfg.createApiRef else w.cfg.updateApiRef;
            Sent(r.Mutation(w, verb))
            == if w.definition
                  && (if delegated then !w.snowplow.NotConfigured? else decl.Declared? && w.resolves && w.transforms)
               then [verb] else []
  {
    if Sends(w, verb) { OneCall(r, w, verb); }
  }

  lemma OneCall(r: Reconciler, w: World, verb: Verb)
    requires (forall x :: r.floatText(x) != "") && Sends(w, verb)
    ensures Sent(r.Mutation(w, verb)) == [verb]
  {
    var fire := [Fire(verb, Requeued(w.cfg, verb))];
    var rest := Waiting(w, verb) + r.Recording(w, verb) + r.Ending(w, verb);
    assert r.Mutation(w, verb) == fire + rest && fire[..0] == [] && rest[..0] == [];
    SentAdds(fire, rest);
    NothingAdded(rest, 0);
  }

  /**
   * A resource that cannot be looked for, having no get that validates and no findby: created once, it counts as
   * Available from then on.
   */
  method UnobservableIsCreatedOnce(r: Reconciler, create: World, later: seq<World>) returns (obs: seq<Observation>)
    requires r.Valid() && r.handle == None && r.ready == NotSet
    requires Blind(create) && Plain(create, CreateVerb, false)
    requires forall w | w in later :: Blind(w) && w.readyWrite.Lands?
    modifies r
    ensures r.Valid() && r.handle == None && r.ready == if later == [] then Creating else Available
    ensures Sent(r.trace) == Sent(old(r.trace)) + [CreateVerb]
    ensures obs == seq(|later|, _ => SETTLED)
  {
    ghost var before := r.trace;
    PlainCreate(r, create);
    assert r.AsksCreate(create, r.St());
    SentAdds(before, r.Mutation(create, CreateVerb));
    var _ := r.Reconcile(create);
    obs := [];
    for i := 0 to |later|
      invariant r.Valid() && r.handle == None && r.ready == if i == 0 then Creating else Available
      invariant Sent(r.trace) == Sent(old(r.trace)) + [CreateVerb] && obs == seq(i, _ => SETTLED)
    {
      before := r.trace;
      assert later[i] in later && r.GoesOn(later[i], r.St());
      var o := r.Reconcile(later[i]);
      NothingAdded(r.trace, |before|);
      assert r.trace[..|before|] == before;
      obs := obs + [o];
    }
  }

  predicate Blind(w: World) {
    w.definition && w.objectUpdate.Lands? && !w.cfg.observeApiRef && (w.cfg.get ==> !w.getValidates) && !w.cfg.findBy
  }

  lemma PlainCreate(r: Reconciler, w: World)
    requires (forall x :: r.floatText(x) != "") && w.definition && Plain(w, CreateVerb, false)
    ensures Sent(r.Mutation(w, CreateVerb)) == [CreateVerb]
    ensures r.ReadyAfter(w, CreateVerb, NotSet) == Creating && r.Recorded(w, CreateVerb) == None
  {
    CallsExactly(r, w, CreateVerb);
    r.VerbLeaves(w, CreateVerb, NotSet, w.trigger.response);
  }

  lemma SentAfterStatus(a: seq<Event>, ready: Ready, b: seq<Event>)
    ensures Sent(a + [Status(ready)] + b) == Sent(a) + Sent(b)
  {
    assert [Status(ready)][..0] == [];
    SentAdds(a, [Status(ready)]);
    SentAdds(a + [Status(ready)], b);
  }

  /** One reconcile is one turn of the machine. */
  method PlayOne(r: Reconciler, w: World, t: Turn) returns (obs: Observation)
    requires r.Valid() && r.handle == None && Plays(w, t)
    modifies r
    ensures r.Valid() && r.handle == None && r.ready == Next(old(r.ready), t)
    ensures Sent(r.trace) == Sent(old(r.trace)) + Call(old(r.ready), t)
    ensures obs == if Call(old(r.ready), t) == [] then SETTLED else Observed(t.get.Differs?, false)
  {
    ghost var before, ready := r.trace, r.ready;
    assert r.GoesOn(w, r.St());
    if t.get.Differs? {
      assert r.AsksUpdate(w, r.St());
      PlainMutation(r, w, UpdateVerb, t.pending, ready);
      SentAfterStatus(before, ready, r.Mutation(w, UpdateVerb));
    } else if t.get.Missing? && ready != Pending {
      assert r.AsksCreate(w, r.St());
      PlainMutation(r, w, CreateVerb, t.pending, ready);
      SentAdds(before, r.Mutation(w, CreateVerb));
    }
    obs := r.Reconcile(w);
    if Call(ready, t) == [] {
      NothingAdded(r.trace, |before|);
      assert r.trace[..|before|] == before;
    }
  }

  /** Any run of reconciles without failures is a run of the machine. */
  method Play(r: Reconciler, worlds: seq<World>, turns: seq<Turn>)
    requires r.Valid() && r.handle == None && |worlds| == |turns|
    requires forall i | 0 <= i < |turns| :: Plays(worlds[i], turns[i])
    modifies r
    ensures r.Valid() && r.handle == None && r.ready == End(old(r.ready), turns)
    ensures Sent(r.trace) == Sent(old(r.trace)) + Calls(old(r.ready), turns)
  {
    ghost var sent, first := [], r.ready;
    for i := 0 to |turns|
      invariant r.Valid() && r.handle == None && Sent(r.trace) == Sent(old(r.trace)) + sent
      invariant Ahead(first, turns, sent, r.ready, turns[i..])
    {
      OneTurn(first, turns, sent, r.ready, turns[i..]);
      assert turns[i..][0] == turns[i] && turns[i..][1..] == turns[i + 1..];
      sent := sent + Call(r.ready, turns[i]);
      var _ := PlayOne(r, worlds[i], turns[i]);
    }
  }

  /** Of a run of the machine these calls are made, and these turns are left. */
  predicate Ahead(first: Ready, turns: seq<Turn>, sent: seq<Verb>, ready: Ready, left: seq<Turn>) {
    Calls(first, turns) == sent + Calls(ready, left) && End(first, turns) == End(ready, left)
  }

  lemma OneTurn(first: Ready, turns: seq<Turn>, sent: seq<Verb>, ready: Ready, left: seq<Turn>)
    requires left != [] && Ahead(first, turns, sent, ready, left)
    ensures Ahead(first, turns, sent + Call(ready, left[0]), Next(ready, left[0]), left[1..])
  {}

  /**
   * A create answered as pending, and the resource not found for as long as it takes: every reconcile is settled,
   * the condition stays Pending and no second create is sent.
   */
  method PendingCreateIsAwaited(r: Reconciler, create: World, gets: seq<World>) returns (obs: seq<Observation>)
    requires r.Valid() && r.handle == None && r.ready != Pending
    requires Plays(create, Turn(Missing, true))
    requires forall w | w in gets :: Ordinary(w) && w.reply == NotFound
    modifies r
    ensures r.Valid() && r.ready == Pending && Sent(r.trace) == Sent(old(r.trace)) + [CreateVerb]
    ensures obs == seq(|gets|, _ => SETTLED)
  {
    var _ := PlayOne(r, create, Turn(Missing, true));
    obs := [];
    for i := 0 to |gets|
      invariant r.Valid() && r.handle == None && r.ready == Pending
      invariant Sent(r.trace) == Sent(old(r.trace)) + [CreateVerb] && obs == seq(i, _ => SETTLED)
    {
      ghost var before := r.trace;
      assert gets[i] in gets && r.GoesOn(gets[i], r.St());
      var o := r.Reconcile(gets[i]);
      NothingAdded(r.trace, |before|);
      assert r.trace[..|before|] == before;
      obs := obs + [o];
    }
  }

  // ----- a create that leaves its operation to later reconciles -----

  predicate Listed(fold: string -> string, statuses: seq<string>, status: string) {
    exists i | 0 <= i < |statuses| :: fold(statuses[i]) == fold(status)
  }

  /** The create verb declares its operation, to be polled by later reconciles. */
  predicate Requeues(w: World) {
    w.cfg.create.Declared? && w.cfg.create.async.Async? && w.cfg.create.async.requeue && !w.cfg.createApiRef
  }

  /** The trigger is accepted, its handle persisted, and its response taken over. */
  predicate Triggers(r: Reconciler, w: World, op: Op)
    requires forall x :: r.floatText(x) != ""
  {
    && Ordinary(w) && w.reply == NotFound && Requeues(w) && w.resolves && w.transforms && w.trigger.Accepted?
    && r.Named(w.cfg.create.async, CreateVerb, w.trigger.response) == Some(op) && w.recordWrite.Lands?
    && (w.trigger.response.body.Some? ==> w.trigger.response.body.value.Obj? && w.normalizes && w.populates)
    && w.finalWrite.Lands?
  }

  predicate AnswersPending(r: Reconciler, w: World) {
    && Ordinary(w) && Requeues(w) && w.poll.Answers?
    && !Listed(r.fold, w.cfg.create.async.success, w.poll.status)
    && !Listed(r.fold, w.cfg.create.async.failure, w.poll.status)
  }

  /** The operation is over, and the resource is there as the spec wants it. */
  predicate AnswersDone(r: Reconciler, w: World) {
    && Ordinary(w) && Requeues(w) && w.poll.Answers? && Listed(r.fold, w.cfg.create.async.success, w.poll.status)
    && !w.cfg.create.async.postGet && w.clearWrite.Lands?
    && w.reply == Replies(Object(true, true, Equal), NoPredicate) && w.statusWrite.Lands? && w.readyWrite.Lands?
  }

  lemma TriggersRequeued(r: Reconciler, w: World, op: Op, ready: Ready)
    requires (forall x :: r.floatText(x) != "") && Triggers(r, w, op)
    ensures r.Recorded(w, CreateVerb) == Some(op) && r.ReadyAfter(w, CreateVerb, ready) == Pending
    ensures Sent(r.Mutation(w, CreateVerb)) == [CreateVerb]
  {
    CallsExactly(r, w, CreateVerb);
    r.VerbLeaves(w, CreateVerb, ready, w.trigger.response);
  }

  /** Triggered once, polled until it is over, and then compared: Pending all the while, and Available in the end. */
  method RequeuedCreate(r: Reconciler, create: World, polls: seq<World>, done: World, op: Op)
    requires r.Valid() && r.handle == None && r.ready != Pending && op.verb.CreateVerb?
    requires Triggers(r, create, op) && AnswersDone(r, done)
    requires forall w | w in polls :: AnswersPending(r, w)
    modifies r
    ensures r.Valid() && r.handle == None && r.ready == Available
    ensures Sent(r.trace) == Sent(old(r.trace)) + [CreateVerb]
  {
    ghost var before := r.trace;
    TriggersRequeued(r, create, op, r.ready);
    assert r.AsksCreate(create, r.St());
    SentAdds(before, r.Mutation(create, CreateVerb));
    var _ := r.Reconcile(create);
    for i := 0 to |polls|
      invariant r.Valid() && r.handle == Some(op) && r.ready == Pending
      invariant Sent(r.trace) == Sent(old(r.trace)) + [CreateVerb]
    {
      before := r.trace;
      assert polls[i] in polls && r.StillInFlight(polls[i], op);
      var _ := r.Reconcile(polls[i]);
      NothingAdded(r.trace, |before|);
      assert r.trace[..|before|] == before;
    }
    before := r.trace;
    assert r.Succeeds(done, op) && r.GoesOn(done, r.St());
    var _ := r.Reconcile(done);
    NothingAdded(r.trace, |before|);
    assert r.trace[..|before|] == before;
  }
}
