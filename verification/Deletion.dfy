/** The life of one custom resource: reconciles and attempts to delete it, in any order, until its finalizer goes. */
module Deletion {
  import opened Options
  import opened AsyncProtocol
  import opened ModelB
  import Finalizer

  datatype Turn = Reconciles(w: ModelB.World) | Deletes(d: Finalizer.World)

  ghost predicate ReleasesAt(r: Reconciler, t: Turn)
    requires forall x :: r.floatText(x) != ""
  {
    t.Deletes? && Finalizer.Releases(t.d, r.floatText)
  }

  /** A turn that leaves the operation recorded: it sends a create or update whose handle it persists. */
  predicate RecordsAt(r: Reconciler, t: Turn, s: State, op: Op)
    requires forall x :: r.floatText(x) != ""
  {
    t.Reconciles? && (r.AsksCreate(t.w, s) || r.AsksUpdate(t.w, s)) && r.HandleAfter(t.w, s) == Some(op)
  }

  /** A turn that does not take it away: a deletion never looks at it. */
  predicate KeepsAt(r: Reconciler, t: Turn, op: Op) {
    t.Reconciles? ==> r.Kept(t.w, Some(op)) == Some(op)
  }

  function HandleAt(r: Reconciler, t: Turn, s: State): Option<Op>
    requires forall x :: r.floatText(x) != ""
  {
    if t.Reconciles? then r.HandleAfter(t.w, s) else s.handle
  }

  /** The states between the first n turns. */
  ghost predicate Lived(r: Reconciler, turns: seq<Turn>, n: nat, starts: seq<State>)
    requires forall x :: r.floatText(x) != ""
  {
    && n <= |turns| && |starts| == n + 1 && starts[0] == START
    && forall k | 0 <= k < n :: starts[k + 1].handle == HandleAt(r, turns[k], starts[k])
  }

  /** The operation is recorded at some turn before the k-th, and kept at every turn since. */
  predicate InFlight(r: Reconciler, turns: seq<Turn>, starts: seq<State>, k: nat, op: Op)
    requires k <= |turns| && k < |starts|
    requires forall x :: r.floatText(x) != ""
  {
    exists j | 0 <= j < k :: RecordsAt(r, turns[j], starts[j], op) && forall i | j < i < k :: KeepsAt(r, turns[i], op)
  }

  lemma OneTurn(r: Reconciler, t: Turn, s: State, op: Op)
    requires forall x :: r.floatText(x) != ""
    ensures HandleAt(r, t, s) == Some(op) <==> RecordsAt(r, t, s, op) || (s.handle == Some(op) && KeepsAt(r, t, op))
  {}

  lemma {:induction false} HandleIsInFlight(
    r: Reconciler, turns: seq<Turn>, n: nat, starts: seq<State>, k: nat, op: Op)
    requires forall x :: r.floatText(x) != ""
    requires Lived(r, turns, n, starts) && k <= n
    ensures starts[k].handle == Some(op) <==> InFlight(r, turns, starts, k, op)
    decreases k
  {
    if k > 0 {
      HandleIsInFlight(r, turns, n, starts, k - 1, op);
      OneTurn(r, turns[k - 1], starts[k - 1], op);
      assert starts[k - 1 + 1] == starts[k];
      assert InFlight(r, turns, starts, k, op)
             <==> RecordsAt(r, turns[k - 1], starts[k - 1], op)
                  || (InFlight(r, turns, starts, k - 1, op) && KeepsAt(r, turns[k - 1], op));
    }
  }

  /** No create or update leaves its operation to later reconciles. */
  predicate NeverRequeued(turns: seq<Turn>) {
    forall k, v | 0 <= k < |turns| && turns[k].Reconciles? :: !Requeued(turns[k].w.cfg, v)
  }

  /**
   * Any sequence of turns from the start, up to the first that releases the finalizer. It is released with an
   * operation on record exactly when some turn recorded it and none since has cleared it, whatever became of
   * it meanwhile; and the external resource is then left alone exactly at the exits that make no call.
   */
  method Live(r: Reconciler, turns: seq<Turn>)
    returns (n: nat, released: bool, events: seq<Finalizer.Event>, ghost starts: seq<State>)
    requires r.Valid() && r.trace == []
    modifies r
    ensures r.Valid() && Lived(r, turns, n, starts) && starts[n] == r.St()
    ensures forall k | 0 <= k < n :: !ReleasesAt(r, turns[k])
    ensures released <==> n < |turns| && ReleasesAt(r, turns[n])
    ensures released || n == |turns|
    ensures released ==> forall op :: r.handle == Some(op) <==> InFlight(r, turns, starts, n, op)
    ensures released ==> (events == [] <==> Finalizer.LeavesAlone(turns[n].d))
    ensures NeverRequeued(turns) ==> r.handle == None
  {
    n, released, events, starts := 0, false, [], [r.St()];
    while n < |turns|
      invariant r.Valid() && Lived(r, turns, n, starts) && starts[n] == r.St()
      invariant forall k | 0 <= k < n :: !ReleasesAt(r, turns[k])
      invariant NeverRequeued(turns) ==> r.handle == None
    {
      match turns[n] {
        case Reconciles(w) =>
          var _ := r.Reconcile(w);
        case Deletes(d) =>
          released, events := Finalizer.Delete(d, r.floatText);
          if released {
            forall op ensures r.handle == Some(op) <==> InFlight(r, turns, starts, n, op) {
              HandleIsInFlight(r, turns, n, starts, n, op);
            }
            return;
          }
      }
      starts := starts + [r.St()];
      n := n + 1;
    }
  }
}
