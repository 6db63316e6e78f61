/** Laws of Get, Set and Remove along a path. */
module NestedSteps {
  import opened Options
  import opened Json
  import opened Segments
  import opened Nested

  // ----- locations: what a path resolves to in one document -----

  function ChildAt(v: JSON, l: seq<Step>): Option<JSON> {
    if l == [] then Some(v)
    else match Child(v, l[0]) case Some(x) => ChildAt(x, l[1..]) case None => None
  }

  /** The location a path names: the array index of each predicate, the key or index of each other segment. */
  function Locate(show: Printer, c: JSON, segs: Path): Option<seq<Step>>
    decreases |segs|
  {
    if segs == [] then Some([])
    else match SlotOf(show, c, segs[0])
      case At(st) =>
        (match Child(c, st)
         case None => None
         case Some(v) => match Locate(show, v, segs[1..]) case Some(l) => Some([st] + l) case None => None)
      case _ => None
  }

  /** The location a successful write lands at, whether or not it exists beforehand. */
  function Target(show: Printer, c: JSON, segs: Path): seq<Step>
    decreases |segs|
  {
    if segs == [] then []
    else match SlotOf(show, c, segs[0])
      case At(st) =>
        [st] + (if |segs| == 1 then [] else Target(show, Descend(ChildOrNull(c, st), segs[1]), segs[1..]))
      case _ => []
  }

  predicate Diverges(p: seq<Step>, q: seq<Step>) {
    p != [] && q != [] && (p[0] != q[0] || Diverges(p[1..], q[1..]))
  }

  /** `l` is one of the nil elements a write at `p` pads an array with. */
  predicate Padding(p: seq<Step>, l: seq<Step>) {
    p != [] && l != [] &&
    if p[0] == l[0] then Padding(p[1..], l[1..])
    else |l| == 1 && p[0].Idx? && l[0].Idx? && l[0].i < p[0].i
  }

  lemma {:induction false} GetReadsItsLocation(show: Printer, c: JSON, segs: Path)
    ensures match Get(show, c, segs)
            case Found(v) => Locate(show, c, segs).Some? && ChildAt(c, Locate(show, c, segs).value) == Some(v)
            case _ => Locate(show, c, segs).None?
    decreases |segs|
  {
    if segs != [] {
      match SlotOf(show, c, segs[0])
      case At(st) => if Child(c, st).Some? { GetReadsItsLocation(show, Child(c, st).value, segs[1..]); }
      case _ =>
    }
  }

  // ----- one step -----

  lemma SlotFits(show: Printer, c: JSON, seg: string)
    ensures SlotOf(show, c, seg).At? ==> Fits(c, SlotOf(show, c, seg).step)
  {}

  lemma PutThenChild(c: JSON, st: Step, v: JSON, other: Step)
    requires Fits(c, st)
    ensures Child(Put(c, st, v), st) == Some(v)
    ensures other != st ==>
              Child(Put(c, st, v), other) == Child(c, other)
              || (Child(c, other) == None && Child(Put(c, st, v), other) == Some(Null)
                  && st.Idx? && other.Idx? && other.i < st.i)
  {}

  /** A predicate finds its element again after a write exactly when the element still matches it. */
  lemma SlotAfterPut(show: Printer, c: JSON, seg: string, v: JSON)
    requires SlotOf(show, c, seg).At?
    ensures var st := SlotOf(show, c, seg).step;
            var after := SlotOf(show, Put(c, st, v), seg);
            if c.Arr? && ParsePredicate(seg).Some? && !Selects(show, v, ParsePredicate(seg).value)
            then after == Gone else after == At(st)
  {
    if c.Arr? && ParsePredicate(seg).Some? {
      var i := SlotOf(show, c, seg).step.i;
      MatchOnly(show, c.items[i := v], ParsePredicate(seg).value, i);
    }
  }

  lemma MatchOnly(show: Printer, items: seq<JSON>, p: Predicate, i: nat)
    requires i < |items| && forall j | 0 <= j < |items| && j != i :: !Selects(show, items[j], p)
    ensures MatchItems(show, items, p) == if Selects(show, items[i], p) then One(i) else Zero
  {}
}

module SetLaws {
  import opened Options
  import opened Json
  import opened Segments
  import opened Nested
  import opened NestedSteps

  // ----- when a write is refused -----

  /** The container segment `i` is applied to: an existing one, or the empty one the write creates. */
  function Reached(show: Printer, c: JSON, segs: Path, i: nat): JSON
    requires i < |segs|
    decreases i
  {
    if i == 0 then c
    else match SlotOf(show, c, segs[0])
      case At(st) => Reached(show, Descend(ChildOrNull(c, st), segs[1]), segs[1..], i - 1)
      case _ => Null
  }

  /** Segment `i` is a predicate applied to an array in which it does not select exactly one element. */
  ghost predicate Stuck(show: Printer, c: JSON, segs: Path, i: nat)
    requires i < |segs|
  {
    var at := Reached(show, c, segs, i);
    at.Arr? && ParsePredicate(segs[i]).Some? && !SelectsExactlyOne(show, at.items, ParsePredicate(segs[i]).value)
  }

  lemma UniqueMatch(show: Printer, items: seq<JSON>, p: Predicate)
    ensures SelectsExactlyOne(show, items, p) <==> MatchItems(show, items, p).One?
  {
    var m := MatchItems(show, items, p);
    if m.Many? {
      var i, j :| 0 <= i < j < |items| && Selects(show, items[i], p) && Selects(show, items[j], p);
    }
  }

  lemma {:induction false} RefusedExactlyWhenStuck(show: Printer, c: JSON, v: JSON, segs: Path)
    requires segs != []
    requires c.Obj? || (c.Arr? && WantsArray(segs[0]))
    ensures SetAt(show, c, v, segs).Refused? <==> exists i | 0 <= i < |segs| :: Stuck(show, c, segs, i)
    decreases |segs|
  {
    if c.Arr? && ParsePredicate(segs[0]).Some? { UniqueMatch(show, c.items, ParsePredicate(segs[0]).value); }
    match SlotOf(show, c, segs[0])
    case At(st) =>
      assert !Stuck(show, c, segs, 0);
      if |segs| > 1 {
        var child, rest := Descend(ChildOrNull(c, st), segs[1]), segs[1..];
        RefusedExactlyWhenStuck(show, child, v, rest);
        forall i | 1 <= i < |segs| ensures Stuck(show, c, segs, i) == Stuck(show, child, rest, i - 1) {}
        if j :| 0 <= j < |rest| && Stuck(show, child, rest, j) { assert Stuck(show, c, segs, j + 1); }
      }
    case _ => assert Stuck(show, c, segs, 0);
  }

  /** Set on an object fails exactly when some predicate applied to an array does not select exactly one element. */
  lemma SetFailsExactlyOnBadPredicate(show: Printer, root: map<string, JSON>, v: JSON, segs: Path)
    requires segs != []
    ensures SetAt(show, Obj(root), v, segs).Refused? <==> exists i | 1 <= i < |segs| :: Stuck(show, Obj(root), segs, i)
  {
    RefusedExactlyWhenStuck(show, Obj(root), v, segs);
    assert !Stuck(show, Obj(root), segs, 0);
  }

  // ----- get after set -----

  /** Every predicate the write goes through still selects the element it wrote. */
  predicate Sticks(show: Printer, c: JSON, v: JSON, segs: Path)
    requires segs != [] && SetAt(show, c, v, segs).Written?
    decreases |segs|
  {
    var st := SlotOf(show, c, segs[0]).step;
    var last := |segs| == 1;
    var child := if last then Null else Descend(ChildOrNull(c, st), segs[1]);
    var written := if last then v else SetAt(show, child, v, segs[1..]).doc;
    && (c.Arr? && ParsePredicate(segs[0]).Some? ==> Selects(show, written, ParsePredicate(segs[0]).value))
    && (!last ==> Sticks(show, child, v, segs[1..]))
  }

  lemma {:induction false} GetAfterSet(show: Printer, c: JSON, v: JSON, segs: Path)
    requires segs != [] && SetAt(show, c, v, segs).Written?
    ensures Get(show, SetAt(show, c, v, segs).doc, segs)
            == if Sticks(show, c, v, segs) then Found(v) else Absent
    decreases |segs|
  {
    SlotFits(show, c, segs[0]);
    var st := SlotOf(show, c, segs[0]).step;
    if |segs| == 1 {
      SlotAfterPut(show, c, segs[0], v);
      PutThenChild(c, st, v, st);
    } else {
      var child := Descend(ChildOrNull(c, st), segs[1]);
      var n := SetAt(show, child, v, segs[1..]).doc;
      GetAfterSet(show, child, v, segs[1..]);
      SlotAfterPut(show, c, segs[0], n);
      PutThenChild(c, st, n, st);
    }
  }

  /** No predicate ends the path, and each is followed by a map key other than the one it tests. */
  predicate PredicatesLeadToOtherKeys(segs: Path) {
    forall i | 1 <= i < |segs| && ParsePredicate(segs[i]).Some? ::
      i + 1 < |segs| && !WantsArray(segs[i + 1]) && segs[i + 1] != ParsePredicate(segs[i]).value.key
  }

  lemma {:induction false} OtherKeysStick(show: Printer, c: JSON, v: JSON, segs: Path)
    requires segs != [] && SetAt(show, c, v, segs).Written?
    requires PredicatesLeadToOtherKeys(segs)
    requires c.Arr? && ParsePredicate(segs[0]).Some? ==>
               |segs| > 1 && !WantsArray(segs[1]) && segs[1] != ParsePredicate(segs[0]).value.key
    ensures Sticks(show, c, v, segs)
    decreases |segs|
  {
    if |segs| > 1 {
      var rest := segs[1..];
      assert forall i | 1 <= i < |rest| :: rest[i] == segs[i + 1];
      forall i | 1 <= i < |rest| && ParsePredicate(rest[i]).Some?
        ensures i + 1 < |rest| && !WantsArray(rest[i + 1]) && rest[i + 1] != ParsePredicate(rest[i]).value.key
      {
        assert ParsePredicate(segs[i + 1]).Some?;
      }
      var child := Descend(ChildOrNull(c, SlotOf(show, c, segs[0]).step), segs[1]);
      OtherKeysStick(show, child, v, rest);
    }
  }

  /** After a successful Set, Get on the same path returns the written value. */
  lemma GetReturnsWhatSetWrote(show: Printer, root: map<string, JSON>, v: JSON, segs: Path)
    requires segs != [] && SetAt(show, Obj(root), v, segs).Written?
    requires PredicatesLeadToOtherKeys(segs)
    ensures Get(show, SetAt(show, Obj(root), v, segs).doc, segs) == Found(v)
  {
    OtherKeysStick(show, Obj(root), v, segs);
    GetAfterSet(show, Obj(root), v, segs);
  }

  // ----- what a write leaves alone -----

  /** No map or array on the way is replaced for being of the wrong kind. */
  predicate KeepsContainers(show: Printer, c: JSON, segs: Path)
    decreases |segs|
  {
    |segs| > 1 && SlotOf(show, c, segs[0]).At? ==>
      var child := ChildOrNull(c, SlotOf(show, c, segs[0]).step);
      && (child.Obj? || child.Arr? ==> ContainerMatches(child, segs[1]))
      && KeepsContainers(show, Descend(child, segs[1]), segs[1..])
  }

  /** A write changes only its own location and the nil elements it pads an array with. */
  lemma {:induction false} SetChangesOnlyItsTarget(show: Printer, c: JSON, v: JSON, segs: Path, l: seq<Step>)
    requires segs != [] && SetAt(show, c, v, segs).Written?
    requires KeepsContainers(show, c, segs)
    ensures var n, p := SetAt(show, c, v, segs).doc, Target(show, c, segs);
            && ChildAt(n, p) == Some(v)
            && (Diverges(p, l) ==>
                  ChildAt(n, l) == ChildAt(c, l)
                  || (ChildAt(c, l) == None && ChildAt(n, l) == Some(Null) && Padding(p, l)))
    decreases |segs|
  {
    SlotFits(show, c, segs[0]);
    var st := SlotOf(show, c, segs[0]).step;
    var n, p := SetAt(show, c, v, segs).doc, Target(show, c, segs);
    if |segs| == 1 {
      assert p == [st] && p[1..] == [];
      if l != [] && l[0] == st { assert !Diverges(p[1..], l[1..]); }
      if l != [] && l[0] != st { PutThenChild(c, st, v, l[0]); }
      PutThenChild(c, st, v, st);
    } else {
      var child := Descend(ChildOrNull(c, st), segs[1]);
      var m := SetAt(show, child, v, segs[1..]).doc;
      assert p[0] == st && p[1..] == Target(show, child, segs[1..]);
      PutThenChild(c, st, m, st);
      if l != [] && l[0] != st { PutThenChild(c, st, m, l[0]); }
      SetChangesOnlyItsTarget(show, child, v, segs[1..], if l == [] then [] else l[1..]);
      if Diverges(p, l) && l[0] == st {
        assert Diverges(p[1..], l[1..]);
        NewContainersAreEmpty(c, st, segs[1], l[1..]);
      }
    }
  }

  lemma NewContainersAreEmpty(c: JSON, st: Step, seg: string, l: seq<Step>)
    requires l != []
    requires ChildOrNull(c, st).Obj? || ChildOrNull(c, st).Arr? ==> ContainerMatches(ChildOrNull(c, st), seg)
    ensures ChildAt(Descend(ChildOrNull(c, st), seg), l) == ChildAt(c, [st] + l)
  {}

  // ----- predicate paths and index paths -----

  /** Every predicate that selects one element replaced by that element's index. */
  function ToIndices(show: Printer, c: JSON, segs: Path): (r: Path)
    ensures |r| == |segs|
    decreases |segs|
  {
    if segs == [] then []
    else
      var slot := SlotOf(show, c, segs[0]);
      var seg := if c.Arr? && slot.At? && ParsePredicate(segs[0]).Some? then IndexText(slot.step.i) else segs[0];
      [seg] + if slot.At? && Child(c, slot.step).Some? then ToIndices(show, Child(c, slot.step).value, segs[1..])
              else segs[1..]
  }

  /** Array lengths are Go ints. */
  predicate Addressable(v: JSON) {
    match v
    case Obj(fields) => forall k | k in fields :: Addressable(fields[k])
    case Arr(items) => |items| <= MAX_INT && forall i | 0 <= i < |items| :: Addressable(items[i])
    case _ => true
  }

  lemma IndexStep(show: Printer, c: JSON, segs: Path)
    requires segs != [] && Addressable(c)
    ensures SlotOf(show, c, ToIndices(show, c, segs)[0]) == SlotOf(show, c, segs[0])
    ensures c.Arr? && ParsePredicate(segs[0]).Some? && SlotOf(show, c, segs[0]).At? ==>
              WantsArray(ToIndices(show, c, segs)[0]) && ParsePredicate(ToIndices(show, c, segs)[0]).None?
  {
    var slot := SlotOf(show, c, segs[0]);
    if c.Arr? && slot.At? && ParsePredicate(segs[0]).Some? { IndexTextReadsBack(slot.step.i); }
  }

  lemma {:induction false} GetThroughPredicate(show: Printer, c: JSON, segs: Path)
    requires Addressable(c)
    ensures Get(show, c, ToIndices(show, c, segs)) == Get(show, c, segs)
    decreases |segs|
  {
    if segs != [] {
      IndexStep(show, c, segs);
      var slot := SlotOf(show, c, segs[0]);
      if slot.At? && Child(c, slot.step).Some? {
        GetThroughPredicate(show, Child(c, slot.step).value, segs[1..]);
      }
    }
  }

  lemma {:induction false} SetThroughPredicate(show: Printer, c: JSON, v: JSON, segs: Path)
    requires segs != [] && Addressable(c) && SetAt(show, c, v, segs).Written?
    ensures SetAt(show, c, v, ToIndices(show, c, segs)) == SetAt(show, c, v, segs)
    decreases |segs|
  {
    IndexStep(show, c, segs);
    var st := SlotOf(show, c, segs[0]).step;
    if |segs| > 1 {
      var child := ChildOrNull(c, st);
      var rest := ToIndices(show, c, segs)[1..];
      if Child(c, st).Some? && ContainerMatches(child, segs[1]) {
        SetThroughPredicate(show, child, v, segs[1..]);
        IndexStep(show, child, segs[1..]);
      } else if Child(c, st).Some? {
        NoPredicatesBelowNewContainer(show, NewContainerFor(segs[1]), v, segs[1..]);
        NothingToIndex(show, child, segs[1..]);
      }
    }
  }

  /** A write that creates a container meets no predicate below it. */
  lemma {:induction false} NoPredicatesBelowNewContainer(show: Printer, c: JSON, v: JSON, segs: Path)
    requires segs != [] && SetAt(show, c, v, segs).Written? && c == NewContainerFor(segs[0])
    ensures forall i | 0 <= i < |segs| :: ParsePredicate(segs[i]).None?
    decreases |segs|
  {
    if |segs| > 1 {
      assert Descend(Null, segs[1]) == NewContainerFor(segs[1]);
      NoPredicatesBelowNewContainer(show, NewContainerFor(segs[1]), v, segs[1..]);
      forall i | 0 <= i < |segs| ensures ParsePredicate(segs[i]).None? {
        if i > 0 { assert segs[i] == segs[1..][i - 1]; }
      }
    }
  }

  lemma {:induction false} NothingToIndex(show: Printer, c: JSON, segs: Path)
    requires forall i | 0 <= i < |segs| :: ParsePredicate(segs[i]).None?
    ensures ToIndices(show, c, segs) == segs
    decreases |segs|
  {
    if segs != [] {
      var slot := SlotOf(show, c, segs[0]);
      if slot.At? && Child(c, slot.step).Some? { NothingToIndex(show, Child(c, slot.step).value, segs[1..]); }
    }
  }

  lemma {:induction false} RemoveThroughPredicate(show: Printer, c: JSON, segs: Path)
    requires segs != [] && Addressable(c)
    ensures RemoveAt(show, c, ToIndices(show, c, segs)) == RemoveAt(show, c, segs)
    decreases |segs|
  {
    IndexStep(show, c, segs);
    var slot := SlotOf(show, c, segs[0]);
    if |segs| > 1 && slot.At? && Child(c, slot.step).Some? {
      RemoveThroughPredicate(show, Child(c, slot.step).value, segs[1..]);
    }
  }

  // ----- reordering an array -----

  /** `b` lists the elements of `a` in another order: b[k] is a[p[k]], and q undoes p. */
  predicate PermutedBy(a: seq<JSON>, b: seq<JSON>, p: seq<nat>, q: seq<nat>) {
    && |a| == |b| == |p| == |q|
    && (forall k | 0 <= k < |p| :: p[k] < |a| && q[k] < |a|)
    && (forall k | 0 <= k < |p| :: q[p[k]] == k && p[q[k]] == k)
    && (forall k | 0 <= k < |p| :: b[k] == a[p[k]])
  }

  lemma MatchFollowsPermutation(show: Printer, a: seq<JSON>, b: seq<JSON>, p: seq<nat>, q: seq<nat>, pred: Predicate)
    requires PermutedBy(a, b, p, q)
    ensures var m, n := MatchItems(show, a, pred), MatchItems(show, b, pred);
            && (m.One? <==> n.One?) && (m.Zero? <==> n.Zero?)
            && (m.One? ==> n.idx == q[m.idx] && b[n.idx] == a[m.idx])
  {
    var m, n := MatchItems(show, a, pred), MatchItems(show, b, pred);
    if m.One? { OneFollowsPermutation(show, a, b, p, q, pred); }
    InversePermutation(a, b, p, q);
    if n.One? { OneFollowsPermutation(show, b, a, q, p, pred); }
    if m.Zero? { ZeroFollowsPermutation(show, a, b, p, q, pred); }
    if n.Zero? { ZeroFollowsPermutation(show, b, a, q, p, pred); }
  }

  lemma InversePermutation(a: seq<JSON>, b: seq<JSON>, p: seq<nat>, q: seq<nat>)
    requires PermutedBy(a, b, p, q)
    ensures PermutedBy(b, a, q, p)
  {
    forall k | 0 <= k < |a| ensures a[k] == b[q[k]] { assert b[q[k]] == a[p[q[k]]]; }
  }

  lemma ZeroFollowsPermutation(show: Printer, a: seq<JSON>, b: seq<JSON>, p: seq<nat>, q: seq<nat>, pred: Predicate)
    requires PermutedBy(a, b, p, q) && MatchItems(show, a, pred).Zero?
    ensures MatchItems(show, b, pred).Zero?
  {
    forall j | 0 <= j < |b| ensures !Selects(show, b[j], pred) { assert b[j] == a[p[j]]; }
    NoneSelected(show, b, pred);
  }

  lemma NoneSelected(show: Printer, items: seq<JSON>, p: Predicate)
    requires forall j | 0 <= j < |items| :: !Selects(show, items[j], p)
    ensures MatchItems(show, items, p).Zero?
  {}

  lemma OneFollowsPermutation(show: Printer, a: seq<JSON>, b: seq<JSON>, p: seq<nat>, q: seq<nat>, pred: Predicate)
    requires PermutedBy(a, b, p, q) && MatchItems(show, a, pred).One?
    ensures MatchItems(show, b, pred) == One(q[MatchItems(show, a, pred).idx])
  {
    var i := MatchItems(show, a, pred).idx;
    forall j | 0 <= j < |b| && j != q[i] ensures !Selects(show, b[j], pred) {
      assert b[j] == a[p[j]];
    }
    MatchOnly(show, b, pred, q[i]);
  }

  lemma PutPermuted(a: seq<JSON>, b: seq<JSON>, p: seq<nat>, q: seq<nat>, i: nat, v: JSON)
    requires PermutedBy(a, b, p, q) && i < |a|
    ensures PermutedBy(a[i := v], b[q[i] := v], p, q)
  {
    forall k | 0 <= k < |b| ensures b[q[i] := v][k] == a[i := v][p[k]] {
      assert k == q[p[k]];
    }
  }

  /** The slot a predicate names moves with its element. */
  lemma SlotFollowsPermutation(show: Printer, a: seq<JSON>, b: seq<JSON>, p: seq<nat>, q: seq<nat>, seg: string)
    returns (x: Slot, y: Slot)
    requires ParsePredicate(seg).Some? && PermutedBy(a, b, p, q)
    ensures x == SlotOf(show, Arr(a), seg) && y == SlotOf(show, Arr(b), seg)
    ensures if x.At? then y.At? && x.step.Idx? && y.step.Idx? && x.step.i < |a| == |b| == |q|
                          && y.step.i == q[x.step.i] < |b| && b[y.step.i] == a[x.step.i]
            else y == x
  {
    MatchFollowsPermutation(show, a, b, p, q, ParsePredicate(seg).value);
    x, y := SlotOf(show, Arr(a), seg), SlotOf(show, Arr(b), seg);
  }

  /** Through a predicate, the order of the array's elements does not matter to a read. */
  lemma PermutationKeepsReads(show: Printer, a: seq<JSON>, b: seq<JSON>, p: seq<nat>, q: seq<nat>, segs: Path)
    requires segs != [] && ParsePredicate(segs[0]).Some? && PermutedBy(a, b, p, q)
    ensures Get(show, Arr(a), segs) == Get(show, Arr(b), segs)
  {
    var x, y := SlotFollowsPermutation(show, a, b, p, q, segs[0]);
    if x.At? { assert Child(Arr(a), x.step) == Child(Arr(b), y.step); }
  }

  lemma SetInSlot(show: Printer, items: seq<JSON>, v: JSON, segs: Path, i: nat)
    requires segs != [] && SlotOf(show, Arr(items), segs[0]) == At(Idx(i)) && i < |items|
    ensures SetAt(show, Arr(items), v, segs)
            == if |segs| == 1 then Written(Arr(items[i := v]))
               else match SetAt(show, Descend(items[i], segs[1]), v, segs[1..])
                    case Written(n) => Written(Arr(items[i := n]))
                    case Refused(e) => Refused(e)
  {}

  /** A write below a predicate gives the same array in the other order, or the same refusal. */
  lemma PermutationPermutesWrites(
    show: Printer, a: seq<JSON>, b: seq<JSON>, p: seq<nat>, q: seq<nat>, v: JSON, segs: Path)
    requires segs != [] && ParsePredicate(segs[0]).Some? && PermutedBy(a, b, p, q)
    ensures match (SetAt(show, Arr(a), v, segs), SetAt(show, Arr(b), v, segs))
            case (Written(x), Written(y)) => x.Arr? && y.Arr? && PermutedBy(x.items, y.items, p, q)
            case (Refused(e), Refused(f)) => e == f
            case _ => false
  {
    var x, y := SlotFollowsPermutation(show, a, b, p, q, segs[0]);
    if x.At? {
      SetInSlot(show, a, v, segs, x.step.i);
      SetInSlot(show, b, v, segs, y.step.i);
      var w := if |segs| == 1 then Written(v) else SetAt(show, Descend(a[x.step.i], segs[1]), v, segs[1..]);
      if w.Written? { PutPermuted(a, b, p, q, x.step.i, w.doc); }
    }
  }

  lemma RemoveSlot(show: Printer, items: seq<JSON>, segs: Path, i: nat)
    requires |segs| == 1 && SlotOf(show, Arr(items), segs[0]) == At(Idx(i)) && i < |items|
    ensures RemoveAt(show, Arr(items), segs) == Arr(Cut(items, i))
  {}

  lemma RemoveInSlot(show: Printer, items: seq<JSON>, segs: Path, i: nat)
    requires |segs| > 1 && SlotOf(show, Arr(items), segs[0]) == At(Idx(i)) && i < |items|
    ensures RemoveAt(show, Arr(items), segs) == Arr(items[i := RemoveAt(show, items[i], segs[1..])])
  {}

  /** The k-th position other than `gone`, and back. */
  function Skip(gone: nat, k: nat): nat {
    if k < gone then k else k + 1
  }

  function Close(gone: nat, k: nat): nat
    requires k != gone
  {
    if k < gone then k else k - 1
  }

  function Cut(items: seq<JSON>, i: nat): (r: seq<JSON>)
    requires i < |items|
    ensures |r| == |items| - 1 && forall k | 0 <= k < |r| :: r[k] == items[Skip(i, k)]
  {
    items[..i] + items[i + 1..]
  }

  predicate Inverse(p: seq<nat>, q: seq<nat>) {
    |p| == |q| && forall k | 0 <= k < |p| :: p[k] < |p| && q[p[k]] == k
  }

  /** A permutation with position `j`, and what it leads to, left out. */
  function CutAt(p: seq<nat>, q: seq<nat>, j: nat): (r: seq<nat>)
    requires Inverse(p, q) && j < |p|
    ensures |r| == |p| - 1
    ensures forall k | 0 <= k < |r| :: p[Skip(j, k)] != p[j] && r[k] == Close(p[j], p[Skip(j, k)])
  {
    seq(|p| - 1, k requires 0 <= k < |p| - 1 => assert q[p[Skip(j, k)]] != q[p[j]]; Close(p[j], p[Skip(j, k)]))
  }

  lemma CutInverse(p: seq<nat>, q: seq<nat>, j: nat)
    requires Inverse(p, q) && Inverse(q, p) && j < |p|
    ensures Inverse(CutAt(p, q, j), CutAt(q, p, p[j]))
  {
    var i := p[j];
    var p', q' := CutAt(p, q, j), CutAt(q, p, i);
    forall k | 0 <= k < |p'| ensures p'[k] < |p'| && q'[p'[k]] == k {
      assert Skip(i, p'[k]) == p[Skip(j, k)];
      assert q[p[Skip(j, k)]] == Skip(j, k);
    }
  }

  /** Taking the same element out of both lists leaves one a reordering of the other. */
  lemma CutPermuted(a: seq<JSON>, b: seq<JSON>, p: seq<nat>, q: seq<nat>, i: nat)
    returns (p': seq<nat>, q': seq<nat>)
    requires PermutedBy(a, b, p, q) && i < |a|
    ensures PermutedBy(Cut(a, i), Cut(b, q[i]), p', q')
  {
    var j := q[i];
    p', q' := CutAt(p, q, j), CutAt(q, p, i);
    CutInverse(p, q, j);
    CutInverse(q, p, i);
    forall k | 0 <= k < |p'| ensures Cut(b, j)[k] == Cut(a, i)[p'[k]] {
      assert Skip(i, p'[k]) == p[Skip(j, k)];
    }
    assert forall k | 0 <= k < |p'| :: p'[k] < |p'| && q'[k] < |p'| && q'[p'[k]] == k && p'[q'[k]] == k;
  }

  /**
   * A removal through a predicate gives the same array in the other order; one of the selected element itself
   * gives what is left of it, in what is left of the order.
   */
  lemma PermutationPermutesRemovals(
    show: Printer, a: seq<JSON>, b: seq<JSON>, p: seq<nat>, q: seq<nat>, segs: Path)
    returns (p': seq<nat>, q': seq<nat>)
    requires segs != [] && ParsePredicate(segs[0]).Some? && PermutedBy(a, b, p, q)
    ensures var x, y := RemoveAt(show, Arr(a), segs), RemoveAt(show, Arr(b), segs);
            x.Arr? && y.Arr? && PermutedBy(x.items, y.items, p', q')
    ensures |segs| > 1 || SlotOf(show, Arr(a), segs[0]) == Gone ==> p' == p && q' == q
  {
    p', q' := p, q;
    var x, y := SlotFollowsPermutation(show, a, b, p, q, segs[0]);
    if x.At? {
      if |segs| == 1 {
        RemoveSlot(show, a, segs, x.step.i);
        RemoveSlot(show, b, segs, y.step.i);
        p', q' := CutPermuted(a, b, p, q, x.step.i);
      } else {
        RemoveInSlot(show, a, segs, x.step.i);
        RemoveInSlot(show, b, segs, y.step.i);
        PutPermuted(a, b, p, q, x.step.i, RemoveAt(show, a[x.step.i], segs[1..]));
      }
    }
  }
}

module RemoveLaws {
  import opened Options
  import opened Json
  import opened Segments
  import opened Nested
  import opened NestedSteps

  /** The path was found and its last segment names a map key. */
  predicate EndsAtKey(show: Printer, c: JSON, segs: Path) {
    segs != [] && match Locate(show, c, segs) case Some(l) => |l| > 0 && l[|l| - 1].Key? case None => false
  }

  lemma {:induction false} RemovedIsAbsent(show: Printer, c: JSON, segs: Path)
    requires EndsAtKey(show, c, segs)
    ensures Get(show, RemoveAt(show, c, segs), segs) == Absent
    decreases |segs|
  {
    SlotFits(show, c, segs[0]);
    var st := SlotOf(show, c, segs[0]).step;
    if |segs| > 1 {
      var child := Child(c, st).value;
      var l := Locate(show, c, segs).value;
      LocateLength(show, child, segs[1..]);
      assert l[1..] == Locate(show, child, segs[1..]).value;
      RemovedIsAbsent(show, child, segs[1..]);
      var n := RemoveAt(show, child, segs[1..]);
      SlotAfterPut(show, c, segs[0], n);
      PutThenChild(c, st, n, st);
    }
  }

  lemma {:induction false} LocateLength(show: Printer, c: JSON, segs: Path)
    ensures Locate(show, c, segs).Some? ==> |Locate(show, c, segs).value| == |segs|
    decreases |segs|
  {
    if segs != [] {
      match SlotOf(show, c, segs[0])
      case At(st) => if Child(c, st).Some? { LocateLength(show, Child(c, st).value, segs[1..]); }
      case _ =>
    }
  }

  lemma PutInPlace(c: JSON, st: Step, v: JSON, other: Step)
    requires Child(c, st).Some? && other != st
    ensures Fits(c, st) && Child(Put(c, st, v), other) == Child(c, other)
  {}

  /** A path that is found goes one step to a child, and on from there. */
  lemma LocateStep(show: Printer, c: JSON, segs: Path)
    requires segs != [] && Locate(show, c, segs).Some?
    ensures SlotOf(show, c, segs[0]).At?
    ensures var st := SlotOf(show, c, segs[0]).step;
            && Fits(c, st) && Child(c, st).Some? && Locate(show, Child(c, st).value, segs[1..]).Some?
            && Locate(show, c, segs).value == [st] + Locate(show, Child(c, st).value, segs[1..]).value
            && |Locate(show, c, segs).value| == |segs|
  {
    SlotFits(show, c, segs[0]);
    LocateLength(show, c, segs);
  }

  lemma Below(c: JSON, st: Step, l: seq<Step>)
    ensures ChildAt(c, [st] + l) == match Child(c, st) case Some(x) => ChildAt(x, l) case None => None
  {
    assert ([st] + l)[1..] == l;
  }

  lemma DropKeepsOtherKeys(c: JSON, st: Step, other: Step)
    requires Child(c, st).Some? && st.Key? && other != st
    ensures Child(Drop(c, st), other) == Child(c, other)
  {}

  /** Removing a map key changes no other location. */
  lemma {:induction false} RemoveChangesOnlyItsTarget(show: Printer, c: JSON, segs: Path, l: seq<Step>)
    requires EndsAtKey(show, c, segs)
    requires Diverges(Locate(show, c, segs).value, l)
    ensures ChildAt(RemoveAt(show, c, segs), l) == ChildAt(c, l)
    decreases |segs|
  {
    LocateStep(show, c, segs);
    var st := SlotOf(show, c, segs[0]).step;
    if |segs| == 1 {
      DropKeepsOtherKeys(c, st, l[0]);
    } else {
      var child := Child(c, st).value;
      var n := RemoveAt(show, child, segs[1..]);
      LocateStep(show, child, segs[1..]);
      if l[0] == st {
        PutThenChild(c, st, n, st);
        RemoveChangesOnlyItsTarget(show, child, segs[1..], l[1..]);
      } else {
        PutInPlace(c, st, n, l[0]);
      }
    }
  }

  /** Every container on the way is of the kind the next segment asks for. */
  predicate KindsMatch(show: Printer, c: JSON, segs: Path)
    decreases |segs|
  {
    |segs| > 1 && SlotOf(show, c, segs[0]).At? && Child(c, SlotOf(show, c, segs[0]).step).Some? ==>
      var child := Child(c, SlotOf(show, c, segs[0]).step).value;
      ContainerMatches(child, segs[1]) && KindsMatch(show, child, segs[1..])
  }

  /** Every predicate on the way still selects its element once the value is gone. */
  predicate SurvivesRemoval(show: Printer, c: JSON, segs: Path)
    decreases |segs|
  {
    |segs| > 1 && SlotOf(show, c, segs[0]).At? && Child(c, SlotOf(show, c, segs[0]).step).Some? ==>
      var child := Child(c, SlotOf(show, c, segs[0]).step).value;
      && (c.Arr? && ParsePredicate(segs[0]).Some? ==>
            Selects(show, RemoveAt(show, child, segs[1..]), ParsePredicate(segs[0]).value))
      && SurvivesRemoval(show, child, segs[1..])
  }

  lemma PutTwice(c: JSON, st: Step, n: JSON, m: JSON)
    requires Fits(c, st)
    ensures Fits(Put(c, st, n), st) && Put(Put(c, st, n), st, m) == Put(c, st, m)
  {}

  lemma PutBack(c: JSON, st: Step, n: JSON, m: JSON)
    requires Child(c, st).Some?
    ensures Fits(c, st) && Fits(Put(c, st, n), st)
    ensures Put(Put(c, st, n), st, m) == Put(c, st, m)
    ensures Put(c, st, m) == c <==> m == Child(c, st).value
  {
    assert Child(Put(c, st, m), st) == Some(m);
  }

  /** One step of a write that goes on into an existing child of the right kind. */
  lemma SetThrough(show: Printer, c: JSON, v: JSON, segs: Path, st: Step)
    requires |segs| > 1 && SlotOf(show, c, segs[0]) == At(st) && Child(c, st).Some?
    requires ContainerMatches(Child(c, st).value, segs[1])
    ensures SetAt(show, c, v, segs)
            == match SetAt(show, Child(c, st).value, v, segs[1..])
               case Written(m) => Written(Put(c, st, m))
               case Refused(e) => Refused(e)
  {}

  lemma RemoveThrough(show: Printer, c: JSON, segs: Path, st: Step)
    requires |segs| > 1 && SlotOf(show, c, segs[0]) == At(st) && Child(c, st).Some?
    ensures Fits(c, st) && RemoveAt(show, c, segs) == Put(c, st, RemoveAt(show, Child(c, st).value, segs[1..]))
  {}

  /** Setting the old value back restores the document exactly when no predicate loses its element. */
  lemma {:induction false} SettingBackRestores(show: Printer, c: JSON, segs: Path, v: JSON)
    requires EndsAtKey(show, c, segs) && KindsMatch(show, c, segs)
    requires Get(show, c, segs) == Found(v)
    ensures SetAt(show, RemoveAt(show, c, segs), v, segs) == Written(c) <==> SurvivesRemoval(show, c, segs)
    decreases |segs|
  {
    SlotFits(show, c, segs[0]);
    var st := SlotOf(show, c, segs[0]).step;
    var child, rest := Child(c, st).value, segs[1..];
    LocateLength(show, child, rest);
    assert Locate(show, c, segs).value[1..] == Locate(show, child, rest).value;
    if |segs| == 1 {
      assert Locate(show, child, rest) == Some([]);
      assert c.fields == (c.fields - {st.k})[st.k := child];
    } else {
      SettingBackRestores(show, child, rest, v);
      var n := RemoveAt(show, child, rest);
      RemoveThrough(show, c, segs, st);
      var removed := Put(c, st, n);
      SlotAfterPut(show, c, segs[0], n);
      PutThenChild(c, st, n, st);
      RemoveKeepsKind(show, child, rest);
      if SlotOf(show, removed, segs[0]) == At(st) {
        SetThrough(show, removed, v, segs, st);
        match SetAt(show, n, v, rest)
        case Written(m) => PutBack(c, st, n, m);
        case Refused(_) =>
      }
    }
  }

  /** With no predicate ending the path or leading to the key it tests, nothing is lost. */
  lemma {:induction false} OtherKeysSurvive(show: Printer, c: JSON, segs: Path)
    requires EndsAtKey(show, c, segs) && KindsMatch(show, c, segs)
    requires forall i | 0 <= i < |segs| - 1 && ParsePredicate(segs[i]).Some? ::
               !WantsArray(segs[i + 1]) && segs[i + 1] != ParsePredicate(segs[i]).value.key
    ensures SurvivesRemoval(show, c, segs)
    decreases |segs|
  {
    if |segs| > 1 {
      var st := SlotOf(show, c, segs[0]).step;
      var child, rest := Child(c, st).value, segs[1..];
      LocateLength(show, child, rest);
      assert Locate(show, c, segs).value[1..] == Locate(show, child, rest).value;
      forall i | 0 <= i < |rest| - 1 && ParsePredicate(rest[i]).Some?
        ensures !WantsArray(rest[i + 1]) && rest[i + 1] != ParsePredicate(rest[i]).value.key
      {
        assert rest[i] == segs[i + 1] && rest[i + 1] == segs[i + 2];
      }
      OtherKeysSurvive(show, child, rest);
      if c.Arr? && ParsePredicate(segs[0]).Some? {
        assert Selects(show, child, ParsePredicate(segs[0]).value);
        assert rest[0] == segs[1];
      }
    }
  }

  lemma {:induction false} RemoveKeepsKind(show: Printer, c: JSON, segs: Path)
    requires segs != []
    ensures var r := RemoveAt(show, c, segs); (r.Obj? <==> c.Obj?) && (r.Arr? <==> c.Arr?)
  {
    SlotFits(show, c, segs[0]);
  }

  lemma DropShifts(c: JSON, st: Step, j: nat)
    requires Child(c, st).Some? && st.Idx?
    ensures Child(Drop(c, st), Idx(j)) == Child(c, Idx(if j < st.i then j else j + 1))
  {}

  /** Removing takes the target out of its parent container. */
  lemma {:induction false} RemoveDropsFromParent(show: Printer, c: JSON, segs: Path)
    requires segs != [] && Locate(show, c, segs).Some?
    ensures var p := Locate(show, c, segs).value;
            && |p| == |segs|
            && var parent := ChildAt(c, p[..|p| - 1]);
            && parent.Some? && Child(parent.value, p[|p| - 1]).Some?
            && ChildAt(RemoveAt(show, c, segs), p[..|p| - 1]) == Some(Drop(parent.value, p[|p| - 1]))
    decreases |segs|
  {
    LocateStep(show, c, segs);
    var st := SlotOf(show, c, segs[0]).step;
    if |segs| > 1 {
      var child, n := Child(c, st).value, RemoveAt(show, Child(c, st).value, segs[1..]);
      RemoveDropsFromParent(show, child, segs[1..]);
      PutThenChild(c, st, n, st);
      var p, tail := Locate(show, c, segs).value, Locate(show, child, segs[1..]).value;
      assert p[..|p| - 1] == [st] + tail[..|tail| - 1];
      Below(Put(c, st, n), st, tail[..|tail| - 1]);
      Below(c, st, tail[..|tail| - 1]);
    }
  }

  lemma {:induction false} ChildAtJoin(c: JSON, p: seq<Step>, q: seq<Step>)
    ensures ChildAt(c, p + q) == match ChildAt(c, p) case Some(x) => ChildAt(x, q) case None => None
  {
    if p == [] {
      assert p + q == q;
    } else {
      assert p + q == [p[0]] + (p[1..] + q);
      Below(c, p[0], p[1..] + q);
      if Child(c, p[0]).Some? { ChildAtJoin(Child(c, p[0]).value, p[1..], q); }
    }
  }

  /** Removing an array element shifts every later element down by one. */
  lemma ArrayRemoveShifts(show: Printer, c: JSON, segs: Path, j: nat, l: seq<Step>)
    requires segs != [] && Locate(show, c, segs).Some?
    requires var p := Locate(show, c, segs).value; |p| > 0 && p[|p| - 1].Idx?
    ensures var p := Locate(show, c, segs).value;
            var at, i := p[..|p| - 1], p[|p| - 1].i;
            ChildAt(RemoveAt(show, c, segs), at + ([Idx(j)] + l))
            == ChildAt(c, at + ([Idx(if j < i then j else j + 1)] + l))
  {
    var p := Locate(show, c, segs).value;
    RemoveDropsFromParent(show, c, segs);
    var at, st := p[..|p| - 1], p[|p| - 1];
    var k := if j < st.i then j else j + 1;
    var parent := ChildAt(c, at).value;
    ChildAtJoin(RemoveAt(show, c, segs), at, [Idx(j)] + l);
    ChildAtJoin(c, at, [Idx(k)] + l);
    DropShifts(parent, st, j);
    Below(Drop(parent, st), Idx(j), l);
    Below(parent, Idx(k), l);
  }
}
