/** nested.go on Go's own maps and slices: the in-place algorithms, proved to do what their specification says. */
module InPlace {
  import opened Options
  import opened Json
  import opened Segments
  import opened Nested

  /** An `any` as Go holds it: a scalar, a map, or a slice of a backing array. */
  datatype Value = Scalar(j: JSON) | MapRef(m: GoMap) | SliceRef(a: array<Value>, len: nat)

  class GoMap {
    var entries: map<string, Value>

    constructor ()
      ensures entries == map[]
    {
      entries := map[];
    }
  }

  /** What the heap below a value looks like: each container, and what it contains. */
  datatype Tree =
    | Leaf(j: JSON)
    | MapAt(m: GoMap, kids: map<string, Tree>)
    | SliceAt(a: array<Value>, items: seq<Tree>)

  function RefOf(t: Tree): Value {
    match t
    case Leaf(j) => Scalar(j)
    case MapAt(m, _) => MapRef(m)
    case SliceAt(a, items) => SliceRef(a, |items|)
  }

  /** The document a tree stands for. */
  function Doc(t: Tree): JSON {
    match t
    case Leaf(j) => j
    case MapAt(_, kids) => Obj(map k | k in kids :: Doc(kids[k]))
    case SliceAt(_, items) => Arr(seq(|items|, i requires 0 <= i < |items| => Doc(items[i])))
  }

  ghost function Objects(t: Tree): (r: set<object>)
    ensures t.MapAt? ==> t.m in r && forall k | k in t.kids :: Objects(t.kids[k]) <= r
    ensures t.SliceAt? ==> t.a in r && forall i | 0 <= i < |t.items| :: Objects(t.items[i]) <= r
    decreases t, 1
  {
    match t
    case Leaf(_) => {}
    case MapAt(m, _) => {m} + Below(t)
    case SliceAt(a, _) => {a} + Below(t)
  }

  ghost function Below(t: Tree): set<object>
    decreases t, 0
  {
    if t.MapAt? then set k, o | k in t.kids && o in Objects(t.kids[k]) :: o
    else if t.SliceAt? then set i, o | 0 <= i < |t.items| && o in Objects(t.items[i]) :: o
    else {}
  }

  /** No container is reached twice. */
  ghost predicate Apart(t: Tree) {
    match t
    case Leaf(j) => !j.Obj? && !j.Arr?
    case MapAt(m, kids) =>
      && (forall k | k in kids :: Apart(kids[k]) && m !in Objects(kids[k]))
      && forall j, k | j in kids && k in kids && j != k :: Objects(kids[j]) !! Objects(kids[k])
    case SliceAt(a, items) =>
      && (forall i | 0 <= i < |items| :: Apart(items[i]) && a !in Objects(items[i]))
      && forall i, j | 0 <= i < j < |items| :: Objects(items[i]) !! Objects(items[j])
  }

  /** The heap is as the tree says. A backing array may be longer than the slice. */
  ghost predicate Holds(t: Tree)
    reads Objects(t)
    decreases t
  {
    match t
    case Leaf(_) => true
    case MapAt(m, kids) =>
      m.entries.Keys == kids.Keys && forall k | k in kids ::
        m.entries[k] == RefOf(kids[k]) && Holds(kids[k])
    case SliceAt(a, items) =>
      |items| <= a.Length && forall i | 0 <= i < |items| ::
        a[i] == RefOf(items[i]) && Holds(items[i])
  }

  ghost predicate Held(v: Value, t: Tree)
    reads Objects(t)
  {
    v == RefOf(t) && Apart(t) && Holds(t)
  }

  lemma Allocated(t: Tree)
    ensures forall o | o in Objects(t) :: allocated(o)
    decreases t
  {
    match t
    case Leaf(_) =>
    case MapAt(_, kids) =>
      forall k | k in kids ensures forall o | o in Objects(kids[k]) :: allocated(o) { Allocated(kids[k]); }
    case SliceAt(_, items) =>
      forall i | 0 <= i < |items| ensures forall o | o in Objects(items[i]) :: allocated(o) { Allocated(items[i]); }
  }

  // ----- children of a tree -----

  predicate Kind(t: Tree, st: Step) {
    (t.MapAt? && st.Key?) || (t.SliceAt? && st.Idx?)
  }

  ghost function KidOrNil(t: Tree, st: Step): Tree {
    if t.MapAt? && st.Key? && st.k in t.kids then t.kids[st.k]
    else if t.SliceAt? && st.Idx? && st.i < |t.items| then t.items[st.i]
    else Leaf(Null)
  }

  /** All children but the one at `st` are held. */
  ghost predicate OthersHeld(t: Tree, st: Step)
    requires Kind(t, st)
    reads Objects(t)
  {
    match t
    case MapAt(m, kids) =>
      m.entries.Keys == kids.Keys
      && forall k | k in kids && k != st.k :: m.entries[k] == RefOf(kids[k]) && Holds(kids[k])
    case SliceAt(a, items) =>
      |items| <= a.Length && forall i | 0 <= i < |items| && i != st.i :: a[i] == RefOf(items[i]) && Holds(items[i])
  }

  /** `n` may take the place of the child at `st`. */
  ghost predicate FitsAt(t: Tree, st: Step, n: Tree)
    requires Kind(t, st)
  {
    match t
    case MapAt(m, kids) => m !in Objects(n) && forall k | k in kids && k != st.k :: Objects(kids[k]) !! Objects(n)
    case SliceAt(a, items) =>
      a !in Objects(n) && forall i | 0 <= i < |items| && i != st.i :: Objects(items[i]) !! Objects(n)
  }

  lemma NewKidFits(t: Tree, st: Step, n: Tree)
    requires Kind(t, st) && Apart(t) && Objects(n) !! (Objects(t) - Objects(KidOrNil(t, st)))
    ensures FitsAt(t, st, n)
  {
    KidsApart(t, st);
  }

  lemma KidsApart(t: Tree, st: Step)
    requires Kind(t, st) && Apart(t)
    ensures FitsAt(t, st, KidOrNil(t, st)) && Apart(KidOrNil(t, st)) && Objects(KidOrNil(t, st)) <= Objects(t)
  {}

  lemma KidDoc(t: Tree, st: Step)
    requires Kind(t, st)
    ensures Doc(KidOrNil(t, st)) == ChildOrNull(Doc(t), st) && Fits(Doc(t), st)
  {}

  /** The tree with another child at `st`, which a slice already has. */
  ghost function With(t: Tree, st: Step, n: Tree): Tree
    requires Kind(t, st) && (t.SliceAt? ==> st.i < |t.items|)
  {
    if t.MapAt? then MapAt(t.m, t.kids[st.k := n]) else SliceAt(t.a, t.items[st.i := n])
  }

  lemma WithDoc(t: Tree, st: Step, n: Tree)
    requires Kind(t, st) && (t.SliceAt? ==> st.i < |t.items|)
    ensures Fits(Doc(t), st) && Doc(With(t, st, n)) == Put(Doc(t), st, Doc(n))
  {}

  lemma WithObjects(t: Tree, st: Step, n: Tree)
    requires Kind(t, st) && (t.SliceAt? ==> st.i < |t.items|)
    ensures Objects(With(t, st, n)) <= Objects(t) + Objects(n)
  {}

  lemma WithApart(t: Tree, st: Step, n: Tree)
    requires Kind(t, st) && (t.SliceAt? ==> st.i < |t.items|) && Apart(t) && Apart(n) && FitsAt(t, st, n)
    ensures Apart(With(t, st, n))
  {}

  // ----- reading -----

  /** The document below a value, as fmt.Sprintf walks it. */
  method Load(v: Value, ghost t: Tree) returns (j: JSON)
    requires v == RefOf(t) && Holds(t)
    ensures j == Doc(t)
    decreases t
  {
    Allocated(t);
    match v {
      case Scalar(x) => j := x;
      case MapRef(m) =>
        var fields: map<string, JSON> := map[];
        var todo := m.entries.Keys;
        while todo != {}
          invariant Holds(t)
          invariant todo <= m.entries.Keys && fields == map k | k in t.kids && k !in todo :: Doc(t.kids[k])
          decreases todo
        {
          var k :| k in todo;
          var x := Load(m.entries[k], t.kids[k]);
          fields, todo := fields[k := x], todo - {k};
        }
        j := Obj(fields);
      case SliceRef(a, len) =>
        var items: seq<JSON> := [];
        for i := 0 to len
          invariant Holds(t)
          invariant |items| == i && forall k | 0 <= k < i :: items[k] == Doc(t.items[k])
        {
          var x := Load(a[i], t.items[i]);
          items := items + [x];
        }
        j := Arr(items);
    }
  }

  method MatchPredicate(show: Printer, a: array<Value>, len: nat, p: Predicate, ghost t: Tree) returns (m: Match)
    requires SliceRef(a, len) == RefOf(t) && Holds(t) && Apart(t)
    ensures m == MatchItems(show, Doc(t).items, p)
  {
    Allocated(t);
    ghost var items := Doc(t).items;
    var hit := -1;
    for i := 0 to len
      invariant Holds(t) && -1 <= hit < i
      invariant MatchItems(show, items[..i], p) == if hit < 0 then Zero else One(hit)
    {
      MatchOneMore(show, items, p, i);
      var selected := Satisfies(show, a[i], p, t.items[i]);
      if selected {
        if hit >= 0 { return Many; }
        hit := i;
      }
    }
    assert items[..len] == items;
    m := if hit < 0 then Zero else One(hit);
  }

  lemma MatchOneMore(show: Printer, items: seq<JSON>, p: Predicate, i: nat)
    requires i < |items|
    ensures var m := MatchItems(show, items[..i], p);
            && MatchItems(show, items[..i + 1], p)
               == (if !Selects(show, items[i], p) then m else if m.Zero? then One(i) else Many)
            && (m.One? && Selects(show, items[i], p) ==> MatchItems(show, items, p).Many?)
  {
    assert items[..i + 1][..i] == items[..i];
    var m := MatchItems(show, items[..i], p);
    if m.One? && Selects(show, items[i], p) {
      assert items[m.idx] == items[..i][m.idx];
      assert Selects(show, items[m.idx], p);
    }
  }

  method Satisfies(show: Printer, v: Value, p: Predicate, ghost t: Tree) returns (r: bool)
    requires v == RefOf(t) && Holds(t) && Apart(t)
    ensures r == Selects(show, Doc(t), p)
  {
    if !v.MapRef? || p.key !in v.m.entries { return false; }
    var x := Load(v.m.entries[p.key], t.kids[p.key]);
    r := show(x) == p.want;
  }

  /** The array element a segment addresses; an index may lie past the end. */
  method Resolve(show: Printer, a: array<Value>, len: nat, seg: string, ghost t: Tree) returns (slot: Slot)
    requires SliceRef(a, len) == RefOf(t) && Holds(t) && Apart(t)
    ensures slot == SlotOf(show, Doc(t), seg)
  {
    var pred := ParsePredicate(seg);
    if pred.Some? {
      var m := MatchPredicate(show, a, len, pred.value, t);
      match m {
        case Many => return Bad(Ambiguous);
        case Zero => return Gone;
        case One(i) => return At(Idx(i));
      }
    }
    var i := ArrayIndex(seg);
    if i.None? { return Bad(NotAnIndex); }
    return At(Idx(i.value));
  }

  datatype Lookup = Hit(v: Value) | Miss | Fails(error: PathError)

  /** One step of the cursor. */
  method Enter(show: Printer, cur: Value, seg: string, ghost t: Tree) returns (r: Lookup)
    requires Held(cur, t)
    ensures var slot := SlotOf(show, Doc(t), seg);
            if slot.Bad? then r == Fails(slot.error)
            else if slot.Gone? || Child(Doc(t), slot.step).None? then r == Miss
            else Kind(t, slot.step) && r == Hit(RefOf(KidOrNil(t, slot.step)))
  {
    Allocated(t);
    match cur {
      case MapRef(c) =>
        return if seg !in c.entries then Miss else Hit(c.entries[seg]);
      case SliceRef(a, len) =>
        var slot := Resolve(show, a, len, seg, t);
        assert Holds(t);
        if slot.Bad? { return Fails(slot.error); }
        return if slot.Gone? || slot.step.i >= len then Miss else Hit(a[slot.step.i]);
      case Scalar(_) => return Fails(NotAContainer);
    }
  }

  /** The subtree a path leads to. */
  ghost function Reached(show: Printer, t: Tree, segments: Path): Option<Tree>
    decreases |segments|
  {
    if segments == [] then Some(t)
    else match SlotOf(show, Doc(t), segments[0])
      case At(st) =>
        if Child(Doc(t), st).Some? then Reached(show, KidOrNil(t, st), segments[1..]) else None
      case _ => None
  }

  lemma ReachedStep(show: Printer, t: Tree, st: Step, segments: Path)
    requires segments != [] && Kind(t, st) && SlotOf(show, Doc(t), segments[0]) == At(st) && Child(Doc(t), st).Some?
    ensures Get(show, Doc(KidOrNil(t, st)), segments[1..]) == Get(show, Doc(t), segments)
  {
    KidDoc(t, st);
  }

  lemma KidHeld(t: Tree, st: Step)
    requires Kind(t, st) && Apart(t) && Holds(t)
    ensures Held(RefOf(KidOrNil(t, st)), KidOrNil(t, st))
  {}

  /** What is found is not a copy: it is the value that stands there. */
  method GetNestedField(show: Printer, obj: Value, segments: Path, ghost t: Tree) returns (r: Lookup)
    requires Held(obj, t)
    ensures var found, at := Get(show, Doc(t), segments), Reached(show, t, segments);
            if found.Found?
            then at.Some? && r == Hit(RefOf(at.value)) && Holds(at.value) && Doc(at.value) == found.value
            else r == if found.Absent? then Miss else Fails(found.error)
  {
    var cur := obj;
    ghost var at := t;
    for i := 0 to |segments|
      invariant Held(cur, at)
      invariant Get(show, Doc(at), segments[i..]) == Get(show, Doc(t), segments)
      invariant Reached(show, at, segments[i..]) == Reached(show, t, segments)
    {
      var seg := segments[i];
      assert segments[i..][0] == seg && segments[i..][1..] == segments[i + 1..];
      Allocated(at);
      r := Enter(show, cur, seg, at);
      if !r.Hit? { return; }
      ghost var st := SlotOf(show, Doc(at), seg).step;
      KidHeld(at, st);
      ReachedStep(show, at, st, segments[i..]);
      cur, at := r.v, KidOrNil(at, st);
    }
    r := Hit(cur);
  }

  // ----- growing a slice -----

  /** `after` is the slice `t` with nil elements added, in the same backing array or another. */
  ghost predicate Grown(t: Tree, after: Tree) {
    && t.SliceAt? && after.SliceAt? && t.items <= after.items && (after.a == t.a || after.a !in Objects(t))
    && forall i | |t.items| <= i < |after.items| :: after.items[i] == Leaf(Null)
  }

  method UseSpare(a: array<Value>, len: nat, ghost t: Tree, ghost cur: Tree)
    requires Grown(t, cur) && Apart(t) && Holds(t)
    requires cur.a == a && |cur.items| == len < a.Length && Apart(cur) && Holds(cur)
    modifies a
    ensures Holds(t) && Holds(cur) && a[len] == Scalar(Null)
  {
    a[len] := Scalar(Null);
  }

  method Enlarge(a: array<Value>, len: nat, ghost t: Tree, ghost cur: Tree) returns (b: array<Value>)
    requires len == a.Length && Holds(t) && Holds(cur)
    ensures fresh(b) && b !in Objects(t) && b !in Objects(cur) && Holds(t) && Holds(cur)
    ensures b.Length > len && (forall i | 0 <= i < len :: b[i] == a[i]) && b[len] == Scalar(Null)
  {
    Allocated(t);
    Allocated(cur);
    var spare: nat :| true;
    var cap: nat := len + 1 + spare;
    b := new Value[cap](i requires 0 <= i reads a => if i < a.Length then a[i] else Scalar(Null));
  }

  /** append(c, nil): into spare capacity if there is any, else into a larger copy. `t` is the slice at first. */
  method AppendNil(a: array<Value>, len: nat, ghost t: Tree, ghost cur: Tree)
    returns (b: array<Value>, ghost after: Tree)
    requires Grown(t, cur) && Apart(t) && Holds(t)
    requires cur.a == a && |cur.items| == len && Apart(cur) && Holds(cur)
    modifies a
    ensures Holds(t) && (b == a || fresh(b)) && Grown(t, after)
    ensures after == SliceAt(b, cur.items + [Leaf(Null)]) && Apart(after) && Holds(after)
  {
    if len < a.Length {
      UseSpare(a, len, t, cur);
      b := a;
    } else {
      b := Enlarge(a, len, t, cur);
    }
    after := SliceAt(b, cur.items + [Leaf(Null)]);
    OneMoreNil(cur, b);
  }

  lemma OneMoreNil(t: Tree, b: array<Value>)
    requires t.SliceAt? && Apart(t) && Holds(t) && |t.items| < b.Length && b[|t.items|] == Scalar(Null)
    requires b == t.a || b !in Objects(t)
    requires forall i | 0 <= i < |t.items| :: b[i] == t.a[i]
    ensures Held(SliceRef(b, |t.items| + 1), SliceAt(b, t.items + [Leaf(Null)]))
  {
    NilKeepsApart(t, b);
    NilKeepsHolds(t, b);
  }

  lemma NilKeepsHolds(t: Tree, b: array<Value>)
    requires t.SliceAt? && Holds(t) && |t.items| < b.Length && b[|t.items|] == Scalar(Null)
    requires forall i | 0 <= i < |t.items| :: b[i] == t.a[i]
    ensures Holds(SliceAt(b, t.items + [Leaf(Null)]))
  {
    var items := t.items + [Leaf(Null)];
    assert items[|t.items|] == Leaf(Null);
    forall i | 0 <= i < |items| ensures b[i] == RefOf(items[i]) && Holds(items[i]) {
      if i < |t.items| { assert items[i] == t.items[i]; }
    }
  }

  lemma NilKeepsApart(t: Tree, b: array<Value>)
    requires t.SliceAt? && Apart(t) && (b == t.a || b !in Objects(t))
    ensures Apart(SliceAt(b, t.items + [Leaf(Null)]))
  {
    var after := SliceAt(b, t.items + [Leaf(Null)]);
    forall i | 0 <= i < |after.items| ensures Apart(after.items[i]) && b !in Objects(after.items[i]) {
      assert i < |t.items| ==> after.items[i] == t.items[i];
    }
  }

  /** Appends nil elements until `idx` is in range. */
  method Grow(a: array<Value>, len: nat, idx: nat, ghost t: Tree, ghost other: set<object>)
    returns (b: array<Value>, n: nat, ghost after: Tree)
    requires t.SliceAt? && t.a == a && |t.items| == len && Apart(t) && Holds(t) && Objects(t) !! other
    modifies a
    ensures Holds(t) && (b == a || fresh(b)) && Grown(t, after) && Objects(after) !! other
    ensures after.a == b && |after.items| == n == (if idx < len then len else idx + 1) && Apart(after) && Holds(after)
    ensures idx < len ==> after == t
  {
    b, n, after := a, len, t;
    while idx >= n
      invariant Holds(t) && (b == a || fresh(b)) && Grown(t, after)
      invariant if n == len then after == t else len < n <= idx + 1
      invariant after.a == b && |after.items| == n && Apart(after) && Holds(after)
      decreases idx - n
    {
      b, after := AppendNil(b, n, t, after);
      n := n + 1;
    }
    DocGrown(t, after);
  }

  lemma DocGrown(t: Tree, after: Tree)
    requires Grown(t, after)
    ensures Doc(after) == Arr(Pad(Doc(t).items, |after.items|))
    ensures forall o | o in Objects(after) :: o == after.a || o in Objects(t)
  {}

  // ----- writing -----

  datatype Result = Done(v: Value) | Refuses(error: PathError)

  method MakeContainer(seg: string) returns (v: Value, ghost t: Tree)
    ensures Held(v, t) && fresh(Objects(t)) && Doc(t) == NewContainerFor(seg)
  {
    if WantsArray(seg) {
      var a := new Value[0];
      v, t := SliceRef(a, 0), SliceAt(a, []);
    } else {
      var m := new GoMap();
      v, t := MapRef(m), MapAt(m, map[]);
    }
  }

  /** What a write goes on with: the child, or a new container if it is of the wrong kind. */
  method ChildFor(child: Value, seg: string, ghost kid: Tree, ghost t: Tree, ghost v: Tree, ghost keep: set<object>)
    returns (w: Value, ghost at: Tree)
    requires Held(child, kid) && Objects(kid) <= Objects(t) && Holds(t) && Holds(v)
    requires Objects(t) !! Objects(v) && Objects(kid) !! keep
    ensures Held(w, at) && Doc(at) == Descend(Doc(kid), seg)
    ensures Holds(t) && Holds(v) && Objects(at) !! Objects(v) && Objects(at) !! keep
    ensures at == kid || (fresh(Objects(at)) && Objects(at) !! Objects(t))
  {
    Allocated(t);
    Allocated(v);
    w, at := child, kid;
    if !(if w.MapRef? then !WantsArray(seg) else w.SliceRef? && WantsArray(seg)) {
      w, at := MakeContainer(seg);
    }
  }

  method SetKey(c: GoMap, seg: string, value: Value, ghost t: Tree, ghost n: Tree)
    requires t.MapAt? && t.m == c && Apart(t) && OthersHeld(t, Key(seg))
    requires Held(value, n) && FitsAt(t, Key(seg), n)
    modifies c
    ensures Held(MapRef(c), With(t, Key(seg), n))
  {
    WithApart(t, Key(seg), n);
    c.entries := c.entries[seg := value];
  }

  /** What is written at a segment: the value itself, or the child with the rest of the path written in it. */
  function WrittenAt(show: Printer, child: JSON, v: JSON, rest: Path): Write {
    if rest == [] then Written(v) else SetAt(show, Descend(child, rest[0]), v, rest)
  }

  /** One level of a write, in terms of the child it goes through. */
  lemma SetAtStep(show: Printer, t: Tree, st: Step, v: JSON, segments: Path)
    requires segments != [] && Kind(t, st) && SlotOf(show, Doc(t), segments[0]) == At(st)
    ensures Fits(Doc(t), st)
    ensures SetAt(show, Doc(t), v, segments)
            == match WrittenAt(show, Doc(KidOrNil(t, st)), v, segments[1..])
               case Written(n) => Written(Put(Doc(t), st, n))
               case Refused(e) => Refused(e)
  {
    KidDoc(t, st);
  }

  /** How a write ends: done, with a tree that holds none of `keep`. */
  ghost predicate Outcome(w: Write, r: Result, after: Tree, keep: set<object>)
    requires w.Written?
    reads Objects(after)
  {
    r == Done(RefOf(after)) && Held(RefOf(after), after) && Doc(after) == w.doc && Objects(after) !! keep
  }

  /**
   * A refused write leaves every container as it was, wherever it failed; a successful one builds the
   * specified document, takes over no container of `keep`, and a map stays the same map.
   */
  method SetNested(
    show: Printer, container: Value, value: Value, segments: Path,
    ghost t: Tree, ghost v: Tree, ghost keep: set<object>)
    returns (r: Result, ghost after: Tree)
    requires segments != [] && Held(container, t) && Held(value, v) && Objects(t) !! Objects(v)
    requires Objects(t) !! keep && Objects(v) !! keep
    modifies Objects(t)
    ensures var w := SetAt(show, Doc(t), Doc(v), segments);
            if w.Refused? then r == Refuses(w.error) && Holds(t) else Outcome(w, r, after, keep)
    ensures t.MapAt? && r.Done? ==> r.v == container
    decreases |segments|, 1
  {
    match container {
      case MapRef(c) => r, after := SetInMap(show, c, value, segments, t, v, keep);
      case SliceRef(a, len) => r, after := SetInSlice(show, a, len, value, segments, t, v, keep);
      case Scalar(_) => return Refuses(NotAContainer), t;
    }
  }

  method SetInMap(
    show: Printer, c: GoMap, value: Value, segments: Path, ghost t: Tree, ghost v: Tree, ghost keep: set<object>)
    returns (r: Result, ghost after: Tree)
    requires segments != [] && Held(MapRef(c), t) && Held(value, v) && Objects(t) !! Objects(v)
    requires Objects(t) !! keep && Objects(v) !! keep
    modifies Objects(t)
    ensures var w := SetAt(show, Doc(t), Doc(v), segments);
            if w.Refused? then r == Refuses(w.error) && Holds(t) else Outcome(w, r, after, keep)
    ensures r.Done? ==> r.v == MapRef(c)
    decreases |segments|, 0, 0
  {
    var seg, rest := segments[0], segments[1..];
    ghost var st := Key(seg);
    SetAtStep(show, t, st, Doc(v), segments);
    var newChild := value;
    ghost var n := v;
    if rest == [] {
      NewKidFits(t, st, v);
    } else {
      var child := if seg in c.entries then c.entries[seg] else Scalar(Null);
      r, n := SetBelow(show, child, value, rest, t, st, v, keep);
      if r.Refuses? { return r, t; }
      newChild := r.v;
    }
    SetKey(c, seg, newChild, t, n);
    WithDoc(t, st, n);
    WithObjects(t, st, n);
    return Done(MapRef(c)), With(t, st, n);
  }

  /** The recursive write below one child; the other children are left as they were. */
  method SetBelow(
    show: Printer, child: Value, value: Value, rest: Path,
    ghost t: Tree, ghost st: Step, ghost v: Tree, ghost keep: set<object>)
    returns (r: Result, ghost n: Tree)
    requires rest != [] && Kind(t, st) && Apart(t) && Holds(t) && child == RefOf(KidOrNil(t, st))
    requires Held(value, v) && Objects(t) !! Objects(v) && Objects(t) !! keep && Objects(v) !! keep
    modifies Objects(KidOrNil(t, st))
    ensures var w := SetAt(show, Descend(Doc(KidOrNil(t, st)), rest[0]), Doc(v), rest);
            if w.Refused? then r == Refuses(w.error) && Holds(t)
            else Outcome(w, r, n, keep) && OthersHeld(t, st) && FitsAt(t, st, n)
    decreases |rest|, 2
  {
    Allocated(t);
    KidsApart(t, st);
    ghost var kid := KidOrNil(t, st);
    ghost var others := keep + (Objects(t) - Objects(kid));
    var w, at := ChildFor(child, rest[0], kid, t, v, others);
    r, n := SetNested(show, w, value, rest, at, v, others);
    if t.MapAt? {
      forall k | k in t.kids && k != st.k ensures Holds(t.kids[k]) {}
    } else {
      forall i | 0 <= i < |t.items| && i != st.i ensures Holds(t.items[i]) {}
    }
    if r.Done? { NewKidFits(t, st, n); }
  }

  /** In a slice grown to take `idx`, a write of that element is the specified one. */
  lemma GrownPut(t: Tree, grown: Tree, idx: nat, n: JSON)
    requires Grown(t, grown) && |grown.items| == if idx < |t.items| then |t.items| else idx + 1
    ensures KidOrNil(grown, Idx(idx)) == KidOrNil(t, Idx(idx))
    ensures Put(Doc(grown), Idx(idx), n) == Put(Doc(t), Idx(idx), n)
  {
    DocGrown(t, grown);
  }

  method SetItem(
    a: array<Value>, idx: nat, value: Value, ghost t: Tree, ghost grown: Tree, ghost n: Tree, ghost keep: set<object>)
    returns (ghost after: Tree)
    requires Grown(t, grown) && |grown.items| == if idx < |t.items| then |t.items| else idx + 1
    requires grown.a == a && Apart(grown) && OthersHeld(grown, Idx(idx))
    requires Held(value, n) && FitsAt(grown, Idx(idx), n)
    requires Objects(grown) !! keep && Objects(n) !! keep
    modifies a
    ensures RefOf(after) == SliceRef(a, |grown.items|) && Held(RefOf(after), after)
    ensures Doc(after) == Put(Doc(t), Idx(idx), Doc(n)) && Objects(after) !! keep
  {
    after := With(grown, Idx(idx), n);
    StoreItem(a, idx, value, grown, n);
    GrownPut(t, grown, idx, Doc(n));
    WithDoc(grown, Idx(idx), n);
    WithObjects(grown, Idx(idx), n);
  }

  method StoreItem(a: array<Value>, idx: nat, value: Value, ghost t: Tree, ghost n: Tree)
    requires t.SliceAt? && t.a == a && idx < |t.items| && Apart(t) && OthersHeld(t, Idx(idx))
    requires Held(value, n) && FitsAt(t, Idx(idx), n)
    modifies a
    ensures Held(SliceRef(a, |t.items|), With(t, Idx(idx), n))
  {
    WithApart(t, Idx(idx), n);
    a[idx] := value;
  }

  method SetInSlice(
    show: Printer, a: array<Value>, len: nat, value: Value, segments: Path,
    ghost t: Tree, ghost v: Tree, ghost keep: set<object>)
    returns (r: Result, ghost after: Tree)
    requires segments != [] && Held(SliceRef(a, len), t) && Held(value, v) && Objects(t) !! Objects(v)
    requires Objects(t) !! keep && Objects(v) !! keep
    modifies Objects(t)
    ensures var w := SetAt(show, Doc(t), Doc(v), segments);
            if w.Refused? then r == Refuses(w.error) && Holds(t) else Outcome(w, r, after, keep)
    decreases |segments|, 0, 1
  {
    Allocated(t);
    Allocated(v);
    var slot := Resolve(show, a, len, segments[0], t);
    if slot.Bad? { return Refuses(slot.error), t; }
    if slot.Gone? { return Refuses(NoMatch), t; }
    r, after := SetElement(show, a, len, slot.step.i, value, segments, t, v, keep);
  }

  method SetElement(
    show: Printer, a: array<Value>, len: nat, idx: nat, value: Value, segments: Path,
    ghost t: Tree, ghost v: Tree, ghost keep: set<object>)
    returns (r: Result, ghost after: Tree)
    requires segments != [] && Held(SliceRef(a, len), t) && Held(value, v) && Objects(t) !! Objects(v)
    requires Objects(t) !! keep && Objects(v) !! keep && SlotOf(show, Doc(t), segments[0]) == At(Idx(idx))
    modifies Objects(t)
    ensures var w := SetAt(show, Doc(t), Doc(v), segments);
            if w.Refused? then r == Refuses(w.error) && Holds(t) else Outcome(w, r, after, keep)
    decreases |segments|, 0, 0
  {
    Allocated(v);
    var b, len', grown := Grow(a, len, idx, t, keep + Objects(v));
    assert Held(value, v);
    r, after := SetGrown(show, b, len', idx, value, segments[1..], t, grown, v, keep);
    SetAtStep(show, t, Idx(idx), Doc(v), segments);
  }

  method SetGrown(
    show: Printer, a: array<Value>, len: nat, idx: nat, value: Value, rest: Path,
    ghost t: Tree, ghost grown: Tree, ghost v: Tree, ghost keep: set<object>)
    returns (r: Result, ghost after: Tree)
    requires Grown(t, grown) && |grown.items| == if idx < |t.items| then |t.items| else idx + 1
    requires idx < |t.items| ==> grown == t
    requires grown.a == a && |grown.items| == len && Apart(grown) && Holds(grown) && Holds(t)
    requires Held(value, v) && Objects(grown) !! Objects(v) && Objects(grown) !! keep && Objects(v) !! keep
    modifies a, Objects(KidOrNil(t, Idx(idx)))
    ensures var w := WrittenAt(show, Doc(KidOrNil(t, Idx(idx))), Doc(v), rest);
            if w.Refused? then r == Refuses(w.error) && Holds(t)
            else Fits(Doc(t), Idx(idx)) && Outcome(Written(Put(Doc(t), Idx(idx), w.doc)), r, after, keep)
                 && r.v == SliceRef(a, len)
    decreases |rest|, 3
  {
    Allocated(t);
    GrownPut(t, grown, idx, Null);
    if rest == [] {
      NewKidFits(grown, Idx(idx), v);
      after := SetItem(a, idx, value, t, grown, v, keep);
      return Done(SliceRef(a, len)), after;
    }
    var below, n := SetBelow(show, a[idx], value, rest, grown, Idx(idx), v, keep);
    if below.Refuses? { return below, t; }
    after := SetItem(a, idx, below.v, t, grown, n, keep);
    r := Done(SliceRef(a, len));
  }

  // ----- removing -----

  lemma RemoveAtStep(show: Printer, t: Tree, st: Step, segments: Path)
    requires segments != [] && Kind(t, st) && SlotOf(show, Doc(t), segments[0]) == At(st)
    ensures Child(Doc(t), st).Some? ==> Fits(Doc(t), st)
    ensures RemoveAt(show, Doc(t), segments)
            == if Child(Doc(t), st).None? then Doc(t)
               else if |segments| == 1 then Drop(Doc(t), st)
               else Put(Doc(t), st, RemoveAt(show, Doc(KidOrNil(t, st)), segments[1..]))
  {
    KidDoc(t, st);
  }

  /** The container with the value removed, in place; a map stays the same map, a slice may get shorter. */
  method RemoveNested(show: Printer, container: Value, segments: Path, ghost t: Tree)
    returns (r: Value, ghost after: Tree)
    requires segments != [] && Held(container, t)
    modifies Objects(t)
    ensures Held(r, after) && Doc(after) == RemoveAt(show, Doc(t), segments) && Objects(after) <= Objects(t)
    ensures t.MapAt? ==> r == container
    decreases |segments|, 1
  {
    Allocated(t);
    match container {
      case MapRef(c) =>
        r := container;
        if segments[0] in c.entries {
          after := RemoveAtKey(show, c, segments, t);
        } else {
          after := t;
        }
      case SliceRef(a, len) =>
        var slot := Resolve(show, a, len, segments[0], t);
        if !slot.At? || slot.step.i >= len { return container, t; }
        r, after := RemoveAtIndex(show, a, len, slot.step.i, segments, t);
      case Scalar(_) => return container, t;
    }
  }

  method RemoveAtKey(show: Printer, c: GoMap, segments: Path, ghost t: Tree) returns (ghost after: Tree)
    requires segments != [] && Held(MapRef(c), t) && segments[0] in t.kids
    modifies Objects(t)
    ensures Held(MapRef(c), after) && Doc(after) == RemoveAt(show, Doc(t), segments) && Objects(after) <= Objects(t)
    decreases |segments|, 0
  {
    var seg := segments[0];
    ghost var st := Key(seg);
    RemoveAtStep(show, t, st, segments);
    if |segments| == 1 {
      DeleteKey(c, seg, t);
      return MapAt(c, t.kids - {seg});
    }
    var child, n := RemoveBelow(show, c.entries[seg], segments[1..], t, st);
    SetKey(c, seg, child, t, n);
    WithDoc(t, st, n);
    after := With(t, st, n);
  }

  method DeleteKey(c: GoMap, seg: string, ghost t: Tree)
    requires Held(MapRef(c), t) && seg in t.kids
    modifies c
    ensures Held(MapRef(c), MapAt(c, t.kids - {seg}))
    ensures Doc(MapAt(c, t.kids - {seg})) == Drop(Doc(t), Key(seg)) && Objects(MapAt(c, t.kids - {seg})) <= Objects(t)
  {
    c.entries := c.entries - {seg};
  }

  method RemoveAtIndex(show: Printer, a: array<Value>, len: nat, idx: nat, segments: Path, ghost t: Tree)
    returns (r: Value, ghost after: Tree)
    requires segments != [] && Held(SliceRef(a, len), t) && idx < len
    requires SlotOf(show, Doc(t), segments[0]) == At(Idx(idx))
    modifies Objects(t)
    ensures Held(r, after) && Doc(after) == RemoveAt(show, Doc(t), segments) && Objects(after) <= Objects(t)
    decreases |segments|, 0
  {
    ghost var st := Idx(idx);
    RemoveAtStep(show, t, st, segments);
    if |segments| == 1 {
      after := Shift(a, len, idx, t);
      return SliceRef(a, len - 1), after;
    }
    var child, n := RemoveBelow(show, a[idx], segments[1..], t, st);
    StoreItem(a, idx, child, t, n);
    WithDoc(t, st, n);
    return SliceRef(a, len), With(t, st, n);
  }

  /** append(c[:idx], c[idx+1:]...): later elements move down within the backing array. */
  method Shift(a: array<Value>, len: nat, idx: nat, ghost t: Tree) returns (ghost after: Tree)
    requires Held(SliceRef(a, len), t) && idx < len
    modifies a
    ensures RefOf(after) == SliceRef(a, len - 1) && Held(RefOf(after), after)
    ensures Doc(after) == Drop(Doc(t), Idx(idx)) && Objects(after) <= Objects(t)
  {
    ShiftCells(a, len, idx, t);
    after := Without(t, idx);
    WithoutHolds(t, idx);
    WithoutApart(t, idx);
    WithoutDoc(t, idx);
  }

  method ShiftCells(a: array<Value>, len: nat, idx: nat, ghost t: Tree)
    requires Held(SliceRef(a, len), t) && idx < len
    modifies a
    ensures forall k | 0 <= k < len - 1 :: a[k] == RefOf(t.items[if k < idx then k else k + 1])
    ensures forall i | 0 <= i < len :: Holds(t.items[i])
  {
    Allocated(t);
    for j := idx to len - 1
      invariant forall k | 0 <= k < j :: a[k] == RefOf(t.items[if k < idx then k else k + 1])
      invariant forall k | j <= k < len :: a[k] == RefOf(t.items[k])
      invariant forall i | 0 <= i < len :: Holds(t.items[i])
    {
      a[j] := a[j + 1];
    }
  }

  lemma WithoutHolds(t: Tree, idx: nat)
    requires t.SliceAt? && idx < |t.items| <= t.a.Length
    requires forall i | 0 <= i < |t.items| :: Holds(t.items[i])
    requires forall k | 0 <= k < |t.items| - 1 :: t.a[k] == RefOf(t.items[if k < idx then k else k + 1])
    ensures Holds(Without(t, idx))
  {
    var after := Without(t, idx);
    forall i | 0 <= i < |after.items| ensures t.a[i] == RefOf(after.items[i]) && Holds(after.items[i]) {
      assert after.items[i] == t.items[if i < idx then i else i + 1];
    }
  }

  ghost function Without(t: Tree, idx: nat): Tree
    requires t.SliceAt? && idx < |t.items|
  {
    SliceAt(t.a, t.items[..idx] + t.items[idx + 1..])
  }

  lemma WithoutApart(t: Tree, idx: nat)
    requires t.SliceAt? && idx < |t.items| && Apart(t)
    ensures Apart(Without(t, idx)) && Objects(Without(t, idx)) <= Objects(t)
  {
    var after := Without(t, idx);
    forall i | 0 <= i < |after.items| ensures after.items[i] == t.items[if i < idx then i else i + 1] {}
  }

  lemma WithoutDoc(t: Tree, idx: nat)
    requires t.SliceAt? && idx < |t.items|
    ensures Child(Doc(t), Idx(idx)).Some? && Doc(Without(t, idx)) == Drop(Doc(t), Idx(idx))
  {
    assert Doc(Without(t, idx)).items == Drop(Doc(t), Idx(idx)).items;
  }

  method RemoveBelow(show: Printer, child: Value, rest: Path, ghost t: Tree, ghost st: Step)
    returns (r: Value, ghost n: Tree)
    requires rest != [] && Kind(t, st) && Apart(t) && Holds(t) && child == RefOf(KidOrNil(t, st))
    modifies Objects(KidOrNil(t, st))
    ensures Held(r, n) && Doc(n) == RemoveAt(show, Doc(KidOrNil(t, st)), rest) && Objects(n) <= Objects(KidOrNil(t, st))
    ensures OthersHeld(t, st) && FitsAt(t, st, n)
    decreases |rest|, 2
  {
    Allocated(t);
    KidsApart(t, st);
    r, n := RemoveNested(show, child, rest, KidOrNil(t, st));
    if t.MapAt? {
      forall k | k in t.kids && k != st.k ensures Holds(t.kids[k]) {}
    } else {
      forall i | 0 <= i < |t.items| && i != st.i ensures Holds(t.items[i]) {}
    }
    NewKidFits(t, st, n);
  }

  // ----- the exported operations -----

  /** A write that is refused, at whatever depth, leaves every read of the object as it was. */
  method SetNestedField(show: Printer, obj: GoMap, value: Value, segments: Path, ghost t: Tree, ghost v: Tree)
    returns (error: Option<PathError>, ghost after: Tree)
    requires Held(MapRef(obj), t) && Held(value, v) && Objects(t) !! Objects(v)
    modifies Objects(t)
    ensures Held(MapRef(obj), after)
    ensures error.Some? ==> after == t
    ensures segments == [] ==> error == Some(NoSegments)
    ensures segments != [] ==>
              match SetAt(show, Doc(t), Doc(v), segments)
              case Written(d) => error == None && Doc(after) == d
              case Refused(e) => error == Some(e)
  {
    if segments == [] { return Some(NoSegments), t; }
    var r;
    r, after := SetNested(show, MapRef(obj), value, segments, t, v, {});
    if r.Refuses? { return Some(r.error), t; }
    error := None;
  }

  method RemoveNestedField(show: Printer, obj: GoMap, segments: Path, ghost t: Tree) returns (ghost after: Tree)
    requires Held(MapRef(obj), t)
    modifies Objects(t)
    ensures Held(MapRef(obj), after)
    ensures Doc(after) == if segments == [] then Doc(t) else RemoveAt(show, Doc(t), segments)
  {
    if segments == [] { return t; }
    var root;
    root, after := RemoveNested(show, MapRef(obj), segments, t);
  }
}
