/** What normalization makes of a response body, told from the fields of the response mappings. */
module ResponseLaws {
  import opened Options
  import opened Json
  import opened Nested
  import opened PathParsing
  import opened KeyPaths
  import opened PathLaws
  import opened FieldMapping
  import opened NormalizeLaws
  import AliasLaws
  import MappedFields
  import SetLaws
  import RemoveLaws

  // ----- one entry -----

  /** `path` is `anchored` without the "spec." or "status." that it may begin with. */
  predicate Anchors(anchored: string, path: string) {
    || anchored == "spec." + path
    || anchored == "status." + path
    || (anchored == path && !("spec." <= path) && !("status." <= path))
  }

  lemma BelowAnchor(anchored: string, path: string)
    requires Anchors(anchored, path)
    ensures BodyRelativePath(anchored) == ParsePath(path)
  {
    if anchored == "spec." + path {
      assert anchored[..5] == "spec." && anchored[5..] == path;
    } else if anchored == "status." + path {
      assert anchored[..7] == "status." && anchored[7..] == path && anchored[1] == 't';
    } else {
      assert |path| >= 5 && path[..5] == "spec." ==> "spec." <= path;
      assert |path| >= 7 && path[..7] == "status." ==> "status." <= path;
    }
  }

  /** Every text has such a path. */
  lemma AnchorOf(anchored: string) returns (path: string)
    ensures Anchors(anchored, path)
  {
    if "spec." <= anchored {
      path := anchored[5..];
      assert anchored == anchored[..5] + path;
    } else if "status." <= anchored {
      path := anchored[7..];
      assert anchored == anchored[..7] + path;
    } else {
      path := anchored;
    }
  }

  /** The entry reads at `src`. */
  predicate From(e: Entry, src: Path) {
    e.inResponse != "" && e.inCustomResource != "" && src != [] && ParsePath(e.inResponse) == Some(src)
  }

  /** It writes at `dst`. */
  ghost predicate To(e: Entry, dst: Path) {
    dst != [] && exists path :: Anchors(e.inCustomResource, path) && ParsePath(path) == Some(dst)
  }

  lemma ToIs(e: Entry, dst: Path)
    ensures To(e, dst) <==> dst != [] && BodyRelativePath(e.inCustomResource) == Some(dst)
  {
    var path := AnchorOf(e.inCustomResource);
    BelowAnchor(e.inCustomResource, path);
    if To(e, dst) {
      var other :| Anchors(e.inCustomResource, other) && ParsePath(other) == Some(dst);
      BelowAnchor(e.inCustomResource, other);
    }
  }

  /** What its value mapping makes of a value: nothing, if that is a program that is not there or fails. */
  function Converted(rt: Runtime, mapping: ValueMapping, x: JSON): Option<JSON> {
    match mapping
    case NoMapping => Some(x)
    case Jq(None) => None
    case Jq(Some(program)) => program(x)
    case Aliases(aliases) =>
      if rt.show(x) in AliasLaws.ApiValues(aliases)
      then Some(Str(AliasLaws.Sent(rt.show(x), AliasLaws.Swapped(aliases))))
      else Some(x)
  }

  /** Its value: the default where nothing is read, else what is read, converted and made canonical. */
  predicate Gives(rt: Runtime, e: Entry, src: Path, body: Fields, v: JSON) {
    match Get(rt.show, Obj(body), src)
    case Absent => e.defaultIfAbsent == Default(Some(v))
    case Failed(_) => false
    case Found(x) =>
      var c := Converted(rt, e.mapping, x);
      c.Some? && rt.canonical(c.value) == Some(v)
  }

  /** It fails: a default that does not decode, a program that fails, or a value without a canonical form. */
  ghost predicate Breaks(rt: Runtime, e: Entry, src: Path, body: Fields) {
    match Get(rt.show, Obj(body), src)
    case Absent => e.defaultIfAbsent == Default(None)
    case Failed(_) => false
    case Found(x) =>
      var c := Converted(rt, e.mapping, x);
      if c.None? then e.mapping.Jq? && e.mapping.program.Some?
      else rt.canonical(c.value) == None && exists dst :: To(e, dst)
  }

  /** The move of an entry that has a value to write; a default comes from nowhere else. */
  ghost predicate MovesFrom(rt: Runtime, e: Entry, body: Fields, src: Path, m: Move) {
    && To(e, m.dst) && Gives(rt, e, src, body, m.val)
    && m.src == if Get(rt.show, Obj(body), src).Found? then src else m.dst
  }

  ghost predicate Moves(rt: Runtime, e: Entry, body: Fields, m: Move) {
    exists src :: From(e, src) && MovesFrom(rt, e, body, src, m)
  }

  lemma ValueConverted(rt: Runtime, mapping: ValueMapping, x: JSON)
    ensures TransformValue(rt.show, mapping, x)
            == match Converted(rt, mapping, x)
               case Some(v) => Value(v)
               case None => if mapping.Jq? && mapping.program.Some? then Fails else Deferred
  {
    match mapping
    case Aliases(aliases) => MappedFields.ReadValue(rt.show, x, aliases);
    case _ =>
  }

  /** Resolving an entry comes to this. */
  lemma ResolvesTo(rt: Runtime, e: Entry, body: Fields)
    ensures ResolveResponseEntry(rt, e, body).Invalid? <==> exists src :: From(e, src) && Breaks(rt, e, src, body)
    ensures forall m: Move :: ResolveResponseEntry(rt, e, body) == Resolved(m) <==> Moves(rt, e, body, m)
  {
    forall dst ensures To(e, dst) <==> dst != [] && BodyRelativePath(e.inCustomResource) == Some(dst) { ToIs(e, dst); }
    if ParsePath(e.inResponse).Some? && From(e, ParsePath(e.inResponse).value) {
      ResolvesFrom(rt, e, body, ParsePath(e.inResponse).value);
    }
  }

  lemma ResolvesFrom(rt: Runtime, e: Entry, body: Fields, src: Path)
    requires From(e, src)
    requires forall dst :: To(e, dst) <==> dst != [] && BodyRelativePath(e.inCustomResource) == Some(dst)
    ensures ResolveResponseEntry(rt, e, body).Invalid? <==> Breaks(rt, e, src, body)
    ensures forall m: Move :: ResolveResponseEntry(rt, e, body) == Resolved(m) <==> MovesFrom(rt, e, body, src, m)
  {
    match Get(rt.show, Obj(body), src)
    case Found(x) => ResolvesFound(rt, e, body, src, x);
    case Absent => ResolvesAbsent(rt, e, body, src);
    case Failed(_) => ResolvesFailed(rt, e, body, src);
  }

  lemma ResolvesAbsent(rt: Runtime, e: Entry, body: Fields, src: Path)
    requires From(e, src) && Get(rt.show, Obj(body), src) == Absent
    requires forall dst :: To(e, dst) <==> dst != [] && BodyRelativePath(e.inCustomResource) == Some(dst)
    ensures ResolveResponseEntry(rt, e, body).Invalid? <==> Breaks(rt, e, src, body)
    ensures forall m: Move :: ResolveResponseEntry(rt, e, body) == Resolved(m) <==> MovesFrom(rt, e, body, src, m)
  {
    DefaultValue(rt, e, body, src);
    var r, dst := ResolveResponseEntry(rt, e, body), BodyRelativePath(e.inCustomResource);
    forall m: Move ensures r == Resolved(m) <==> MovesFrom(rt, e, body, src, m) {
      if e.defaultIfAbsent.Default? && e.defaultIfAbsent.decoded.Some? {
        assert To(e, m.dst) <==> dst == Some(m.dst);
      }
    }
  }

  lemma ResolvesFailed(rt: Runtime, e: Entry, body: Fields, src: Path)
    requires From(e, src) && Get(rt.show, Obj(body), src).Failed?
    ensures ResolveResponseEntry(rt, e, body) == NotApplicable && !Breaks(rt, e, src, body)
    ensures forall m: Move :: !MovesFrom(rt, e, body, src, m)
  {}

  lemma ResolvesFound(rt: Runtime, e: Entry, body: Fields, src: Path, x: JSON)
    requires From(e, src) && Get(rt.show, Obj(body), src) == Found(x)
    requires forall dst :: To(e, dst) <==> dst != [] && BodyRelativePath(e.inCustomResource) == Some(dst)
    ensures ResolveResponseEntry(rt, e, body).Invalid? <==> Breaks(rt, e, src, body)
    ensures forall m: Move :: ResolveResponseEntry(rt, e, body) == Resolved(m) <==> MovesFrom(rt, e, body, src, m)
  {
    FoundValue(rt, e, body, src, x);
    var dst := BodyRelativePath(e.inCustomResource);
    assert dst.Some? ==> (To(e, dst.value) <==> dst.value != []);
  }

  lemma DefaultValue(rt: Runtime, e: Entry, body: Fields, src: Path)
    requires From(e, src) && Get(rt.show, Obj(body), src) == Absent
    ensures var dst := BodyRelativePath(e.inCustomResource);
            ResolveResponseEntry(rt, e, body)
            == match e.defaultIfAbsent
               case NoDefault => NotApplicable
               case Default(None) => Invalid
               case Default(Some(v)) =>
                 if dst.None? || dst.value == [] then NotApplicable else Resolved(AnyMove.Move(dst.value, dst.value, v))
  {}

  lemma FoundValue(rt: Runtime, e: Entry, body: Fields, src: Path, x: JSON)
    requires From(e, src) && Get(rt.show, Obj(body), src) == Found(x)
    ensures var c, dst := Converted(rt, e.mapping, x), BodyRelativePath(e.inCustomResource);
            ResolveResponseEntry(rt, e, body)
            == if c.None? then (if e.mapping.Jq? && e.mapping.program.Some? then Invalid else NotApplicable)
               else if dst.None? || dst.value == [] then NotApplicable
               else match rt.canonical(c.value)
                 case None => Invalid
                 case Some(v) => Resolved(AnyMove.Move(src, dst.value, v))
  {
    ValueConverted(rt, e.mapping, x);
  }

  // ----- all entries -----

  /** Two moves do not get in each other's way. */
  predicate Apart(m: Move, n: Move) {
    && PartAtKeys(m.dst, n.dst)
    && (m.src == n.src || Related(m.src, n.src))
    && (m.src == n.dst || PartAtKeys(n.dst, m.src))
    && (n.src == m.dst || PartAtKeys(m.dst, n.src))
  }

  predicate Proper(m: Move) {
    SetLaws.PredicatesLeadToOtherKeys(m.dst) && (m.src == m.dst || PartAtKeys(m.dst, m.src))
  }

  /** What the entries move stays out of each other's way. */
  ghost predicate Tidy(rt: Runtime, entries: seq<Entry>, body: Fields) {
    && (forall i, m | 0 <= i < |entries| && Moves(rt, entries[i], body, m) :: Proper(m))
    && (forall i, j, m, n |
          0 <= i < j < |entries| && Moves(rt, entries[i], body, m) && Moves(rt, entries[j], body, n) :: Apart(m, n))
  }

  lemma MoveOfEntry(rt: Runtime, e: Entry, body: Fields)
    requires ResolveResponseEntry(rt, e, body).Resolved?
    ensures Moves(rt, e, body, ResolveResponseEntry(rt, e, body).move)
  {
    ResolvesTo(rt, e, body);
  }

  /** The moves among the resolutions of the entries. */
  function Collect(rs: seq<Resolution>): Option<seq<Move>> {
    if rs == [] then Some([]) else Combine(rs[0], Collect(rs[1..]))
  }

  function Resolutions(rt: Runtime, entries: seq<Entry>, body: Fields): seq<Resolution> {
    seq(|entries|, i requires 0 <= i < |entries| => ResolveResponseEntry(rt, entries[i], body))
  }

  lemma {:induction false} Collects(rt: Runtime, entries: seq<Entry>, body: Fields)
    ensures ResolveAll(rt, entries, body) == Collect(Resolutions(rt, entries, body))
    decreases |entries|
  {
    if entries != [] {
      Collects(rt, entries[1..], body);
      assert Resolutions(rt, entries, body)[1..] == Resolutions(rt, entries[1..], body);
    }
  }

  lemma {:induction false} CollectedFrom(rs: seq<Resolution>, k: nat) returns (i: nat)
    requires Collect(rs).Some? && k < |Collect(rs).value|
    ensures i < |rs| && rs[i] == Resolved(Collect(rs).value[k])
    decreases |rs|
  {
    i := 0;
    if !(rs[0].Resolved? && k == 0) {
      var n := CollectedFrom(rs[1..], if rs[0].Resolved? then k - 1 else k);
      i := n + 1;
    }
  }

  lemma MovesOfEntries(rt: Runtime, entries: seq<Entry>, body: Fields, k: nat) returns (i: nat)
    requires ResolveAll(rt, entries, body).Some? && k < |ResolveAll(rt, entries, body).value|
    ensures i < |entries| && Moves(rt, entries[i], body, ResolveAll(rt, entries, body).value[k])
  {
    Collects(rt, entries, body);
    i := CollectedFrom(Resolutions(rt, entries, body), k);
    MoveOfEntry(rt, entries[i], body);
  }

  lemma {:induction false} TidyIsOrderly(rt: Runtime, entries: seq<Entry>, body: Fields)
    requires ResolveAll(rt, entries, body).Some? && Tidy(rt, entries, body)
    ensures Orderly(ResolveAll(rt, entries, body).value)
    decreases |entries|
  {
    if entries != [] {
      var r, rest := ResolveResponseEntry(rt, entries[0], body), ResolveAll(rt, entries[1..], body).value;
      assert forall i | 0 <= i < |entries| - 1 :: entries[1..][i] == entries[i + 1];
      TidyIsOrderly(rt, entries[1..], body);
      if r.Resolved? {
        MoveOfEntry(rt, entries[0], body);
        forall k | 0 <= k < |rest| ensures Apart(r.move, rest[k]) {
          var i := MovesOfEntries(rt, entries[1..], body, k);
          assert Moves(rt, entries[i + 1], body, rest[k]);
        }
        OneMoreMove(r.move, rest);
      }
    }
  }

  lemma OneMoreMove(m: Move, rest: seq<Move>)
    requires Orderly(rest) && Proper(m) && forall k | 0 <= k < |rest| :: Apart(m, rest[k])
    ensures Orderly([m] + rest)
  {
    var all := [m] + rest;
    assert all[0] == m && forall k | 0 < k < |all| :: all[k] == rest[k - 1];
    forall k | 0 <= k < |rest|
      ensures PartAtKeys(rest[k].dst, m.dst) && (rest[k].src == m.src || Related(rest[k].src, m.src))
    {
      PartAtKeysBothWays(m.dst, rest[k].dst);
      if PartAtKeys(m.src, rest[k].src) { PartAtKeysBothWays(m.src, rest[k].src); }
    }
  }

  /** An entry with a value has it at its destination, and its old place is empty unless another entry writes there. */
  lemma EntryTakesEffect(
    rt: Runtime, programs: seq<Program>, entries: seq<Entry>, body: Fields, e: Entry, src: Path, dst: Path, v: JSON)
    requires Normalize(rt, programs, entries, body).Some? && Tidy(rt, entries, Transform(programs, body).value)
    requires e in entries && From(e, src) && To(e, dst) && Gives(rt, e, src, Transform(programs, body).value, v)
    ensures var shaped, r := Transform(programs, body).value, Obj(Normalize(rt, programs, entries, body).value);
            && Get(rt.show, r, dst) == Found(v)
            && (Get(rt.show, Obj(shaped), src).Found? && RemoveLaws.KindsMatch(rt.show, Obj(shaped), src)
                && !EndsWithIndex(src) && src != dst && (forall o | o in entries :: !To(o, src)) ==>
                  Get(rt.show, r, src) == Absent)
  {
    var shaped := Transform(programs, body).value;
    var m: Move := AnyMove.Move(if Get(rt.show, Obj(shaped), src).Found? then src else dst, dst, v);
    assert Moves(rt, e, shaped, m);
    ResolvesTo(rt, e, shaped);
    TidyIsOrderly(rt, entries, shaped);
    NormalizedBody(rt, programs, entries, body);
    if forall o | o in entries :: !To(o, src) {
      NoDestination(rt, entries, shaped, src);
    }
  }

  lemma NoDestination(rt: Runtime, entries: seq<Entry>, body: Fields, p: Path)
    requires ResolveAll(rt, entries, body).Some? && forall o | o in entries :: !To(o, p)
    ensures p !in Destinations(ResolveAll(rt, entries, body).value)
  {
    var moves := ResolveAll(rt, entries, body).value;
    forall k | 0 <= k < |moves| ensures moves[k].dst != p {
      var i := MovesOfEntries(rt, entries, body, k);
      assert entries[i] in entries;
    }
  }

  /** Nothing is read at its source, or nowhere to write it, or no program to run: the entry might as well be gone. */
  ghost predicate Idle(rt: Runtime, e: Entry, body: Fields) {
    (forall m: Move :: !Moves(rt, e, body, m)) && forall src :: From(e, src) ==> !Breaks(rt, e, src, body)
  }

  lemma IdleIsNotApplicable(rt: Runtime, e: Entry, body: Fields)
    requires Idle(rt, e, body)
    ensures ResolveResponseEntry(rt, e, body).NotApplicable?
  {
    var r := ResolveResponseEntry(rt, e, body);
    ResolvesTo(rt, e, body);
    match r
    case Resolved(m) => assert false;
    case _ =>
  }

  lemma {:induction false} IdleResolves(rt: Runtime, a: seq<Entry>, e: Entry, b: seq<Entry>, body: Fields)
    requires Idle(rt, e, body)
    ensures ResolveAll(rt, a + [e] + b, body) == ResolveAll(rt, a + b, body)
    decreases |a|
  {
    if a == [] {
      IdleIsNotApplicable(rt, e, body);
      assert [] + [e] + b == [e] + b && ([e] + b)[1..] == b && [] + b == b;
    } else {
      assert (a + [e] + b)[0] == a[0] && (a + [e] + b)[1..] == a[1..] + [e] + b;
      assert (a + b)[0] == a[0] && (a + b)[1..] == a[1..] + b;
      IdleResolves(rt, a[1..], e, b, body);
    }
  }

  lemma IdleEntryChangesNothing(
    rt: Runtime, programs: seq<Program>, a: seq<Entry>, e: Entry, b: seq<Entry>, body: Fields)
    requires Transform(programs, body).Some? ==> Idle(rt, e, Transform(programs, body).value)
    ensures Normalize(rt, programs, a + [e] + b, body) == Normalize(rt, programs, a + b, body)
  {
    if Transform(programs, body).Some? { IdleResolves(rt, a, e, b, Transform(programs, body).value); }
  }

  // ----- failure -----

  /** The document programs run one after another, each giving the object the next one gets. */
  lemma {:induction false} TransformRuns(programs: seq<Program>, body: Fields, states: seq<Fields>)
    requires |states| == |programs| + 1 && states[0] == body
    requires forall i | 0 <= i < |programs| :: programs[i](Obj(states[i])) == Some(Obj(states[i + 1]))
    ensures Transform(programs, body) == Some(states[|programs|])
    decreases |programs|
  {
    if programs != [] {
      assert forall i | 0 <= i < |programs| - 1 :: programs[1..][i] == programs[i + 1];
      TransformRuns(programs[1..], states[1], states[1..]);
    }
  }

  /** One of them fails, or gives something else than an object. */
  lemma {:induction false} TransformFails(programs: seq<Program>, body: Fields) returns (k: nat, at: Fields)
    requires Transform(programs, body).None?
    ensures k < |programs| && Transform(programs[..k], body) == Some(at)
    ensures programs[k](Obj(at)).None? || !programs[k](Obj(at)).value.Obj?
    decreases |programs|
  {
    match programs[0](Obj(body)) {
      case Some(Obj(next)) =>
        var n;
        n, at := TransformFails(programs[1..], next);
        k := n + 1;
        assert programs[1..][..n] == programs[..k][1..];
      case _ =>
        k, at := 0, body;
        assert programs[..0] == [];
    }
  }

  lemma {:induction false} ResolveFails(rt: Runtime, entries: seq<Entry>, body: Fields)
    ensures ResolveAll(rt, entries, body).None?
            <==> exists i, src | 0 <= i < |entries| :: From(entries[i], src) && Breaks(rt, entries[i], src, body)
    decreases |entries|
  {
    if entries != [] {
      ResolveFails(rt, entries[1..], body);
      ResolvesTo(rt, entries[0], body);
      assert forall i | 0 <= i < |entries| - 1 :: entries[1..][i] == entries[i + 1];
      assert forall i | 0 < i < |entries| :: entries[i] == entries[1..][i - 1];
    }
  }

  /** All entries have been read, and one of the writes fails. */
  predicate Refused(rt: Runtime, entries: seq<Entry>, shaped: Fields) {
    var moves := ResolveAll(rt, entries, shaped);
    moves.Some? && WriteAll(rt.show, moves.value, shaped).None?
  }

  /** Normalization fails exactly when a document program does, an entry breaks, or a write is refused. */
  lemma FailsExactly(rt: Runtime, programs: seq<Program>, entries: seq<Entry>, body: Fields)
    ensures Normalize(rt, programs, entries, body).None?
            <==> || Transform(programs, body).None?
                 || (exists i, src | 0 <= i < |entries| ::
                       From(entries[i], src) && Breaks(rt, entries[i], src, Transform(programs, body).value))
                 || Refused(rt, entries, Transform(programs, body).value)
  {
    if Transform(programs, body).Some? { ResolveFails(rt, entries, Transform(programs, body).value); }
  }

  /** A write is refused where a predicate on its way does not select one element of the array it meets. */
  lemma {:induction false} RefusedWrite(show: Printer, moves: seq<Move>, body: Fields) returns (k: nat, at: Fields)
    requires WriteAll(show, moves, body).None?
    ensures k < |moves| && WriteAll(show, moves[..k], body) == Some(at)
    ensures SetAt(show, Obj(at), moves[k].val, moves[k].dst).Refused?
    decreases |moves|
  {
    var next := WriteOne(show, moves[0], body);
    WriteOneIs(show, moves[0], body);
    if next.None? {
      k, at := 0, body;
      assert moves[..0] == [];
    } else {
      var n;
      n, at := RefusedWrite(show, moves[1..], next.value);
      k := n + 1;
      assert moves[1..][..n] == moves[..k][1..] && moves[..k][0] == moves[0];
    }
  }
}
