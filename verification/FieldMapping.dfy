/**
 * fieldmapping.go: bringing an observed body into the shape of the custom resource. Values are resolved
 * first, then written, then their old places are removed.
 */
module FieldMapping {
  import opened Options
  import opened Json
  import opened Nested
  import opened Documents
  import opened PathParsing
  import opened KeyPaths

  // ----- entries -----

  /** A jq program; None when it does not compile or fails on the value. */
  type Program = JSON -> Option<JSON>

  datatype Alias = Alias(customResourceValue: string, apiValue: string)

  datatype ValueMapping = NoMapping | Aliases(aliases: seq<Alias>) | Jq(program: Option<Program>)

  datatype Default = NoDefault | Default(decoded: Option<JSON>)

  datatype Entry = Entry(inResponse: string, inCustomResource: string, mapping: ValueMapping, defaultIfAbsent: Default)

  /** Printing and canonicalization, as Go and the jq engine do them. */
  datatype Runtime = Runtime(show: Printer, canonical: JSON -> Option<JSON>)

  /** The first alias of an API value; any other value passes through. */
  function ApplyAlias(show: Printer, v: JSON, aliases: seq<Alias>): JSON {
    if aliases == [] then v
    else if show(v) == aliases[0].apiValue then Str(aliases[0].customResourceValue)
    else ApplyAlias(show, v, aliases[1..])
  }

  function TrimPrefix(s: string, prefix: string): string {
    if |prefix| <= |s| && s[..|prefix|] == prefix then s[|prefix|..] else s
  }

  /** A destination relative to the response body. */
  function BodyRelativePath(inCustomResource: string): Option<Path> {
    if |inCustomResource| >= 5 && inCustomResource[..5] == "spec." then ParsePath(inCustomResource[5..])
    else ParsePath(TrimPrefix(inCustomResource, "status."))
  }

  /** A value read and transformed, and where it goes; `src` == `dst` when nothing moves. */
  datatype AnyMove = Move(src: Path, dst: Path, val: JSON)

  type Move = m: AnyMove | m.src != [] && m.dst != [] witness AnyMove.Move([""], [""], Null)

  datatype Resolution = NotApplicable | Invalid | Resolved(move: Move)

  datatype Transformed = Deferred | Fails | Value(v: JSON)

  function TransformValue(show: Printer, mapping: ValueMapping, v: JSON): Transformed {
    match mapping
    case NoMapping => Value(v)
    case Aliases(aliases) => Value(ApplyAlias(show, v, aliases))
    case Jq(None) => Deferred
    case Jq(Some(program)) => match program(v) case Some(out) => Value(out) case None => Fails
  }

  /** Reads only: the body is the same for every entry. */
  function ResolveResponseEntry(rt: Runtime, e: Entry, body: Fields): Resolution {
    if e.inResponse == "" || e.inCustomResource == "" then NotApplicable
    else match ParsePath(e.inResponse)
      case None => NotApplicable
      case Some(src) =>
        if src == [] then NotApplicable
        else match Get(rt.show, Obj(body), src)
          case Failed(_) => NotApplicable
          case Absent =>
            (match e.defaultIfAbsent
             case NoDefault => NotApplicable
             case Default(None) => Invalid
             case Default(Some(v)) =>
               match BodyRelativePath(e.inCustomResource)
               case None => NotApplicable
               case Some(dst) => if dst == [] then NotApplicable else Resolved(AnyMove.Move(dst, dst, v)))
          case Found(v) =>
            match TransformValue(rt.show, e.mapping, v)
            case Deferred => NotApplicable
            case Fails => Invalid
            case Value(t) =>
              match BodyRelativePath(e.inCustomResource)
              case None => NotApplicable
              case Some(dst) =>
                if dst == [] then NotApplicable
                else match rt.canonical(t)
                  case None => Invalid
                  case Some(c) => Resolved(AnyMove.Move(src, dst, c))
  }

  // ----- the phases -----

  function Transform(programs: seq<Program>, body: Fields): Option<Fields> {
    if programs == [] then Some(body)
    else match programs[0](Obj(body))
      case Some(Obj(next)) => Transform(programs[1..], next)
      case _ => None
  }

  function ResolveAll(rt: Runtime, entries: seq<Entry>, body: Fields): Option<seq<Move>> {
    if entries == [] then Some([])
    else Combine(ResolveResponseEntry(rt, entries[0], body), ResolveAll(rt, entries[1..], body))
  }

  /** One entry in front of the others; any failure is a failure of all. */
  function Combine(r: Resolution, rest: Option<seq<Move>>): Option<seq<Move>> {
    if r.Invalid? || rest.None? then None
    else if r.Resolved? then Some([r.move] + rest.value)
    else rest
  }

  function WriteOne(show: Printer, m: Move, body: Fields): Option<Fields> {
    match SetAt(show, Obj(body), m.val, m.dst) case Written(Obj(next)) => Some(next) case _ => None
  }

  function WriteAll(show: Printer, moves: seq<Move>, body: Fields): Option<Fields>
    decreases |moves|, 0
  {
    if moves == [] then Some(body) else WriteThen(show, WriteOne(show, moves[0], body), moves[1..])
  }

  function WriteThen(show: Printer, body: Option<Fields>, moves: seq<Move>): Option<Fields>
    decreases |moves|, 1
  {
    match body case Some(b) => WriteAll(show, moves, b) case None => None
  }

  function Destinations(moves: seq<Move>): set<Path> {
    set i | 0 <= i < |moves| :: moves[i].dst
  }

  /** The value left its old place, and no other entry writes there. */
  predicate Lifted(m: Move, dsts: set<Path>) {
    m.src != m.dst && m.src !in dsts
  }

  function LiftOne(show: Printer, m: Move, dsts: set<Path>, body: Fields): Fields {
    if !Lifted(m, dsts) then body
    else match RemoveAt(show, Obj(body), m.src) case Obj(next) => next case _ => body
  }

  function LiftAll(show: Printer, moves: seq<Move>, dsts: set<Path>, body: Fields): Fields {
    if moves == [] then body else LiftAll(show, moves[1..], dsts, LiftOne(show, moves[0], dsts, body))
  }

  function Normalize(rt: Runtime, programs: seq<Program>, entries: seq<Entry>, body: Fields): Option<Fields> {
    match Transform(programs, body)
    case None => None
    case Some(shaped) =>
      match ResolveAll(rt, entries, shaped)
      case None => None
      case Some(moves) =>
        match WriteAll(rt.show, moves, shaped)
        case None => None
        case Some(written) => Some(LiftAll(rt.show, moves, Destinations(moves), written))
  }

  method ResolveEntries(rt: Runtime, entries: seq<Entry>, body: Fields) returns (moves: Option<seq<Move>>)
    ensures moves == ResolveAll(rt, entries, body)
  {
    var resolved: seq<Move> := [];
    NothingBefore(ResolveAll(rt, entries, body));
    for i := 0 to |entries|
      invariant ResolveAll(rt, entries, body) == Followed(resolved, ResolveAll(rt, entries[i..], body))
    {
      assert entries[i..][1..] == entries[i + 1..];
      var r := ResolveResponseEntry(rt, entries[i], body);
      OneMore(resolved, r, ResolveAll(rt, entries[i + 1..], body));
      if r.Invalid? { return None; }
      if r.Resolved? { resolved := resolved + [r.move]; }
    }
    assert resolved + [] == resolved;
    moves := Some(resolved);
  }

  lemma OneMore(front: seq<Move>, r: Resolution, rest: Option<seq<Move>>)
    ensures Followed(front, Combine(r, rest))
            == if r.Invalid? then None else Followed(if r.Resolved? then front + [r.move] else front, rest)
  {
    if r.Resolved? && rest.Some? { assert front + ([r.move] + rest.value) == front + [r.move] + rest.value; }
  }

  lemma NothingBefore(moves: Option<seq<Move>>)
    ensures Followed([], moves) == moves
  {
    if moves.Some? { assert [] + moves.value == moves.value; }
  }

  /** A failure may leave the body half rewritten; the reconcile then fails with it. */
  method NormalizeResponseBody(rt: Runtime, doc: Document, programs: seq<Program>, entries: seq<Entry>)
    returns (ok: bool)
    requires doc.show == rt.show
    modifies doc
    ensures ok <==> Normalize(rt, programs, entries, old(doc.root)).Some?
    ensures ok ==> Some(doc.root) == Normalize(rt, programs, entries, old(doc.root))
  {
    for i := 0 to |programs|
      invariant Transform(programs[i..], doc.root) == Transform(programs, old(doc.root))
    {
      assert programs[i..][1..] == programs[i + 1..];
      var out := programs[i](Obj(doc.root));
      if out.None? || !out.value.Obj? { return false; }
      doc.root := out.value.fields;
    }
    ghost var shaped := doc.root;
    var moves := ResolveEntries(rt, entries, doc.root);
    if moves.None? { return false; }
    ok := WriteMoves(doc, moves.value);
    if ok { LiftSources(doc, moves.value); }
  }

  method WriteMoves(doc: Document, moves: seq<Move>) returns (ok: bool)
    modifies doc
    ensures ok <==> WriteAll(doc.show, moves, old(doc.root)).Some?
    ensures ok ==> Some(doc.root) == WriteAll(doc.show, moves, old(doc.root))
  {
    for i := 0 to |moves|
      invariant WriteAll(doc.show, moves[i..], doc.root) == WriteAll(doc.show, moves, old(doc.root))
    {
      assert moves[i..][1..] == moves[i + 1..];
      var error := doc.SetNestedField(moves[i].val, moves[i].dst);
      if error.Some? { return false; }
    }
    ok := true;
  }

  method LiftSources(doc: Document, moves: seq<Move>)
    modifies doc
    ensures doc.root == LiftAll(doc.show, moves, Destinations(moves), old(doc.root))
  {
    var dsts := set i | 0 <= i < |moves| :: moves[i].dst;
    for i := 0 to |moves|
      invariant LiftAll(doc.show, moves[i..], dsts, doc.root) == LiftAll(doc.show, moves, dsts, old(doc.root))
    {
      assert moves[i..][1..] == moves[i + 1..];
      if moves[i].src != moves[i].dst && moves[i].src !in dsts {
        doc.RemoveNestedField(moves[i].src);
      }
    }
  }

  function Followed(front: seq<Move>, back: Option<seq<Move>>): Option<seq<Move>> {
    match back case Some(b) => Some(front + b) case None => None
  }
}

module NormalizeLaws {
  import opened Options
  import opened Json
  import opened Nested
  import opened PathLaws
  import opened FieldMapping
  import opened NestedSteps
  import opened KeyPaths
  import SetLaws
  import RemoveLaws

  /** The destinations pairwise part at map keys. */
  predicate DestinationsPart(moves: seq<Move>) {
    forall i, j | 0 <= i < |moves| && 0 <= j < |moves| && i != j :: PartAtKeys(moves[i].dst, moves[j].dst)
  }

  predicate SourcesRelate(moves: seq<Move>) {
    forall i, j | 0 <= i < |moves| && 0 <= j < |moves| ::
      moves[i].src == moves[j].src || Related(moves[i].src, moves[j].src)
  }

  /** No predicate ends a destination, and each is followed by a map key other than the one it tests. */
  predicate DestinationsLeadOn(moves: seq<Move>) {
    forall i | 0 <= i < |moves| :: SetLaws.PredicatesLeadToOtherKeys(moves[i].dst)
  }

  /**
   * Paths of map keys, indexes and predicates: the destinations part at map keys, every source is one of them
   * or parts from them all, and any two sources are related.
   */
  predicate Orderly(moves: seq<Move>) {
    && DestinationsPart(moves) && DestinationsLeadOn(moves) && SourcesRelate(moves)
    && (forall i, j | 0 <= i < |moves| && 0 <= j < |moves| ::
          moves[i].src == moves[j].dst || PartAtKeys(moves[j].dst, moves[i].src))
  }

  predicate Prefixed(p: Path, q: Path) {
    p <= q || q <= p
  }

  /** For paths of map keys: no destination is a prefix of another, or on one line with a source but itself. */
  lemma OrderlyKeyPaths(moves: seq<Move>)
    requires forall i | 0 <= i < |moves| :: KeyPath(moves[i].src) && KeyPath(moves[i].dst)
    ensures Orderly(moves) <==>
              && (forall i, j | 0 <= i < |moves| && 0 <= j < |moves| && i != j :: !Prefixed(moves[i].dst, moves[j].dst))
              && (forall i, j | 0 <= i < |moves| && 0 <= j < |moves| ::
                    moves[i].src == moves[j].dst || !Prefixed(moves[j].dst, moves[i].src))
  {
    forall i, j | 0 <= i < |moves| && 0 <= j < |moves|
      ensures PartAtKeys(moves[i].dst, moves[j].dst) <==> !Prefixed(moves[i].dst, moves[j].dst)
      ensures PartAtKeys(moves[j].dst, moves[i].src) <==> !Prefixed(moves[j].dst, moves[i].src)
      ensures Related(moves[i].src, moves[j].src)
    {
      KeyPathsRelated(moves[i].dst, moves[j].dst);
      KeyPathsRelated(moves[j].dst, moves[i].src);
      KeyPathsRelated(moves[i].src, moves[j].src);
    }
  }

  // ----- one write, one lift -----

  lemma WriteOneIs(show: Printer, m: Move, body: Fields)
    ensures SetAt(show, Obj(body), m.val, m.dst)
            == match WriteOne(show, m, body)
               case Some(next) => Written(Obj(next))
               case None => SetAt(show, Obj(body), m.val, m.dst)
    ensures WriteOne(show, m, body).None? <==> SetAt(show, Obj(body), m.val, m.dst).Refused?
  {
    SlotFits(show, Obj(body), m.dst[0]);
  }

  lemma LiftOneIs(show: Printer, m: Move, dsts: set<Path>, body: Fields)
    ensures Obj(LiftOne(show, m, dsts, body)) == if Lifted(m, dsts) then RemoveAt(show, Obj(body), m.src) else Obj(body)
  {
    RemoveLaws.RemoveKeepsKind(show, Obj(body), m.src);
  }

  // ----- what the writes do -----

  /** What is found where the containers are of the right kinds stays found, if every write parts from it. */
  lemma {:induction false} WritesKeepFound(show: Printer, moves: seq<Move>, body: Fields, q: Path)
    requires WriteAll(show, moves, body).Some? && forall i | 0 <= i < |moves| :: PartAtKeys(moves[i].dst, q)
    requires Get(show, Obj(body), q).Found? && RemoveLaws.KindsMatch(show, Obj(body), q)
    ensures Get(show, Obj(WriteAll(show, moves, body).value), q) == Get(show, Obj(body), q)
    decreases |moves|
  {
    if moves != [] {
      WriteOneIs(show, moves[0], body);
      WriteKeepsFound(show, Obj(body), moves[0].val, moves[0].dst, q);
      WritesKeepFound(show, moves[1..], WriteOne(show, moves[0], body).value, q);
    }
  }

  lemma {:induction false} WritesArrive(show: Printer, moves: seq<Move>, body: Fields, i: nat)
    requires WriteAll(show, moves, body).Some? && i < |moves|
    requires DestinationsPart(moves) && DestinationsLeadOn(moves)
    ensures Get(show, Obj(WriteAll(show, moves, body).value), moves[i].dst) == Found(moves[i].val)
    decreases |moves|
  {
    var m, rest := moves[0], moves[1..];
    var next := WriteOne(show, m, body).value;
    WriteOneIs(show, m, body);
    if i == 0 {
      SetLaws.GetReturnsWhatSetWrote(show, body, m.val, m.dst);
      WriteSetsKinds(show, Obj(body), m.val, m.dst);
      forall j | 0 <= j < |rest| ensures PartAtKeys(rest[j].dst, m.dst) { assert rest[j] == moves[j + 1]; }
      WritesKeepFound(show, rest, next, m.dst);
    } else {
      assert rest[i - 1] == moves[i];
      WritesArrive(show, rest, next, i - 1);
    }
  }

  lemma {:induction false} WritesKeepReads(show: Printer, moves: seq<Move>, body: Fields, q: Path)
    requires WriteAll(show, moves, body).Some? && DestinationsPart(moves)
    requires forall i | 0 <= i < |moves| ::
               PartAtKeys(moves[i].dst, q) && RemoveLaws.KindsMatch(show, Obj(body), moves[i].dst)
    ensures Get(show, Obj(WriteAll(show, moves, body).value), q) == Get(show, Obj(body), q)
    decreases |moves|
  {
    if moves != [] {
      var m, rest := moves[0], moves[1..];
      var next := WriteOne(show, m, body).value;
      WriteOneIs(show, m, body);
      WriteKeepsReads(show, Obj(body), m.val, m.dst, q);
      forall i | 0 <= i < |rest|
        ensures PartAtKeys(rest[i].dst, q) && RemoveLaws.KindsMatch(show, Obj(next), rest[i].dst)
      {
        assert rest[i] == moves[i + 1];
        WriteKeepsReads(show, Obj(body), m.val, m.dst, rest[i].dst);
      }
      WritesKeepReads(show, rest, next, q);
    }
  }

  // ----- what lifting does -----

  lemma {:induction false} LiftsKeepReads(show: Printer, moves: seq<Move>, dsts: set<Path>, body: Fields, q: Path)
    requires forall i | 0 <= i < |moves| && Lifted(moves[i], dsts) :: PartAtKeys(moves[i].src, q)
    ensures Get(show, Obj(LiftAll(show, moves, dsts, body)), q) == Get(show, Obj(body), q)
    decreases |moves|
  {
    if moves != [] {
      LiftOneIs(show, moves[0], dsts, body);
      if Lifted(moves[0], dsts) {
        PartAtKeysBothWays(moves[0].src, q);
        RemovalKeepsRead(show, Obj(body), moves[0].src, q);
      }
      LiftsKeepReads(show, moves[1..], dsts, LiftOne(show, moves[0], dsts, body), q);
    }
  }

  /** One lift makes no read of a related path fail, and nothing appear there. */
  lemma LiftKeepsAbsence(show: Printer, m: Move, dsts: set<Path>, body: Fields, q: Path)
    requires m.src == q || Related(m.src, q)
    requires q != [] && !EndsWithIndex(q) && !Get(show, Obj(body), q).Failed?
    ensures !Get(show, Obj(LiftOne(show, m, dsts, body)), q).Failed?
    ensures Get(show, Obj(body), q) == Absent ==> Get(show, Obj(LiftOne(show, m, dsts, body)), q) == Absent
  {
    LiftOneIs(show, m, dsts, body);
    if m.src == q {
      RemovalLeavesAbsent(show, Obj(body), q);
    } else {
      RemovalKeepsAbsence(show, Obj(body), m.src, q);
    }
  }

  lemma {:induction false} LiftsKeepAbsent(show: Printer, moves: seq<Move>, dsts: set<Path>, body: Fields, q: Path)
    requires forall i | 0 <= i < |moves| :: moves[i].src == q || Related(moves[i].src, q)
    requires q != [] && !EndsWithIndex(q) && Get(show, Obj(body), q) == Absent
    ensures Get(show, Obj(LiftAll(show, moves, dsts, body)), q) == Absent
    decreases |moves|
  {
    if moves != [] {
      LiftKeepsAbsence(show, moves[0], dsts, body, q);
      LiftsKeepAbsent(show, moves[1..], dsts, LiftOne(show, moves[0], dsts, body), q);
    }
  }

  lemma {:induction false} LiftedIsAbsent(show: Printer, moves: seq<Move>, dsts: set<Path>, body: Fields, i: nat)
    requires i < |moves| && Lifted(moves[i], dsts) && SourcesRelate(moves)
    requires !EndsWithIndex(moves[i].src) && !Get(show, Obj(body), moves[i].src).Failed?
    ensures Get(show, Obj(LiftAll(show, moves, dsts, body)), moves[i].src) == Absent
    decreases |moves|
  {
    var q, rest := moves[i].src, moves[1..];
    var next := LiftOne(show, moves[0], dsts, body);
    assert forall j | 0 <= j < |rest| :: rest[j] == moves[j + 1];
    if i == 0 {
      LiftOneIs(show, moves[0], dsts, body);
      RemovalLeavesAbsent(show, Obj(body), q);
      LiftsKeepAbsent(show, rest, dsts, next, q);
    } else {
      LiftKeepsAbsence(show, moves[0], dsts, body, q);
      LiftedIsAbsent(show, rest, dsts, next, i - 1);
    }
  }

  // ----- the whole normalization -----

  /** A moved source was found, past containers of the kinds it asks for, and is no array element by index. */
  predicate SourceThere(show: Printer, m: Move, body: Fields) {
    Get(show, Obj(body), m.src).Found? && RemoveLaws.KindsMatch(show, Obj(body), m.src) && !EndsWithIndex(m.src)
  }

  /** A source of map keys only always is, once it was found. */
  lemma {:induction false} KeyPathIsThere(show: Printer, c: JSON, p: Path)
    requires KeyPath(p) && Get(show, c, p).Found?
    ensures RemoveLaws.KindsMatch(show, c, p) && !EndsWithIndex(p)
    decreases |p|
  {
    if |p| > 1 { KeyPathIsThere(show, Child(c, Key(p[0])).value, p[1..]); }
  }

  /**
   * Every destination holds its value; every source that moved and is not a destination is gone; and when no
   * container changes kind, every path that parts from all of these reads as before.
   */
  lemma NormalizationEffects(show: Printer, moves: seq<Move>, body: Fields)
    requires Orderly(moves) && WriteAll(show, moves, body).Some?
    ensures var r := Obj(LiftAll(show, moves, Destinations(moves), WriteAll(show, moves, body).value));
            && (forall i | 0 <= i < |moves| :: Get(show, r, moves[i].dst) == Found(moves[i].val))
            && (forall i | 0 <= i < |moves| && Lifted(moves[i], Destinations(moves)) ::
                  SourceThere(show, moves[i], body) ==> Get(show, r, moves[i].src) == Absent)
            && ((forall i | 0 <= i < |moves| :: RemoveLaws.KindsMatch(show, Obj(body), moves[i].dst)) ==>
                  forall q | (forall i | 0 <= i < |moves| :: PartAtKeys(moves[i].dst, q))
                             && (forall i | 0 <= i < |moves| && Lifted(moves[i], Destinations(moves)) ::
                                   PartAtKeys(moves[i].src, q)) ::
                    Get(show, r, q) == Get(show, Obj(body), q))
  {
    var dsts := Destinations(moves);
    var written := WriteAll(show, moves, body).value;
    var r := Obj(LiftAll(show, moves, dsts, written));
    forall i | 0 <= i < |moves| ensures Get(show, r, moves[i].dst) == Found(moves[i].val) {
      WritesArrive(show, moves, body, i);
      forall j | 0 <= j < |moves| && Lifted(moves[j], dsts) ensures PartAtKeys(moves[j].src, moves[i].dst) {
        assert moves[i].dst in dsts;
        PartAtKeysBothWays(moves[i].dst, moves[j].src);
      }
      LiftsKeepReads(show, moves, dsts, written, moves[i].dst);
    }
    forall i | 0 <= i < |moves| && Lifted(moves[i], dsts) && SourceThere(show, moves[i], body)
      ensures Get(show, r, moves[i].src) == Absent
    {
      forall j | 0 <= j < |moves| ensures PartAtKeys(moves[j].dst, moves[i].src) { assert moves[j].dst in dsts; }
      WritesKeepFound(show, moves, body, moves[i].src);
      LiftedIsAbsent(show, moves, dsts, written, i);
    }
    if forall i | 0 <= i < |moves| :: RemoveLaws.KindsMatch(show, Obj(body), moves[i].dst) {
      forall q | (forall i | 0 <= i < |moves| :: PartAtKeys(moves[i].dst, q))
                 && (forall i | 0 <= i < |moves| && Lifted(moves[i], dsts) :: PartAtKeys(moves[i].src, q))
        ensures Get(show, r, q) == Get(show, Obj(body), q)
      {
        WritesKeepReads(show, moves, body, q);
        LiftsKeepReads(show, moves, dsts, written, q);
      }
    }
  }

  lemma {:induction false} ResolvedMoves(rt: Runtime, entries: seq<Entry>, body: Fields)
    requires ResolveAll(rt, entries, body).Some?
    ensures forall e | e in entries && ResolveResponseEntry(rt, e, body).Resolved? ::
              ResolveResponseEntry(rt, e, body).move in ResolveAll(rt, entries, body).value
    decreases |entries|
  {
    if entries != [] {
      ResolvedMoves(rt, entries[1..], body);
      var rest := ResolveAll(rt, entries[1..], body).value;
      forall e | e in entries && ResolveResponseEntry(rt, e, body).Resolved?
        ensures ResolveResponseEntry(rt, e, body).move in ResolveAll(rt, entries, body).value
      {
        if e in entries[1..] { assert ResolveResponseEntry(rt, e, body).move in rest; }
      }
    }
  }

  /** What normalization promises of each applicable entry, read off the transformed body. */
  lemma NormalizedBody(rt: Runtime, programs: seq<Program>, entries: seq<Entry>, body: Fields)
    requires Normalize(rt, programs, entries, body).Some?
    requires Orderly(ResolveAll(rt, entries, Transform(programs, body).value).value)
    ensures var shaped := Transform(programs, body).value;
            var dsts := Destinations(ResolveAll(rt, entries, shaped).value);
            var r := Obj(Normalize(rt, programs, entries, body).value);
            forall e | e in entries && ResolveResponseEntry(rt, e, shaped).Resolved? ::
              var m := ResolveResponseEntry(rt, e, shaped).move;
              Get(rt.show, r, m.dst) == Found(m.val)
              && (Lifted(m, dsts) && SourceThere(rt.show, m, shaped) ==> Get(rt.show, r, m.src) == Absent)
  {
    var shaped := Transform(programs, body).value;
    var moves := ResolveAll(rt, entries, shaped).value;
    ResolvedMoves(rt, entries, shaped);
    NormalizationEffects(rt.show, moves, shaped);
    var r := Obj(Normalize(rt, programs, entries, body).value);
    forall e | e in entries && ResolveResponseEntry(rt, e, shaped).Resolved?
      ensures var m := ResolveResponseEntry(rt, e, shaped).move;
              Get(rt.show, r, m.dst) == Found(m.val)
              && (Lifted(m, Destinations(moves)) && SourceThere(rt.show, m, shaped) ==>
                    Get(rt.show, r, m.src) == Absent)
    {
      var i :| 0 <= i < |moves| && moves[i] == ResolveResponseEntry(rt, e, shaped).move;
    }
  }

  /** With paths of map keys only no write is refused. */
  lemma {:induction false} KeyPathsAreWritten(show: Printer, moves: seq<Move>, body: Fields)
    requires forall i | 0 <= i < |moves| :: KeyPath(moves[i].dst)
    ensures WriteAll(show, moves, body).Some?
    decreases |moves|
  {
    if moves != [] {
      KeyPathWritten(show, Obj(body), moves[0].val, moves[0].dst);
      WriteOneIs(show, moves[0], body);
      KeyPathsAreWritten(show, moves[1..], WriteOne(show, moves[0], body).value);
    }
  }

  lemma {:induction false} KeyPathWritten(show: Printer, c: JSON, v: JSON, s: Path)
    requires KeyPath(s) && c.Obj?
    ensures SetAt(show, c, v, s).Written?
    decreases |s|
  {
    if |s| > 1 { KeyPathWritten(show, Descend(ChildOrNull(c, Key(s[0])), s[1]), v, s[1..]); }
  }

  // ----- the order of the entries does not matter -----

  lemma WriteTwice(show: Printer, m: Move, x: Move, body: Fields)
    requires PartAtKeys(m.dst, x.dst)
    ensures match WriteOne(show, m, body)
            case Some(b) => (match WriteOne(show, x, body)
                             case Some(c) => WriteOne(show, x, b) == WriteOne(show, m, c)
                             case None => WriteOne(show, x, b) == None)
            case None => match WriteOne(show, x, body) case Some(c) => WriteOne(show, m, c) == None case None => true
  {
    WritesCommute(show, Obj(body), m.val, m.dst, x.val, x.dst);
    WriteOneIs(show, m, body);
    WriteOneIs(show, x, body);
    if WriteOne(show, m, body).Some? { WriteOneIs(show, x, WriteOne(show, m, body).value); }
    if WriteOne(show, x, body).Some? { WriteOneIs(show, m, WriteOne(show, x, body).value); }
  }

  lemma {:induction false} WriteToFront(show: Printer, front: seq<Move>, x: Move, back: seq<Move>, body: Fields)
    requires forall i | 0 <= i < |front| :: PartAtKeys(front[i].dst, x.dst)
    ensures WriteAll(show, front + [x] + back, body) == WriteThen(show, WriteOne(show, x, body), front + back)
    decreases |front|
  {
    var all, rest := front + [x] + back, front + back;
    if front == [] {
      assert all[0] == x && all[1..] == back && rest == back;
    } else {
      var f := front[0];
      assert all[0] == f && all[1..] == front[1..] + [x] + back;
      assert rest[0] == f && rest[1..] == front[1..] + back;
      WriteTwice(show, f, x, body);
      var first := WriteOne(show, x, body);
      if first.Some? {
        assert WriteAll(show, rest, first.value) == WriteThen(show, WriteOne(show, f, first.value), rest[1..]);
      }
      assert WriteAll(show, all, body) == WriteThen(show, WriteOne(show, f, body), all[1..]);
      if WriteOne(show, f, body).Some? { WriteToFront(show, front[1..], x, back, WriteOne(show, f, body).value); }
    }
  }

  lemma LiftTwice(show: Printer, m: Move, x: Move, dsts: set<Path>, body: Fields)
    requires m.src == x.src || Related(m.src, x.src)
    ensures LiftOne(show, x, dsts, LiftOne(show, m, dsts, body)) == LiftOne(show, m, dsts, LiftOne(show, x, dsts, body))
  {
    LiftOneIs(show, m, dsts, body);
    LiftOneIs(show, x, dsts, body);
    LiftOneIs(show, x, dsts, LiftOne(show, m, dsts, body));
    LiftOneIs(show, m, dsts, LiftOne(show, x, dsts, body));
    if m.src != x.src { RemovalsCommute(show, Obj(body), m.src, x.src); }
  }

  lemma {:induction false} LiftToFront(
    show: Printer, front: seq<Move>, x: Move, back: seq<Move>, dsts: set<Path>, body: Fields)
    requires forall i | 0 <= i < |front| :: front[i].src == x.src || Related(front[i].src, x.src)
    ensures LiftAll(show, front + [x] + back, dsts, body)
            == LiftAll(show, front + back, dsts, LiftOne(show, x, dsts, body))
    decreases |front|
  {
    var all, rest := front + [x] + back, front + back;
    if front == [] {
      assert all[0] == x && all[1..] == back && rest == back;
    } else {
      var f := front[0];
      assert all[0] == f && all[1..] == front[1..] + [x] + back;
      assert rest[0] == f && rest[1..] == front[1..] + back;
      LiftToFront(show, front[1..], x, back, dsts, LiftOne(show, f, dsts, body));
      LiftTwice(show, f, x, dsts, body);
    }
  }

  /** Taking one element out of both sides of a permutation. */
  lemma SplitPermutation<T>(a: seq<T>, b: seq<T>) returns (i: nat)
    requires a != [] && multiset(a) == multiset(b)
    ensures i < |b| && b[i] == a[0]
    ensures multiset(a[1..]) == multiset(b[..i] + b[i + 1..])
    ensures b == b[..i] + [a[0]] + b[i + 1..]
  {
    assert a[0] in multiset(a);
    i :| 0 <= i < |b| && b[i] == a[0];
    assert a == [a[0]] + a[1..];
    assert b == b[..i] + [a[0]] + b[i + 1..];
    assert multiset(b) == multiset(b[..i] + b[i + 1..]) + multiset{a[0]};
    assert multiset(a) == multiset(a[1..]) + multiset{a[0]};
    assert multiset(a[1..]) == multiset(a) - multiset{a[0]};
  }

  lemma {:induction false} WritesPermute(show: Printer, a: seq<Move>, b: seq<Move>, body: Fields)
    requires DestinationsPart(b) && multiset(a) == multiset(b)
    ensures WriteAll(show, a, body) == WriteAll(show, b, body)
    decreases |a|
  {
    if a == [] {
      assert |multiset(b)| == 0;
    } else {
      var i := SplitPermutation(a, b);
      var rest := b[..i] + b[i + 1..];
      forall k | 0 <= k < |rest| ensures rest[k] == b[if k < i then k else k + 1] {}
      WriteToFront(show, b[..i], a[0], b[i + 1..], body);
      if WriteOne(show, a[0], body).Some? { WritesPermute(show, a[1..], rest, WriteOne(show, a[0], body).value); }
    }
  }

  lemma {:induction false} LiftsPermute(show: Printer, a: seq<Move>, b: seq<Move>, dsts: set<Path>, body: Fields)
    requires SourcesRelate(b) && multiset(a) == multiset(b)
    ensures LiftAll(show, a, dsts, body) == LiftAll(show, b, dsts, body)
    decreases |a|
  {
    if a == [] {
      assert |multiset(b)| == 0;
    } else {
      var i := SplitPermutation(a, b);
      var rest := b[..i] + b[i + 1..];
      forall k | 0 <= k < |rest| ensures rest[k] == b[if k < i then k else k + 1] {}
      LiftToFront(show, b[..i], a[0], b[i + 1..], dsts, body);
      LiftsPermute(show, a[1..], rest, dsts, LiftOne(show, a[0], dsts, body));
    }
  }

  lemma DestinationsPermute(a: seq<Move>, b: seq<Move>)
    requires multiset(a) == multiset(b)
    ensures Destinations(a) <= Destinations(b)
  {
    forall i | 0 <= i < |a| ensures a[i].dst in Destinations(b) {
      assert a[i] in multiset(b);
      var j :| 0 <= j < |b| && b[j] == a[i];
    }
  }

  function Bag(moves: Option<seq<Move>>): Option<multiset<Move>> {
    match moves case Some(ms) => Some(multiset(ms)) case None => None
  }

  /** Adding one entry's resolution to what the others resolve to, in no particular order. */
  function AddTo(r: Resolution, bag: Option<multiset<Move>>): Option<multiset<Move>> {
    if r.Invalid? || bag.None? then None
    else if r.Resolved? then Some(bag.value + multiset{r.move})
    else bag
  }

  lemma CombineAdds(r: Resolution, rest: Option<seq<Move>>)
    ensures Bag(Combine(r, rest)) == AddTo(r, Bag(rest))
  {
    if r.Resolved? && rest.Some? {
      assert multiset([r.move] + rest.value) == multiset(rest.value) + multiset{r.move};
    }
  }

  lemma AddsCommute(r: Resolution, t: Resolution, bag: Option<multiset<Move>>)
    ensures AddTo(r, AddTo(t, bag)) == AddTo(t, AddTo(r, bag))
  {
    if r.Resolved? && t.Resolved? && bag.Some? {
      assert bag.value + multiset{r.move} + multiset{t.move} == bag.value + multiset{t.move} + multiset{r.move};
    }
  }

  lemma {:induction false} ResolveSplits(rt: Runtime, front: seq<Entry>, x: Entry, back: seq<Entry>, body: Fields)
    ensures Bag(ResolveAll(rt, front + [x] + back, body))
            == AddTo(ResolveResponseEntry(rt, x, body), Bag(ResolveAll(rt, front + back, body)))
    decreases |front|
  {
    var all, rest := front + [x] + back, front + back;
    if front == [] {
      assert all[0] == x && all[1..] == back && rest == back;
      CombineAdds(ResolveResponseEntry(rt, x, body), ResolveAll(rt, back, body));
    } else {
      assert all[0] == front[0] && all[1..] == front[1..] + [x] + back;
      assert rest[0] == front[0] && rest[1..] == front[1..] + back;
      ResolveSplits(rt, front[1..], x, back, body);
      var r := ResolveResponseEntry(rt, front[0], body);
      CombineAdds(r, ResolveAll(rt, all[1..], body));
      CombineAdds(r, ResolveAll(rt, rest[1..], body));
      AddsCommute(r, ResolveResponseEntry(rt, x, body), Bag(ResolveAll(rt, rest[1..], body)));
    }
  }

  lemma {:induction false} ResolvePermutes(rt: Runtime, a: seq<Entry>, b: seq<Entry>, body: Fields)
    requires multiset(a) == multiset(b)
    ensures Bag(ResolveAll(rt, a, body)) == Bag(ResolveAll(rt, b, body))
    decreases |a|
  {
    if a == [] {
      assert |multiset(b)| == 0;
    } else {
      var i := SplitPermutation(a, b);
      ResolvePermutes(rt, a[1..], b[..i] + b[i + 1..], body);
      CombineAdds(ResolveResponseEntry(rt, a[0], body), ResolveAll(rt, a[1..], body));
      ResolveSplits(rt, b[..i], a[0], b[i + 1..], body);
    }
  }

  /** Whatever order the entries are declared in, the body ends up the same, or normalization fails. */
  lemma NormalizationIgnoresOrder(rt: Runtime, programs: seq<Program>, a: seq<Entry>, b: seq<Entry>, body: Fields)
    requires multiset(a) == multiset(b)
    requires Transform(programs, body).Some? ==>
               match ResolveAll(rt, b, Transform(programs, body).value)
               case Some(moves) => DestinationsPart(moves) && SourcesRelate(moves)
               case None => true
    ensures Normalize(rt, programs, a, body) == Normalize(rt, programs, b, body)
  {
    if Transform(programs, body).Some? {
      var shaped := Transform(programs, body).value;
      ResolvePermutes(rt, a, b, shaped);
      if ResolveAll(rt, b, shaped).Some? {
        var x, y := ResolveAll(rt, a, shaped).value, ResolveAll(rt, b, shaped).value;
        WritesPermute(rt.show, x, y, shaped);
        DestinationsPermute(x, y);
        DestinationsPermute(y, x);
        assert Destinations(x) == Destinations(y);
        if WriteAll(rt.show, y, shaped).Some? {
          LiftsPermute(rt.show, x, y, Destinations(y), WriteAll(rt.show, y, shaped).value);
        }
      }
    }
  }
}
