/**
 * The path algebra of nested.go: reading, writing and removing a value in a document by map key, array
 * index or `[?key=value]` predicate.
 */
module Segments {
  import opened Options

  const MAX_INT := 0x7fff_ffff_ffff_ffff

  datatype Predicate = Predicate(key: string, want: string)

  predicate IsDigit(c: char) {
    '0' <= c <= '9'
  }

  predicate AllDigits(s: string) {
    forall i | 0 <= i < |s| :: IsDigit(s[i])
  }

  function DigitsValue(s: string): nat
    requires AllDigits(s)
  {
    if s == "" then 0
    else 10 * DigitsValue(s[..|s| - 1]) + (s[|s| - 1] - '0') as nat
  }

  /** A canonical decimal that fits a Go int. */
  function ArrayIndex(seg: string): Option<nat> {
    if seg == "" || !AllDigits(seg) || (|seg| > 1 && seg[0] == '0') || DigitsValue(seg) > MAX_INT then None
    else Some(DigitsValue(seg))
  }

  /** The position of the first `c` in `s`, or |s|. */
  function Find(s: string, c: char): (n: nat)
    ensures n <= |s|
    ensures n < |s| ==> s[n] == c
    ensures forall i | 0 <= i < n :: s[i] != c
  {
    if s == "" then 0 else if s[0] == c then 0 else 1 + Find(s[1..], c)
  }

  lemma FindIs(s: string, c: char, n: nat)
    requires n <= |s| && (n < |s| ==> s[n] == c) && forall i | 0 <= i < n :: s[i] != c
    ensures Find(s, c) == n
  {
    var _ := Find(s, c);
  }

  function ParsePredicate(seg: string): Option<Predicate> {
    if seg == "" || seg[0] != '?' then None
    else
      var body := seg[1..];
      var eq := Find(body, '=');
      if eq == |body| || eq == 0 then None else Some(Predicate(body[..eq], body[eq + 1..]))
  }

  /** A segment that can only address an array. */
  predicate WantsArray(seg: string) {
    ArrayIndex(seg).Some? || ParsePredicate(seg).Some?
  }

  function Digit(d: nat): char
    requires d < 10
  {
    '0' + d as char
  }

  /** The decimal text of an index. */
  function IndexText(n: nat): (s: string)
    ensures |s| > 0 && AllDigits(s)
    ensures DigitsValue(s) == n
    ensures |s| > 1 ==> s[0] != '0'
    ensures n > 0 ==> s[0] != '0'
  {
    if n < 10 then [Digit(n)]
    else
      var front := IndexText(n / 10);
      var s := front + [Digit(n % 10)];
      assert s[..|s| - 1] == front;
      s
  }

  lemma IndexTextReadsBack(n: nat)
    requires n <= MAX_INT
    ensures ArrayIndex(IndexText(n)) == Some(n)
    ensures ParsePredicate(IndexText(n)) == None
  {
    assert IsDigit(IndexText(n)[0]);
  }
}

module Nested {
  import opened Options
  import opened Json
  import opened Segments

  datatype PathError = NoSegments | Ambiguous | NoMatch | NotAnIndex | NotAContainer

  datatype Read = Found(value: JSON) | Absent | Failed(error: PathError)

  datatype Write = Written(doc: JSON) | Refused(error: PathError)

  // ----- predicates over array elements -----

  predicate Selects(show: Printer, item: JSON, p: Predicate) {
    item.Obj? && p.key in item.fields && show(item.fields[p.key]) == p.want
  }

  ghost predicate SelectsExactlyOne(show: Printer, items: seq<JSON>, p: Predicate) {
    exists i | 0 <= i < |items| ::
      Selects(show, items[i], p) && forall j | 0 <= j < |items| && Selects(show, items[j], p) :: j == i
  }

  datatype Match = One(idx: nat) | Zero | Many

  function MatchItems(show: Printer, items: seq<JSON>, p: Predicate): (m: Match)
    ensures m.One? ==> m.idx < |items| && Selects(show, items[m.idx], p)
    ensures m.One? ==> forall j | 0 <= j < |items| && Selects(show, items[j], p) :: j == m.idx
    ensures m.Zero? ==> forall j | 0 <= j < |items| :: !Selects(show, items[j], p)
    ensures m.Many? ==> exists i, j | 0 <= i < j < |items| :: Selects(show, items[i], p) && Selects(show, items[j], p)
  {
    if items == [] then Zero
    else
      var n := |items| - 1;
      var m := MatchItems(show, items[..n], p);
      if !Selects(show, items[n], p) then m
      else if m.Zero? then One(n)
      else
        assert exists i | 0 <= i < n :: Selects(show, items[i], p);
        Many
  }

  // ----- one step into a container -----

  datatype Step = Key(k: string) | Idx(i: nat)

  datatype Slot = At(step: Step) | Gone | Bad(error: PathError)

  /** Which child of container `c` a segment names. An index may lie past the end of the array. */
  function SlotOf(show: Printer, c: JSON, seg: string): Slot {
    match c
    case Obj(_) => At(Key(seg))
    case Arr(items) =>
      (match ParsePredicate(seg)
       case Some(p) =>
         (match MatchItems(show, items, p)
          case One(i) => At(Idx(i))
          case Zero => Gone
          case Many => Bad(Ambiguous))
       case None =>
         (match ArrayIndex(seg)
          case Some(i) => At(Idx(i))
          case None => Bad(NotAnIndex)))
    case _ => Bad(NotAContainer)
  }

  predicate Fits(c: JSON, st: Step) {
    (c.Obj? && st.Key?) || (c.Arr? && st.Idx?)
  }

  function Child(c: JSON, st: Step): Option<JSON> {
    if c.Obj? && st.Key? && st.k in c.fields then Some(c.fields[st.k])
    else if c.Arr? && st.Idx? && st.i < |c.items| then Some(c.items[st.i])
    else None
  }

  function ChildOrNull(c: JSON, st: Step): JSON {
    match Child(c, st) case Some(v) => v case None => Null
  }

  function Pad(items: seq<JSON>, n: nat): (r: seq<JSON>)
    ensures |r| == if |items| < n then n else |items|
  {
    if |items| < n then items + seq(n - |items|, _ => Null) else items
  }

  function Put(c: JSON, st: Step, v: JSON): JSON
    requires Fits(c, st)
  {
    if c.Obj? then Obj(c.fields[st.k := v]) else Arr(Pad(c.items, st.i + 1)[st.i := v])
  }

  function Drop(c: JSON, st: Step): JSON
    requires Child(c, st).Some?
  {
    if c.Obj? then Obj(c.fields - {st.k}) else Arr(c.items[..st.i] + c.items[st.i + 1..])
  }

  predicate ContainerMatches(v: JSON, seg: string) {
    if v.Obj? then !WantsArray(seg) else v.Arr? && WantsArray(seg)
  }

  function NewContainerFor(seg: string): JSON {
    if WantsArray(seg) then Arr([]) else Obj(map[])
  }

  /** The container a write goes on with: the existing child, or a new one of the kind `seg` asks for. */
  function Descend(child: JSON, seg: string): JSON {
    if ContainerMatches(child, seg) then child else NewContainerFor(seg)
  }

  // ----- reading, writing and removing along a path -----

  function Get(show: Printer, c: JSON, segs: Path): Read {
    if segs == [] then Found(c)
    else match SlotOf(show, c, segs[0])
      case At(st) => (match Child(c, st) case Some(v) => Get(show, v, segs[1..]) case None => Absent)
      case Gone => Absent
      case Bad(e) => Failed(e)
  }

  function SetAt(show: Printer, c: JSON, v: JSON, segs: Path): (w: Write)
    requires segs != []
    decreases |segs|
  {
    match SlotOf(show, c, segs[0])
    case Gone => Refused(NoMatch)
    case Bad(e) => Refused(e)
    case At(st) =>
      if |segs| == 1 then Written(Put(c, st, v))
      else
        match SetAt(show, Descend(ChildOrNull(c, st), segs[1]), v, segs[1..])
        case Written(n) => Written(Put(c, st, n))
        case Refused(e) => Refused(e)
  }

  function RemoveAt(show: Printer, c: JSON, segs: Path): JSON
    requires segs != []
    decreases |segs|
  {
    match SlotOf(show, c, segs[0])
    case At(st) =>
      if Child(c, st).None? then c
      else if |segs| == 1 then Drop(c, st)
      else Put(c, st, RemoveAt(show, Child(c, st).value, segs[1..]))
    case _ => c
  }
}

module Documents {
  import opened Options
  import opened Json
  import opened Nested

  /** A request body, a response body or a custom resource, seen as a value; InPlace models its maps and slices. */
  class Document {
    var root: map<string, JSON>
    const show: Printer

    constructor (show: Printer, root: map<string, JSON>)
      ensures this.root == root && this.show == show
    {
      this.show := show;
      this.root := root;
    }

    /** A refused write leaves the document as it was, so every read of it is unchanged. */
    method SetNestedField(value: JSON, segments: Path) returns (error: Option<PathError>)
      modifies this
      ensures segments == [] ==> error == Some(NoSegments)
      ensures segments != [] ==>
                match SetAt(show, Obj(old(root)), value, segments)
                case Written(d) => error == None && Obj(root) == d
                case Refused(e) => error == Some(e)
      ensures error.Some? ==> root == old(root)
    {
      if segments == [] { return Some(NoSegments); }
      match SetAt(show, Obj(root), value, segments) {
        case Refused(e) => return Some(e);
        case Written(d) =>
          root := d.fields;
          return None;
      }
    }

    method RemoveNestedField(segments: Path)
      modifies this
      ensures segments == [] ==> root == old(root)
      ensures segments != [] ==> Obj(root) == RemoveAt(show, Obj(old(root)), segments)
    {
      if segments == [] { return; }
      root := RemoveAt(show, Obj(root), segments).fields;
    }
  }
}
