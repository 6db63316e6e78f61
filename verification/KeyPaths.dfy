/** Reads, writes and removals along paths of map keys, and what they leave alone. */
module KeyPaths {
  import opened Json
  import opened Segments
  import opened Nested
  import opened Unstructured

  type Fields = map<string, JSON>

  /** A path of map keys only. */
  predicate KeyPath(p: Path) {
    p != [] && forall i | 0 <= i < |p| :: !WantsArray(p[i])
  }

  /** Neither path is a prefix of the other. */
  predicate Disjoint(p: Path, q: Path) {
    p != [] && q != [] && (p[0] != q[0] || Disjoint(p[1..], q[1..]))
  }

  /** `p` leaves `q` at a map key, before asking for any array. */
  predicate Clear(p: Path, q: Path) {
    p != [] && q != [] && (p[0] != q[0] || (|p| > 1 && |q| > 1 && !WantsArray(p[1]) && Clear(p[1..], q[1..])))
  }

  // ----- what a write or a removal keeps -----

  /** A write anywhere keeps every value found through maps at a path it is clear of. */
  lemma {:induction false} SetKeepsMapped(show: Printer, m: Fields, v: JSON, p: Path, q: Path)
    requires p != [] && SetAt(show, Obj(m), v, p).Written?
    requires NestedField(Obj(m), q).Found? && Clear(p, q)
    ensures SetAt(show, Obj(m), v, p).doc.Obj?
    ensures NestedField(SetAt(show, Obj(m), v, p).doc, q) == NestedField(Obj(m), q)
    decreases |p|
  {
    if p[0] == q[0] { SetKeepsMapped(show, m[q[0]].fields, v, p[1..], q[1..]); }
  }

  /** A removal anywhere keeps every value found through maps at a path disjoint from it. */
  lemma {:induction false} RemoveKeepsMapped(show: Printer, m: Fields, p: Path, q: Path)
    requires NestedField(Obj(m), q).Found? && Disjoint(p, q)
    ensures RemoveAt(show, Obj(m), p).Obj?
    ensures NestedField(RemoveAt(show, Obj(m), p), q) == NestedField(Obj(m), q)
    decreases |p|
  {
    if p[0] == q[0] {
      assert Disjoint(p[1..], q[1..]);
      RemoveKeepsMapped(show, m[q[0]].fields, p[1..], q[1..]);
    }
  }
}
