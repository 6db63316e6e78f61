/** The Kubernetes helpers over map-only paths (unstructured.NestedFieldNoCopy and SetNestedField). */
module Unstructured {
  import opened Options
  import opened Json
  import opened Nested

  function NestedField(v: JSON, fields: Path): Read {
    if fields == [] then Found(v)
    else match v
      case Null => Absent
      case Obj(m) => if fields[0] in m then NestedField(m[fields[0]], fields[1..]) else Absent
      case _ => Failed(NotAContainer)
  }

  /** One step further: a key of the map there; nothing below nil or below nothing; a failure in anything else. */
  lemma {:induction false} NestedStep(v: JSON, p: Path, k: string)
    ensures NestedField(v, p + [k])
            == match NestedField(v, p)
               case Found(Obj(m)) => if k in m then Found(m[k]) else Absent
               case Found(Null) => Absent
               case Found(_) => Failed(NotAContainer)
               case other => other
    decreases |p|
  {
    if p == [] {
      assert ([] + [k])[0] == k && ([] + [k])[1..] == [];
    } else {
      assert (p + [k])[0] == p[0] && (p + [k])[1..] == p[1..] + [k];
      if v.Obj? && p[0] in v.fields { NestedStep(v.fields[p[0]], p[1..], k); }
    }
  }

  /** Creates missing maps; refuses to go through anything else. */
  function SetNestedMap(m: map<string, JSON>, v: JSON, fields: Path): Option<map<string, JSON>>
    requires fields != []
    decreases |fields|
  {
    var k := fields[0];
    if |fields| == 1 then Some(m[k := v])
    else if k !in m then
      (match SetNestedMap(map[], v, fields[1..]) case Some(c) => Some(m[k := Obj(c)]) case None => None)
    else if m[k].Obj? then
      (match SetNestedMap(m[k].fields, v, fields[1..]) case Some(c) => Some(m[k := Obj(c)]) case None => None)
    else None
  }
}
