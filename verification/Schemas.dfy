/** clienttools.go: the fields that the JSON body of an operation can express. */
module Schemas {
  import opened Options
  import opened Json
  import opened PathParsing
  import opened KeyPaths

  /** A request-body schema; `props` lists an ordered map. */
  datatype Schema = Schema(isArray: bool, items: Option<Schema>, props: seq<Property>, allOf: seq<Schema>)

  datatype Property = Property(name: string, schema: Schema)

  const MAX_DEPTH := 20

  /** orderedmap.Set: replaces in place, or appends. */
  function SetProperty(props: seq<Property>, p: Property): seq<Property> {
    if props == [] then [p]
    else if props[0].name == p.name then [p] + props[1..]
    else [props[0]] + SetProperty(props[1..], p)
  }

  function SetProperties(props: seq<Property>, more: seq<Property>): seq<Property>
    decreases |more|
  {
    if more == [] then props else SetProperties(SetProperty(props, more[0]), more[1..])
  }

  /** populateFromAllOf: the properties of every allOf member join the schema's own. */
  function Flatten(s: Schema): Schema
    decreases s
  {
    if s.isArray then
      s.(items := match s.items case Some(i) => Some(Flatten(i)) case None => None)
    else
      var own := seq(|s.props|, i requires 0 <= i < |s.props| => Property(s.props[i].name, Flatten(s.props[i].schema)));
      var members := seq(|s.allOf|, i requires 0 <= i < |s.allOf| => Flatten(s.allOf[i]));
      s.(props := Gather(own, members), allOf := members)
  }

  function Gather(props: seq<Property>, members: seq<Schema>): seq<Property>
    decreases |members|
  {
    if members == [] then props else Gather(SetProperties(props, members[0].props), members[1..])
  }

  predicate UniqueNames(props: seq<Property>) {
    forall i, j | 0 <= i < j < |props| :: props[i].name != props[j].name
  }

  /** A property name that needs no quoting in a path. */
  predicate PlainName(n: string) {
    Writable(n, Bare)
  }

  /** Ordered maps, with plain names, at every level. */
  predicate WellFormed(s: Schema) {
    && UniqueNames(s.props)
    && (forall i | 0 <= i < |s.props| :: PlainName(s.props[i].name) && WellFormed(s.props[i].schema))
    && (forall i | 0 <= i < |s.allOf| :: WellFormed(s.allOf[i]))
    && (s.items.Some? ==> WellFormed(s.items.value))
  }

  predicate GoodProperties(props: seq<Property>) {
    UniqueNames(props) && forall i | 0 <= i < |props| :: PlainName(props[i].name) && WellFormed(props[i].schema)
  }

  function Names(props: seq<Property>): set<string> {
    set i | 0 <= i < |props| :: props[i].name
  }

  lemma NamesCons(p: Property, rest: seq<Property>)
    ensures Names([p] + rest) == {p.name} + Names(rest)
  {
    var all := [p] + rest;
    assert all[0] == p && forall i | 1 <= i < |all| :: all[i] == rest[i - 1];
    forall i | 0 <= i < |rest| ensures rest[i].name in Names(all) { assert all[i + 1] == rest[i]; }
  }

  lemma GoodCons(p: Property, rest: seq<Property>)
    ensures GoodProperties([p] + rest)
            <==> GoodProperties(rest) && PlainName(p.name) && WellFormed(p.schema) && p.name !in Names(rest)
  {
    var all := [p] + rest;
    assert all[0] == p && forall i | 1 <= i < |all| :: all[i] == rest[i - 1];
    if GoodProperties(all) {
      forall i | 0 <= i < |rest| ensures rest[i].name != p.name && rest[i] == all[i + 1] {
        assert all[0].name != all[i + 1].name;
      }
      forall i, j | 0 <= i < j < |rest| ensures rest[i].name != rest[j].name {
        assert all[i + 1].name != all[j + 1].name;
      }
    }
    if GoodProperties(rest) && p.name !in Names(rest) {
      forall i, j | 0 <= i < j < |all| ensures all[i].name != all[j].name {
        assert all[j].name in Names(rest);
      }
    }
  }

  lemma {:induction false} SetPropertyIsGood(props: seq<Property>, p: Property)
    requires GoodProperties(props) && PlainName(p.name) && WellFormed(p.schema)
    ensures GoodProperties(SetProperty(props, p))
    ensures Names(SetProperty(props, p)) == Names(props) + {p.name}
    decreases |props|
  {
    if props == [] {
      GoodCons(p, []);
      NamesCons(p, []);
      assert [p] + [] == [p];
    } else {
      var head, rest := props[0], props[1..];
      assert props == [head] + rest;
      GoodCons(head, rest);
      NamesCons(head, rest);
      if head.name == p.name {
        GoodCons(p, rest);
        NamesCons(p, rest);
      } else {
        SetPropertyIsGood(rest, p);
        GoodCons(head, SetProperty(rest, p));
        NamesCons(head, SetProperty(rest, p));
      }
    }
  }

  lemma {:induction false} SetPropertiesIsGood(props: seq<Property>, more: seq<Property>)
    requires GoodProperties(props) && GoodProperties(more)
    ensures GoodProperties(SetProperties(props, more))
    decreases |more|
  {
    if more != [] {
      SetPropertyIsGood(props, more[0]);
      assert more == [more[0]] + more[1..];
      GoodCons(more[0], more[1..]);
      SetPropertiesIsGood(SetProperty(props, more[0]), more[1..]);
    }
  }

  lemma {:induction false} GatherIsGood(props: seq<Property>, members: seq<Schema>)
    requires GoodProperties(props) && forall i | 0 <= i < |members| :: WellFormed(members[i])
    ensures GoodProperties(Gather(props, members))
    decreases |members|
  {
    if members != [] {
      SetPropertiesIsGood(props, members[0].props);
      GatherIsGood(SetProperties(props, members[0].props), members[1..]);
    }
  }

  lemma {:induction false} FlattenIsWellFormed(s: Schema)
    requires WellFormed(s)
    ensures WellFormed(Flatten(s))
    decreases s
  {
    if s.isArray {
      if s.items.Some? { FlattenIsWellFormed(s.items.value); }
    } else {
      var own := seq(|s.props|, i requires 0 <= i < |s.props| => Property(s.props[i].name, Flatten(s.props[i].schema)));
      var members := seq(|s.allOf|, i requires 0 <= i < |s.allOf| => Flatten(s.allOf[i]));
      forall i | 0 <= i < |own| ensures PlainName(own[i].name) && WellFormed(own[i].schema) {
        FlattenIsWellFormed(s.props[i].schema);
      }
      forall i | 0 <= i < |members| ensures WellFormed(members[i]) { FlattenIsWellFormed(s.allOf[i]); }
      GatherIsGood(own, members);
    }
  }

  // ----- leaves -----

  function Under(name: string, paths: seq<Path>): seq<Path> {
    seq(|paths|, i requires 0 <= i < |paths| => [name] + paths[i])
  }

  /** The paths of the leaves below a schema, relative to it; nothing below the depth bound. */
  function Leaves(s: Schema, depth: nat): seq<Path>
    decreases MAX_DEPTH + 1 - depth, 1, 0
  {
    if depth > MAX_DEPTH then []
    else
      var props := Flatten(s).props;
      if props == [] then [[]] else LeavesOf(props, depth)
  }

  function LeavesOf(props: seq<Property>, depth: nat): seq<Path>
    requires depth <= MAX_DEPTH
    decreases MAX_DEPTH + 1 - depth, 0, |props|
  {
    if props == [] then []
    else Under(props[0].name, Leaves(props[0].schema, depth + 1)) + LeavesOf(props[1..], depth)
  }

  /** UpdatableBodyPaths, as lists of names: a schema without properties of its own gives none. */
  function Updatable(s: Schema): seq<Path> {
    if Flatten(s).props == [] then [] else Leaves(s, 0)
  }

  function RequestedBody(s: Schema): set<string> {
    Names(Flatten(s).props)
  }

  /** The dotted text of every path, each below the same prefix. */
  function Texts(prefix: Path, paths: seq<Path>): seq<string> {
    seq(|paths|, i requires 0 <= i < |paths| => Join(prefix + paths[i]))
  }

  /** An empty prefix is written only at the root, where it names nothing. */
  method CollectLeafPaths(s: Schema, prefix: string, depth: nat, ghost names: Path) returns (out: seq<string>)
    requires WellFormed(s) && prefix == Join(names) && PlainPath(names)
    ensures out == if names == [] && Flatten(s).props == [] then [] else Texts(names, Leaves(s, depth))
    decreases MAX_DEPTH + 1 - depth, 1, 0
  {
    if depth > MAX_DEPTH { return []; }
    var schema := Flatten(s);
    FlattenIsWellFormed(s);
    JoinAppends(names, "");
    if schema.props == [] {
      assert names + [] == names;
      out := if prefix != "" then [prefix] else [];
    } else {
      out := CollectProperties(schema.props, prefix, depth, names);
    }
  }

  method CollectProperties(props: seq<Property>, prefix: string, depth: nat, ghost names: Path)
    returns (out: seq<string>)
    requires GoodProperties(props) && prefix == Join(names) && PlainPath(names) && depth <= MAX_DEPTH
    ensures out == Texts(names, LeavesOf(props, depth))
    decreases MAX_DEPTH + 1 - depth, 0, |props|
  {
    out := [];
    for i := 0 to |props|
      invariant out + Texts(names, LeavesOf(props[i..], depth)) == Texts(names, LeavesOf(props, depth))
    {
      var prop := props[i];
      assert props[i..][1..] == props[i + 1..];
      var next := prop.name;
      if prefix != "" { next := prefix + "." + prop.name; }
      JoinAppends(names, prop.name);
      var below := CollectLeafPaths(prop.schema, next, depth + 1, names + [prop.name]);
      TextsUnder(names, prop.name, Leaves(prop.schema, depth + 1), LeavesOf(props[i + 1..], depth));
      out := out + below;
    }
    assert Texts(names, LeavesOf([], depth)) == [];
  }

  method UpdatableBodyPaths(s: Schema) returns (out: seq<string>)
    requires WellFormed(s)
    ensures out == Texts([], Updatable(s))
  {
    out := CollectLeafPaths(s, "", 0, []);
  }

  lemma {:induction false} JoinAppends(names: Path, n: string)
    requires PlainPath(names)
    ensures Join(names + [n]) == if names == [] then n else Join(names) + "." + n
    ensures names == [] <==> Join(names) == ""
    decreases |names|
  {
    if names == [] {
      assert names + [n] == [n];
    } else {
      assert (names + [n])[1..] == names[1..] + [n];
      JoinAppends(names[1..], n);
      if |names| > 1 {
        assert names[0] + "." + (Join(names[1..]) + "." + n) == names[0] + "." + Join(names[1..]) + "." + n;
      }
    }
  }

  lemma TextsUnder(names: Path, n: string, below: seq<Path>, others: seq<Path>)
    ensures Texts(names, Under(n, below) + others) == Texts(names + [n], below) + Texts(names, others)
  {
    forall i | 0 <= i < |below| ensures names + ([n] + below[i]) == names + [n] + below[i] {}
  }

  // ----- laws of the walk -----

  predicate PrefixFree(paths: seq<Path>) {
    forall i, j | 0 <= i < |paths| && 0 <= j < |paths| && i != j :: Disjoint(paths[i], paths[j])
  }

  predicate PlainPath(p: Path) {
    forall i | 0 <= i < |p| :: PlainName(p[i])
  }

  lemma {:induction false} LeavesArePrefixFree(s: Schema, depth: nat)
    requires WellFormed(s)
    ensures PrefixFree(Leaves(s, depth))
    ensures forall i | 0 <= i < |Leaves(s, depth)| :: PlainPath(Leaves(s, depth)[i])
    decreases MAX_DEPTH + 1 - depth, 1, 0
  {
    FlattenIsWellFormed(s);
    if depth <= MAX_DEPTH && Flatten(s).props != [] { LeavesOfArePrefixFree(Flatten(s).props, depth); }
  }

  lemma {:induction false} LeavesOfArePrefixFree(props: seq<Property>, depth: nat)
    requires GoodProperties(props) && depth <= MAX_DEPTH
    ensures var l := LeavesOf(props, depth);
            PrefixFree(l) && forall i | 0 <= i < |l| :: l[i] != [] && PlainPath(l[i]) && l[i][0] in Names(props)
    decreases MAX_DEPTH + 1 - depth, 0, |props|
  {
    if props != [] {
      var n, below, rest := props[0].name, Leaves(props[0].schema, depth + 1), props[1..];
      assert props == [props[0]] + rest;
      GoodCons(props[0], rest);
      NamesCons(props[0], rest);
      LeavesArePrefixFree(props[0].schema, depth + 1);
      LeavesOfArePrefixFree(rest, depth);
      UnderIsPrefixFree(n, below, LeavesOf(rest, depth));
    }
  }

  lemma UnderIsPrefixFree(n: string, below: seq<Path>, others: seq<Path>)
    requires PlainName(n) && PrefixFree(below) && forall i | 0 <= i < |below| :: PlainPath(below[i])
    requires PrefixFree(others)
    requires forall i | 0 <= i < |others| :: others[i] != [] && PlainPath(others[i]) && others[i][0] != n
    ensures var l := Under(n, below) + others;
            PrefixFree(l) && forall i | 0 <= i < |l| ::
              l[i] != [] && PlainPath(l[i]) && (l[i][0] == n || l[i] in others)
  {
    var mine := Under(n, below);
    var l := mine + others;
    forall i | 0 <= i < |mine| ensures mine[i][0] == n && mine[i][1..] == below[i] && PlainPath(mine[i]) {}
    forall i | 0 <= i < |l| ensures l[i] != [] && PlainPath(l[i]) && (l[i][0] == n || l[i] in others) {
      if i >= |mine| { assert l[i] == others[i - |mine|]; }
    }
    forall i, j | 0 <= i < |l| && 0 <= j < |l| && i != j ensures Disjoint(l[i], l[j]) {
      if i < |mine| && j < |mine| {
        assert Disjoint(mine[i][1..], mine[j][1..]);
      } else if i >= |mine| && j >= |mine| {
        assert l[i] == others[i - |mine|] && l[j] == others[j - |mine|];
      } else if i < |mine| {
        assert l[j] == others[j - |mine|];
      } else {
        assert l[i] == others[i - |mine|];
      }
    }
  }

  /** The updatable paths are prefix-free, plain, and begin with a field the request body declares. */
  lemma UpdatablePaths(s: Schema)
    requires WellFormed(s)
    ensures PrefixFree(Updatable(s))
    ensures forall p | p in Updatable(s) :: p != [] && PlainPath(p) && p[0] in RequestedBody(s)
  {
    FlattenIsWellFormed(s);
    if Flatten(s).props != [] { LeavesOfArePrefixFree(Flatten(s).props, 0); }
  }

  // ----- what allOf declares -----

  /** The schema of a property, if there is one of that name. */
  function PropertyOf(props: seq<Property>, n: string): Option<Schema> {
    if props == [] then None
    else if props[0].name == n then Some(props[0].schema)
    else PropertyOf(props[1..], n)
  }

  /** The last of these schemas to declare a property gives it its schema. */
  function Given(members: seq<Schema>, n: string): Option<Schema>
    decreases members
  {
    if members == [] then None
    else if Given(members[1..], n).Some? then Given(members[1..], n)
    else Effective(members[0], n)
  }

  /** The schema that a body field ends up with: allOf, at any depth, goes before the properties beside it. */
  function Effective(s: Schema, n: string): Option<Schema>
    decreases s
  {
    if !s.isArray && Given(s.allOf, n).Some? then Given(s.allOf, n) else PropertyOf(s.props, n)
  }

  /** The schema declares no property at all: a scalar, an array, or an object left open. */
  ghost predicate Leaf(s: Schema) {
    forall n :: Effective(s, n).None?
  }

  /** Property by property the path leads to a leaf. */
  ghost predicate LeadsToLeaf(s: Schema, p: Path)
    decreases |p|
  {
    if p == [] then Leaf(s)
    else Effective(s, p[0]).Some? && LeadsToLeaf(Effective(s, p[0]).value, p[1..])
  }

  lemma {:induction false} PropertySet(props: seq<Property>, p: Property, n: string)
    ensures PropertyOf(SetProperty(props, p), n) == if n == p.name then Some(p.schema) else PropertyOf(props, n)
    decreases |props|
  {
    if props != [] {
      PropertySet(props[1..], p, n);
      var after := SetProperty(props, p);
      assert props[0].name == p.name ==> after[0] == p && after[1..] == props[1..];
      assert props[0].name != p.name ==> after[0] == props[0] && after[1..] == SetProperty(props[1..], p);
    }
  }

  lemma {:induction false} PropertiesSet(props: seq<Property>, more: seq<Property>, n: string)
    requires UniqueNames(more)
    ensures PropertyOf(SetProperties(props, more), n)
            == if PropertyOf(more, n).Some? then PropertyOf(more, n) else PropertyOf(props, n)
    decreases |more|
  {
    if more != [] {
      PropertySet(props, more[0], n);
      assert forall k | 0 <= k < |more| - 1 :: more[1..][k] == more[k + 1];
      PropertiesSet(SetProperty(props, more[0]), more[1..], n);
      if n == more[0].name { NotAgain(more, n); }
    }
  }

  lemma {:induction false} NotAgain(props: seq<Property>, n: string)
    requires props != [] && UniqueNames(props) && props[0].name == n
    ensures PropertyOf(props[1..], n) == None
  {
    NotThere(props[1..], n);
  }

  lemma {:induction false} NotThere(props: seq<Property>, n: string)
    ensures PropertyOf(props, n) == None <==> forall k | 0 <= k < |props| :: props[k].name != n
    decreases |props|
  {
    if props != [] {
      NotThere(props[1..], n);
      assert forall k | 0 <= k < |props| - 1 :: props[1..][k] == props[k + 1];
      assert forall k | 0 < k < |props| :: props[k] == props[1..][k - 1];
    }
  }

  /** Flattened or not. */
  predicate Alike(x: Option<Schema>, y: Option<Schema>) {
    match x
    case None => y == None
    case Some(s) => y == Some(s) || y == Some(Flatten(s))
  }

  function FlattenAll(members: seq<Schema>): seq<Schema> {
    seq(|members|, i requires 0 <= i < |members| => Flatten(members[i]))
  }

  function FlattenProps(props: seq<Property>): seq<Property> {
    seq(|props|, i requires 0 <= i < |props| => Property(props[i].name, Flatten(props[i].schema)))
  }

  lemma {:induction false} PropertyFlattened(props: seq<Property>, n: string)
    ensures PropertyOf(FlattenProps(props), n)
            == match PropertyOf(props, n) case Some(x) => Some(Flatten(x)) case None => None
    decreases |props|
  {
    if props != [] {
      PropertyFlattened(props[1..], n);
      assert FlattenProps(props)[1..] == FlattenProps(props[1..]);
    }
  }

  /** Flattening, in these terms. */
  lemma FlattenIs(s: Schema)
    requires !s.isArray
    ensures Flatten(s) == s.(props := Gather(FlattenProps(s.props), FlattenAll(s.allOf)), allOf := FlattenAll(s.allOf))
  {
    var own := seq(|s.props|, i requires 0 <= i < |s.props| => Property(s.props[i].name, Flatten(s.props[i].schema)));
    var members := seq(|s.allOf|, i requires 0 <= i < |s.allOf| => Flatten(s.allOf[i]));
    assert own == FlattenProps(s.props) && members == FlattenAll(s.allOf);
  }

  /** What allOf declares is among the properties of the flattened schema, and nothing else changes there. */
  lemma {:induction false} GatherGives(props: seq<Property>, members: seq<Schema>, n: string)
    requires forall k | 0 <= k < |members| :: WellFormed(members[k])
    ensures var r := PropertyOf(Gather(props, FlattenAll(members)), n);
            if Given(members, n).Some? then Alike(Given(members, n), r) else r == PropertyOf(props, n)
    decreases members
  {
    if members != [] {
      var m, rest := Flatten(members[0]), members[1..];
      assert FlattenAll(members)[0] == m && FlattenAll(members)[1..] == FlattenAll(rest);
      FlattenIsWellFormed(members[0]);
      PropertiesSet(props, m.props, n);
      FlattenGives(members[0], n);
      GatherGives(SetProperties(props, m.props), rest, n);
    }
  }

  lemma {:induction false} FlattenGives(s: Schema, n: string)
    requires WellFormed(s)
    ensures Alike(Effective(s, n), PropertyOf(Flatten(s).props, n))
    decreases s
  {
    if !s.isArray {
      FlattenIs(s);
      PropertyFlattened(s.props, n);
      GatherGives(FlattenProps(s.props), s.allOf, n);
    }
  }

  lemma {:induction false} GivenFlattened(members: seq<Schema>, n: string)
    requires forall k | 0 <= k < |members| :: WellFormed(members[k])
    ensures Alike(Given(members, n), Given(FlattenAll(members), n))
    decreases members
  {
    if members != [] {
      assert FlattenAll(members)[0] == Flatten(members[0]) && FlattenAll(members)[1..] == FlattenAll(members[1..]);
      GivenFlattened(members[1..], n);
      EffectiveFlattened(members[0], n);
    }
  }

  lemma {:induction false} EffectiveFlattened(s: Schema, n: string)
    requires WellFormed(s)
    ensures Alike(Effective(s, n), Effective(Flatten(s), n))
    decreases s
  {
    if !s.isArray {
      FlattenIs(s);
      GivenFlattened(s.allOf, n);
      FlattenGives(s, n);
    }
  }

  lemma {:induction false} GivenIsWellFormed(members: seq<Schema>, n: string)
    requires forall k | 0 <= k < |members| :: WellFormed(members[k])
    ensures Given(members, n).Some? ==> WellFormed(Given(members, n).value)
    decreases members
  {
    if members != [] {
      GivenIsWellFormed(members[1..], n);
      EffectiveIsWellFormed(members[0], n);
    }
  }

  lemma {:induction false} EffectiveIsWellFormed(s: Schema, n: string)
    requires WellFormed(s)
    ensures Effective(s, n).Some? ==> WellFormed(Effective(s, n).value)
    decreases s
  {
    GivenIsWellFormed(s.allOf, n);
    PropertyIsWellFormed(s.props, n);
  }

  lemma {:induction false} PropertyIsWellFormed(props: seq<Property>, n: string)
    requires forall k | 0 <= k < |props| :: WellFormed(props[k].schema)
    ensures PropertyOf(props, n).Some? ==> WellFormed(PropertyOf(props, n).value)
    decreases |props|
  {
    if props != [] { PropertyIsWellFormed(props[1..], n); }
  }

  lemma {:induction false} LeadsFlattened(s: Schema, p: Path)
    requires WellFormed(s)
    ensures LeadsToLeaf(Flatten(s), p) <==> LeadsToLeaf(s, p)
    decreases |p|
  {
    forall n ensures Effective(Flatten(s), n).Some? <==> Effective(s, n).Some? { EffectiveFlattened(s, n); }
    if p != [] && Effective(s, p[0]).Some? {
      EffectiveFlattened(s, p[0]);
      EffectiveIsWellFormed(s, p[0]);
      LeadsFlattened(Effective(s, p[0]).value, p[1..]);
    }
  }

  lemma NoProperties(s: Schema)
    requires WellFormed(s)
    ensures Flatten(s).props == [] <==> Leaf(s)
  {
    forall n ensures PropertyOf(Flatten(s).props, n).Some? <==> Effective(s, n).Some? { FlattenGives(s, n); }
    if Flatten(s).props != [] { assert PropertyOf(Flatten(s).props, Flatten(s).props[0].name).Some?; }
  }

  lemma {:induction false} LeavesExactly(s: Schema, depth: nat, p: Path)
    requires WellFormed(s)
    ensures p in Leaves(s, depth) <==> depth + |p| <= 20 && LeadsToLeaf(s, p)
    decreases |p|, 1, 0
  {
    NoProperties(s);
    FlattenIsWellFormed(s);
    if depth <= MAX_DEPTH && Flatten(s).props != [] {
      LeavesOfExactly(Flatten(s).props, depth, p);
      if p != [] {
        FlattenGives(s, p[0]);
        EffectiveIsWellFormed(s, p[0]);
        if Effective(s, p[0]).Some? { LeadsFlattened(Effective(s, p[0]).value, p[1..]); }
      }
    }
  }

  lemma {:induction false} LeavesOfExactly(props: seq<Property>, depth: nat, p: Path)
    requires GoodProperties(props) && depth <= MAX_DEPTH
    ensures p in LeavesOf(props, depth)
            <==> p != [] && PropertyOf(props, p[0]).Some? && depth + |p| <= 20
                 && LeadsToLeaf(PropertyOf(props, p[0]).value, p[1..])
    decreases |p|, 0, |props|
  {
    if props != [] {
      var n, below, rest := props[0].name, Leaves(props[0].schema, depth + 1), props[1..];
      assert props == [props[0]] + rest;
      GoodCons(props[0], rest);
      LeavesOfExactly(rest, depth, p);
      InUnder(n, below, p);
      if p != [] && p[0] == n {
        LeavesExactly(props[0].schema, depth + 1, p[1..]);
        NotAgain(props, n);
      }
    }
  }

  lemma InUnder(n: string, paths: seq<Path>, p: Path)
    ensures p in Under(n, paths) <==> p != [] && p[0] == n && p[1..] in paths
  {
    if p in Under(n, paths) {
      var i :| 0 <= i < |paths| && Under(n, paths)[i] == p;
      assert p[1..] == paths[i];
    }
    if p != [] && p[0] == n && p[1..] in paths {
      var i :| 0 <= i < |paths| && paths[i] == p[1..];
      assert Under(n, paths)[i] == p;
    }
  }

  /**
   * The updatable paths are those that lead, property by property, to a schema that declares none, at most twenty
   * levels down; what allOf declares counts, and goes before a property of the same name beside it.
   */
  lemma UpdatableExactly(s: Schema, p: Path)
    requires WellFormed(s)
    ensures p in Updatable(s) <==> 1 <= |p| <= 20 && LeadsToLeaf(s, p)
  {
    NoProperties(s);
    if Flatten(s).props != [] {
      LeavesExactly(s, 0, p);
      FlattenIsWellFormed(s);
      LeavesOfExactly(Flatten(s).props, 0, p);
    } else if p != [] {
      assert Effective(s, p[0]).None?;
    }
  }
}
