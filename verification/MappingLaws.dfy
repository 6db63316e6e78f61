/**
 * What a request holds, told from the fields of its mappings: which of them go to the path, the query and the
 * body, and with which values.
 */
module MappingLaws {
  import opened Options
  import opened Json
  import opened Nested
  import opened PathParsing
  import opened Unstructured
  import opened KeyPaths
  import opened DeepCopy
  import opened CallConfig
  import opened CallConfigLaws
  import FieldMapping
  import AliasLaws
  import MappedFields
  import RequestLaws
  import PathLaws
  import SetLaws
  import RemoveLaws

  // ----- one mapping -----

  /** The value a mapping takes up: the resolved one if it has a resolver, else the resource's. */
  function Taken(inp: Inputs, m: Mapping): Option<JSON> {
    if !m.resolver.NoResolver? then
      var k := ResolverKey(m.inPath, m.inQuery, m.inBody, m.inCustomResource);
      if k in inp.resolved then Some(inp.resolved[k]) else None
    else
      match ParsePath(m.inCustomResource)
      case None => None
      case Some(p) =>
        if p != [] && Get(inp.show, inp.resource, p).Found? then Some(Get(inp.show, inp.resource, p).value) else None
  }

  /** The value it passes on: through its alias table, or not at all if a program would have to run. */
  function Provided(inp: Inputs, m: Mapping): Option<JSON> {
    match Taken(inp, m)
    case None => None
    case Some(v) =>
      match m.valueMapping
      case NoMapping => Some(v)
      case Unsupported => None
      case Aliases(aliases) =>
        if inp.show(v) in AliasLaws.CrValues(aliases) then Some(Str(AliasLaws.Sent(inp.show(v), aliases))) else Some(v)
  }

  /** It gives the path parameter `n` its value. */
  predicate FillsPath(inp: Inputs, m: Mapping, n: string) {
    m.inPath != "" && ParsePath(m.inPath) == Some([n]) && Provided(inp, m).Some?
  }

  /** It gives the query parameter `n` its value, having no path to go to. */
  predicate FillsQuery(inp: Inputs, m: Mapping, n: string) {
    m.inPath == "" && m.inQuery != "" && ParsePath(m.inQuery) == Some([n]) && Provided(inp, m).Some?
  }

  /** It writes at `p` of the body, having neither path nor query to go to. */
  predicate FillsBody(inp: Inputs, m: Mapping, p: Path) {
    && m.inPath == "" && m.inQuery == "" && m.inBody != ""
    && p != [] && ParsePath(m.inBody) == Some(p) && Provided(inp, m).Some?
  }

  /** The deprecated mappings know neither resolvers nor value mappings. */
  function AsOld(m: Mapping): Mapping {
    m.(resolver := NoResolver, valueMapping := NoMapping)
  }

  /** All mappings of a verb, in the order in which they are applied. */
  function Declared(info: CallInfo): seq<Mapping> {
    seq(|info.requestFieldMapping|,
        i requires 0 <= i < |info.requestFieldMapping| => AsOld(info.requestFieldMapping[i]))
    + info.fieldMapping
  }

  lemma ValueIsProvided(inp: Inputs, m: Mapping)
    requires ForRequest(m)
    ensures NewEffect(inp, m)
            == match Provided(inp, m) case Some(v) => Aim(inp.show, m, v) case None => NoEffect
  {
    match Taken(inp, m)
    case None =>
    case Some(v) =>
      match m.valueMapping
      case Aliases(aliases) => MappedFields.SentValue(inp.show, v, aliases);
      case _ =>
  }

  /** What a mapping does follows from where it says it goes. */
  lemma EffectOf(inp: Inputs, m: Mapping)
    ensures forall n, t :: NewEffect(inp, m) == ToPath(n, t)
              <==> FillsPath(inp, m, n) && t == inp.show(Provided(inp, m).value)
    ensures forall n, t :: NewEffect(inp, m) == ToQuery(n, t)
              <==> FillsQuery(inp, m, n) && t == inp.show(Provided(inp, m).value)
    ensures forall p, v :: NewEffect(inp, m) == ToBody(p, v)
              <==> FillsBody(inp, m, p) && v == Copy(inp.show, Provided(inp, m).value)
  {
    if ForRequest(m) { ValueIsProvided(inp, m); }
    SingleSegment(m.inPath);
    SingleSegment(m.inQuery);
  }

  lemma SingleSegment(s: string)
    ensures forall n :: Single(s) == Some(n) <==> ParsePath(s) == Some([n])
  {
    if ParsePath(s).Some? && |ParsePath(s).value| == 1 { assert ParsePath(s).value == [ParsePath(s).value[0]]; }
  }

  lemma EffectsOf(inp: Inputs, info: CallInfo, i: nat)
    requires i < |Declared(info)|
    ensures |Effects(inp, info)| == |Declared(info)|
    ensures Effects(inp, info)[i] == NewEffect(inp, Declared(info)[i])
  {
    var n := |info.requestFieldMapping|;
    if i < n {
      var m := info.requestFieldMapping[i];
      assert Declared(info)[i] == AsOld(m);
      if ForRequest(m) { ValueIsProvided(inp, AsOld(m)); }
    } else {
      assert Declared(info)[i] == info.fieldMapping[i - n];
    }
  }

  // ----- path and query parameters -----

  /** The text of the last of these mappings that fills the path parameter. */
  function LastInPath(inp: Inputs, ms: seq<Mapping>, n: string): Option<string> {
    if ms == [] then None
    else
      var m := ms[|ms| - 1];
      if FillsPath(inp, m, n) then Some(inp.show(Provided(inp, m).value)) else LastInPath(inp, ms[..|ms| - 1], n)
  }

  function LastInQuery(inp: Inputs, ms: seq<Mapping>, n: string): Option<string> {
    if ms == [] then None
    else
      var m := ms[|ms| - 1];
      if FillsQuery(inp, m, n) then Some(inp.show(Provided(inp, m).value)) else LastInQuery(inp, ms[..|ms| - 1], n)
  }

  lemma {:induction false} LastOfEffects(inp: Inputs, ms: seq<Mapping>, es: seq<Effect>, n: string)
    requires |es| == |ms| && forall i | 0 <= i < |ms| :: es[i] == NewEffect(inp, ms[i])
    ensures LastToPath(es, n) == LastInPath(inp, ms, n) && LastToQuery(es, n) == LastInQuery(inp, ms, n)
    decreases |ms|
  {
    if ms != [] {
      EffectOf(inp, ms[|ms| - 1]);
      LastOfEffects(inp, ms[..|ms| - 1], es[..|es| - 1], n);
    }
  }

  /** What the configuration says for this action, if it says something. */
  function FromConfiguration(inp: Inputs, kind: string, action: string, n: string): Option<string> {
    match inp.config
    case None => None
    case Some(c) => match NestedField(Obj(c), [kind, action, n]) case Found(v) => Some(inp.show(v)) case _ => None
  }

  lemma OneField(v: JSON, n: string)
    ensures NestedField(v, [n]).Found? <==> v.Obj? && n in v.fields
    ensures NestedField(v, [n]).Found? ==> NestedField(v, [n]).value == v.fields[n]
  {
    assert [n][1..] == [];
  }

  lemma SectionLookup(inp: Inputs, kind: string, action: string, n: string)
    ensures Lookup(Section(inp, kind, action), n) == FromConfiguration(inp, kind, action, n)
  {
    if inp.config.Some? {
      var c := inp.config.value;
      assert [kind, action, n][1..] == [action, n] && [action, n][1..] == [n] && [n][1..] == [];
      if kind in c {
        assert NestedField(Obj(c), [kind, action, n]) == NestedField(c[kind], [action, n]);
        if c[kind].Obj? && action in c[kind].fields { OneField(c[kind].fields[action], n); }
      }
    }
  }

  /** The first that has it: last mapping, static query (query only), configuration, spec, status. */
  lemma ValueSources(inp: Inputs, info: CallInfo, n: string)
    ensures Lookup(Build(inp, info).parameters, n)
            == First(LastInPath(inp, Declared(info), n),
                     First(FromConfiguration(inp, "path", info.action, n), FromResource(inp, info.parameters, n)))
    ensures Lookup(Build(inp, info).query, n)
            == First(LastInQuery(inp, Declared(info), n),
                     First(LastStatic(info.queries, n),
                           First(FromConfiguration(inp, "query", info.action, n),
                                 FromResource(inp, info.queryNames, n))))
  {
    forall i | 0 <= i < |Declared(info)|
      ensures |Effects(inp, info)| == |Declared(info)| && Effects(inp, info)[i] == NewEffect(inp, Declared(info)[i])
    {
      EffectsOf(inp, info, i);
    }
    LastOfEffects(inp, Declared(info), Effects(inp, info), n);
    EffectSources(inp, info, n);
    SectionLookup(inp, "path", info.action, n);
    SectionLookup(inp, "query", info.action, n);
  }

  lemma {:induction false} LastFills(inp: Inputs, ms: seq<Mapping>, n: string, i: nat)
    requires i < |ms|
    ensures FillsPath(inp, ms[i], n) && (forall j | i < j < |ms| :: !FillsPath(inp, ms[j], n)) ==>
              LastInPath(inp, ms, n) == Some(inp.show(Provided(inp, ms[i]).value))
    ensures FillsQuery(inp, ms[i], n) && (forall j | i < j < |ms| :: !FillsQuery(inp, ms[j], n)) ==>
              LastInQuery(inp, ms, n) == Some(inp.show(Provided(inp, ms[i]).value))
    decreases |ms|
  {
    if i < |ms| - 1 { LastFills(inp, ms[..|ms| - 1], n, i); }
  }

  /** The last mapping that can fill a parameter does, whatever else would give it a value. */
  lemma LastMappingWins(inp: Inputs, info: CallInfo, n: string, i: nat)
    requires i < |Declared(info)|
    ensures var ms := Declared(info);
            && (FillsPath(inp, ms[i], n) && (forall j | i < j < |ms| :: !FillsPath(inp, ms[j], n)) ==>
                  n in Build(inp, info).parameters
                  && Build(inp, info).parameters[n] == inp.show(Provided(inp, ms[i]).value))
            && (FillsQuery(inp, ms[i], n) && (forall j | i < j < |ms| :: !FillsQuery(inp, ms[j], n)) ==>
                  n in Build(inp, info).query
                  && Build(inp, info).query[n] == inp.show(Provided(inp, ms[i]).value))
  {
    LastFills(inp, Declared(info), n, i);
    ValueSources(inp, info, n);
  }

  /** Static headers come before those of the configuration; cookies come from there alone. */
  lemma HeaderSources(inp: Inputs, info: CallInfo, n: string)
    ensures Lookup(Build(inp, info).headers, n)
            == First(LastStatic(info.headers, n), FromConfiguration(inp, "headers", info.action, n))
    ensures Lookup(Build(inp, info).cookies, n) == FromConfiguration(inp, "cookies", info.action, n)
  {
    OnlyMapped(inp.show, Effects(inp, info), Filled(inp, info));
    StaticLookup(Section(inp, "headers", info.action), info.headers, n);
    SectionLookup(inp, "headers", info.action, n);
    SectionLookup(inp, "cookies", info.action, n);
  }

  lemma {:induction false} OnlyMapped(show: Printer, effects: seq<Effect>, r: Request)
    ensures ApplyAll(show, effects, r).headers == r.headers && ApplyAll(show, effects, r).cookies == r.cookies
    decreases |effects|
  {
    if effects != [] { OnlyMapped(show, effects[1..], Apply(show, effects[0], r)); }
  }

  // ----- the body -----

  /** The body with what these mappings write into it, one after another; a refused write changes nothing. */
  function BodyAfter(inp: Inputs, ms: seq<Mapping>, body: Fields): Fields
    decreases |ms|
  {
    if ms == [] then body else BodyAfter(inp, ms[1..], BodyWith(inp, ms[0], body))
  }

  function BodyWith(inp: Inputs, m: Mapping, body: Fields): Fields {
    match ParsePath(m.inBody)
    case None => body
    case Some(p) =>
      if !FillsBody(inp, m, p) then body
      else match SetAt(inp.show, Obj(body), Copy(inp.show, Provided(inp, m).value), p)
        case Written(Obj(next)) => next
        case _ => body
  }

  lemma OneMapping(inp: Inputs, m: Mapping, r: Request)
    ensures Apply(inp.show, NewEffect(inp, m), r).body == BodyWith(inp, m, r.body)
  {
    EffectOf(inp, m);
    match NewEffect(inp, m)
    case ToBody(p, v) => assert FillsBody(inp, m, p);
    case _ =>
  }

  lemma {:induction false} AllMappings(inp: Inputs, ms: seq<Mapping>, es: seq<Effect>, r: Request)
    requires |es| == |ms| && forall i | 0 <= i < |ms| :: es[i] == NewEffect(inp, ms[i])
    ensures ApplyAll(inp.show, es, r).body == BodyAfter(inp, ms, r.body)
    decreases |ms|
  {
    if ms != [] {
      OneMapping(inp, ms[0], r);
      AllMappings(inp, ms[1..], es[1..], Apply(inp.show, es[0], r));
    }
  }

  /** The mappings without a path or a query to go to write the body, and no other does. */
  lemma BodySources(inp: Inputs, info: CallInfo)
    ensures Build(inp, info).body
            == Strip(inp.show, info.fieldMapping, BodyAfter(inp, Declared(info), Filled(inp, info).body))
  {
    forall i | 0 <= i < |Declared(info)|
      ensures |Effects(inp, info)| == |Declared(info)| && Effects(inp, info)[i] == NewEffect(inp, Declared(info)[i])
    {
      EffectsOf(inp, info, i);
    }
    assert Declared(info) == [] ==> Effects(inp, info) == [];
    AllMappings(inp, Declared(info), Effects(inp, info), Filled(inp, info));
  }

  lemma {:induction false} Appended(inp: Inputs, a: seq<Mapping>, b: seq<Mapping>, body: Fields)
    ensures BodyAfter(inp, a + b, body) == BodyAfter(inp, b, BodyAfter(inp, a, body))
    decreases |a|
  {
    if a == [] {
      assert a + b == b;
    } else {
      assert (a + b)[0] == a[0] && (a + b)[1..] == a[1..] + b;
      Appended(inp, a[1..], b, BodyWith(inp, a[0], body));
    }
  }

  /** These mappings write at paths that part from `p` at map keys. */
  ghost predicate WriteElsewhere(inp: Inputs, ms: seq<Mapping>, p: Path) {
    forall i, q | 0 <= i < |ms| && ParsePath(ms[i].inBody) == Some(q) && FillsBody(inp, ms[i], q) ::
      PathLaws.PartAtKeys(q, p)
  }

  lemma {:induction false} OthersKeep(inp: Inputs, ms: seq<Mapping>, body: Fields, p: Path)
    requires WriteElsewhere(inp, ms, p)
    requires Get(inp.show, Obj(body), p).Found? && RemoveLaws.KindsMatch(inp.show, Obj(body), p)
    ensures Get(inp.show, Obj(BodyAfter(inp, ms, body)), p) == Get(inp.show, Obj(body), p)
    decreases |ms|
  {
    if ms != [] {
      var m := ms[0];
      assert forall i | 0 <= i < |ms| - 1 :: ms[1..][i] == ms[i + 1];
      match ParsePath(m.inBody) {
        case Some(q) =>
          var v := Copy(inp.show, if Provided(inp, m).Some? then Provided(inp, m).value else Null);
          if FillsBody(inp, m, q) && SetAt(inp.show, Obj(body), v, q).Written? {
            RequestLaws.WriteKeepsKind(inp.show, Obj(body), v, q);
            PathLaws.WriteKeepsFound(inp.show, Obj(body), v, q, p);
          }
        case None =>
      }
      OthersKeep(inp, ms[1..], BodyWith(inp, m, body), p);
    }
  }

  predicate SourcesElsewhere(ms: seq<Mapping>, p: Path) {
    forall i | 0 <= i < |ms| && SourceOf(ms[i]).Some? :: PathLaws.PartsFrom(SourceOf(ms[i]).value, p)
  }

  lemma {:induction false} StripLeaves(show: Printer, ms: seq<Mapping>, body: Fields, p: Path)
    requires SourcesElsewhere(ms, p)
    ensures Get(show, Obj(Strip(show, ms, body)), p) == Get(show, Obj(body), p)
    decreases |ms|
  {
    if ms != [] {
      assert forall i | 0 <= i < |ms| - 1 :: ms[1..][i] == ms[i + 1];
      if SourceOf(ms[0]).Some? {
        RemoveLaws.RemoveKeepsKind(show, Obj(body), SourceOf(ms[0]).value);
        PathLaws.RemovalKeepsRead(show, Obj(body), SourceOf(ms[0]).value, p);
      }
      StripLeaves(show, ms[1..], StripOne(show, ms[0], body), p);
    }
  }

  lemma OwnWrite(inp: Inputs, m: Mapping, body: Fields, p: Path)
    requires FillsBody(inp, m, p) && SetLaws.PredicatesLeadToOtherKeys(p)
    requires SetAt(inp.show, Obj(body), Copy(inp.show, Provided(inp, m).value), p).Written?
    ensures Get(inp.show, Obj(BodyWith(inp, m, body)), p) == Found(Copy(inp.show, Provided(inp, m).value))
    ensures RemoveLaws.KindsMatch(inp.show, Obj(BodyWith(inp, m, body)), p)
  {
    var v := Copy(inp.show, Provided(inp, m).value);
    RequestLaws.WriteKeepsKind(inp.show, Obj(body), v, p);
    SetLaws.GetReturnsWhatSetWrote(inp.show, body, v, p);
    PathLaws.WriteSetsKinds(inp.show, Obj(body), v, p);
  }

  lemma BodySplits(inp: Inputs, ms: seq<Mapping>, i: nat, body: Fields)
    requires i < |ms|
    ensures BodyAfter(inp, ms, body) == BodyAfter(inp, ms[i + 1..], BodyWith(inp, ms[i], BodyAfter(inp, ms[..i], body)))
  {
    assert ms == ms[..i] + ms[i..] && ms[i..][0] == ms[i] && ms[i..][1..] == ms[i + 1..];
    Appended(inp, ms[..i], ms[i..], body);
  }

  /**
   * A mapping whose write is accepted, no later one writing on the same line and no source being stripped there,
   * has its value read at its path in the request.
   */
  lemma BodyMappingArrives(inp: Inputs, info: CallInfo, i: nat, p: Path)
    requires i < |Declared(info)| && FillsBody(inp, Declared(info)[i], p)
    requires var before := BodyAfter(inp, Declared(info)[..i], Filled(inp, info).body);
             SetAt(inp.show, Obj(before), Copy(inp.show, Provided(inp, Declared(info)[i]).value), p).Written?
    requires SetLaws.PredicatesLeadToOtherKeys(p)
    requires WriteElsewhere(inp, Declared(info)[i + 1..], p) && SourcesElsewhere(info.fieldMapping, p)
    ensures Get(inp.show, Obj(Build(inp, info).body), p)
            == Found(Copy(inp.show, Provided(inp, Declared(info)[i]).value))
  {
    var ms, filled := Declared(info), Filled(inp, info).body;
    var before := BodyAfter(inp, ms[..i], filled);
    BodySources(inp, info);
    BodySplits(inp, ms, i, filled);
    OwnWrite(inp, ms[i], before, p);
    OthersKeep(inp, ms[i + 1..], BodyWith(inp, ms[i], before), p);
    StripLeaves(inp.show, info.fieldMapping, BodyAfter(inp, ms, filled), p);
  }

  // ----- resolver sources -----

  /** What the strip removes: where the resolver's value was read from, the anchor apart. */
  lemma StrippedSource(m: Mapping, path: string)
    requires !("spec." <= path) && !("status." <= path)
    requires m.inCustomResource in {"spec." + path, "status." + path, path}
    ensures m.resolver.NoResolver? || m.inCustomResource == "" || ParsePath(path) == Some([]) ==> SourceOf(m) == None
    ensures !m.resolver.NoResolver? && m.inCustomResource != "" && ParsePath(path) != Some([]) ==>
              SourceOf(m) == ParsePath(path)
  {
    if m.inCustomResource == "spec." + path {
      Trimmed("spec.", path);
    } else if m.inCustomResource == "status." + path {
      assert m.inCustomResource[1] == 't';
      NotTrimmed("spec.", m.inCustomResource);
      Trimmed("status.", path);
    } else {
      NotTrimmed("spec.", path);
    }
    NotTrimmed("status.", path);
  }

  lemma Trimmed(prefix: string, path: string)
    ensures FieldMapping.TrimPrefix(prefix + path, prefix) == path
  {
    assert (prefix + path)[..|prefix|] == prefix;
  }

  lemma NotTrimmed(prefix: string, text: string)
    requires !(prefix <= text)
    ensures FieldMapping.TrimPrefix(text, prefix) == text
  {}

  // ----- secrets -----

  /** Noted as sensitive are the texts resolved from secrets, and no others. */
  lemma {:induction false} SecretsAreNoted(inp: Inputs, ms: seq<Mapping>, s: string)
    ensures s in Sensitive(inp, ms)
            <==> exists i | 0 <= i < |ms| :: ms[i].resolver.SecretRef? && Taken(inp, ms[i]) == Some(Str(s))
                                             && (ms[i].inPath != "" || ms[i].inQuery != "" || ms[i].inBody != "")
    decreases |ms|
  {
    if ms != [] {
      SecretsAreNoted(inp, ms[1..], s);
      assert forall i | 0 < i < |ms| :: ms[i] == ms[1..][i - 1];
      assert forall i | 0 <= i < |ms| - 1 :: ms[1..][i] == ms[i + 1];
    }
  }
}
