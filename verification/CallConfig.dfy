/** deepcopy.go and builder.go: assembling the request of one verb from configuration, spec, status and mappings. */
module DeepCopy {
  import opened Json

  function Trunc(r: real): int {
    if r >= 0.0 then r.Floor else -((-r).Floor)
  }

  predicate FitsInt64(r: real) {
    -9223372036854775808.0 <= r <= 9223372036854775807.0
  }

  /** Floats become integers, fractions being cut off; floats no int64 can hold become text. */
  function Copy(show: Printer, v: JSON): JSON {
    match v
    case Obj(fields) => Obj(map k | k in fields :: Copy(show, fields[k]))
    case Arr(items) => Arr(seq(|items|, i requires 0 <= i < |items| => Copy(show, items[i])))
    case Float(r) =>
      if FitsInt64(r) then Int(Trunc(r)) else Str(show(v))
    case _ => v
  }

  /** A number loses what comes after the point, on either side of zero; one beyond int64 becomes its text. */
  lemma NumbersCopied(show: Printer, n: int, fraction: real)
    requires 0.0 <= fraction < 1.0 && n >= 0
    ensures n < 0x7fff_ffff_ffff_ffff ==>
              Copy(show, Float(n as real + fraction)) == Int(n) && Copy(show, Float(-(n as real + fraction))) == Int(-n)
    ensures n > 0x8000_0000_0000_0000 ==>
              Copy(show, Float(n as real)) == Str(show(Float(n as real)))
              && Copy(show, Float(-(n as real))) == Str(show(Float(-(n as real))))
  {
    assert (n as real + fraction).Floor == n;
  }

  /** Other scalars stay as they are, and containers are copied value by value. */
  lemma ValuesCopied(show: Printer, v: JSON)
    ensures v.Null? || v.Bool? || v.Int? || v.Str? ==> Copy(show, v) == v
    ensures v.Obj? ==> Copy(show, v).Obj? && Copy(show, v).fields.Keys == v.fields.Keys
                       && forall k | k in v.fields :: Copy(show, v).fields[k] == Copy(show, v.fields[k])
    ensures v.Arr? ==> Copy(show, v).Arr? && |Copy(show, v).items| == |v.items|
                       && forall i | 0 <= i < |v.items| :: Copy(show, v).items[i] == Copy(show, v.items[i])
  {}
}

module CallConfig {
  import opened Options
  import opened Json
  import opened Nested
  import opened Documents
  import opened PathParsing
  import opened KeyPaths
  import opened DeepCopy
  import FieldMapping

  type Texts = map<string, string>

  datatype NameValue = NameValue(name: string, value: string)

  datatype Resolver = NoResolver | SecretRef | OtherResolver

  datatype ValueMapping = NoMapping | Aliases(aliases: seq<FieldMapping.Alias>) | Unsupported

  datatype Mapping = Mapping(
    inPath: string, inQuery: string, inBody: string, inCustomResource: string,
    resolver: Resolver, valueMapping: ValueMapping)

  datatype ResolverKey = ResolverKey(inPath: string, inQuery: string, inBody: string, inCustomResource: string)

  /** The parameters, query and body fields the operation declares, and the mappings of its verb. */
  datatype CallInfo = CallInfo(
    action: string, parameters: set<string>, queryNames: set<string>, bodyFields: set<string>,
    headers: seq<NameValue>, queries: seq<NameValue>,
    requestFieldMapping: seq<Mapping>, fieldMapping: seq<Mapping>)

  /** What the request is built from. */
  datatype Inputs = Inputs(
    show: Printer, resource: JSON, spec: Fields, status: Fields,
    config: Option<Fields>, resolved: map<ResolverKey, JSON>)

  datatype Request = Request(
    parameters: Texts, query: Texts, headers: Texts, cookies: Texts, body: Fields, sensitive: seq<string>)

  // ----- configuration and static values -----

  function Section(inp: Inputs, kind: string, action: string): Texts {
    match inp.config
    case None => map[]
    case Some(c) =>
      if kind in c && c[kind].Obj? && action in c[kind].fields && c[kind].fields[action].Obj?
      then map k | k in c[kind].fields[action].fields :: inp.show(c[kind].fields[action].fields[k])
      else map[]
  }

  function AddAll(dest: Texts, values: seq<NameValue>): Texts
    decreases |values|
  {
    if values == [] then dest
    else AddAll(if values[0].name != "" then dest[values[0].name := values[0].value] else dest, values[1..])
  }

  function Configured(inp: Inputs, info: CallInfo): Request {
    Request(Section(inp, "path", info.action),
            AddAll(Section(inp, "query", info.action), info.queries),
            AddAll(Section(inp, "headers", info.action), info.headers),
            Section(inp, "cookies", info.action), map[], [])
  }

  // ----- fields of spec and status -----

  /** Declared names that have no value yet take the field's text. */
  function FillTexts(show: Printer, wanted: set<string>, fields: Fields, dest: Texts): Texts {
    dest + map k | k in fields && k != "" && k in wanted && k !in dest :: show(fields[k])
  }

  predicate Fills(wanted: set<string>, fields: Fields, body: Fields, k: string) {
    k in fields && k != "" && k in wanted && (k !in body || body[k] == Null)
  }

  /** Declared body fields that are absent or nil take the field's value. */
  function FillBody(wanted: set<string>, fields: Fields, body: Fields): Fields {
    body + map k | k in fields && Fills(wanted, fields, body, k) :: fields[k]
  }

  function Fill(show: Printer, info: CallInfo, fields: Fields, r: Request): Request {
    r.(parameters := FillTexts(show, info.parameters, fields, r.parameters),
       query := FillTexts(show, info.queryNames, fields, r.query),
       body := FillBody(info.bodyFields, fields, r.body))
  }

  // ----- mappings -----

  datatype Effect =
    | NoEffect
    | ToPath(name: string, text: string)
    | ToQuery(name: string, text: string)
    | ToBody(path: Path, val: JSON)

  function Single(s: string): Option<string> {
    match ParsePath(s) case Some(p) => (if |p| == 1 then Some(p[0]) else None) case None => None
  }

  function ReadResource(inp: Inputs, path: string): Option<JSON> {
    match ParsePath(path)
    case None => None
    case Some(segs) =>
      if segs == [] then None
      else match Get(inp.show, inp.resource, segs) case Found(v) => Some(v) case _ => None
  }

  /** Where a mapped value goes: the path, else the query, else the body. */
  function Aim(show: Printer, m: Mapping, v: JSON): Effect {
    if m.inPath != "" then (match Single(m.inPath) case Some(n) => ToPath(n, show(v)) case None => NoEffect)
    else if m.inQuery != "" then (match Single(m.inQuery) case Some(n) => ToQuery(n, show(v)) case None => NoEffect)
    else if m.inBody != "" then
      match ParsePath(m.inBody)
      case Some(p) => if p == [] then NoEffect else ToBody(p, Copy(show, v))
      case None => NoEffect
    else NoEffect
  }

  /** The deprecated mapping: always a field of the resource, never transformed. */
  function OldEffect(inp: Inputs, m: Mapping): Effect {
    match ReadResource(inp, m.inCustomResource) case Some(v) => Aim(inp.show, m, v) case None => NoEffect
  }

  function KeyOf(m: Mapping): ResolverKey {
    ResolverKey(m.inPath, m.inQuery, m.inBody, m.inCustomResource)
  }

  function ToApi(show: Printer, v: JSON, aliases: seq<FieldMapping.Alias>): JSON {
    if aliases == [] then v
    else if show(v) == aliases[0].customResourceValue then Str(aliases[0].apiValue)
    else ToApi(show, v, aliases[1..])
  }

  predicate ForRequest(m: Mapping) {
    m.inPath != "" || m.inQuery != "" || m.inBody != ""
  }

  function MappedValue(inp: Inputs, m: Mapping): Option<JSON> {
    if !m.resolver.NoResolver? then (if KeyOf(m) in inp.resolved then Some(inp.resolved[KeyOf(m)]) else None)
    else ReadResource(inp, m.inCustomResource)
  }

  function NewEffect(inp: Inputs, m: Mapping): Effect {
    if !ForRequest(m) then NoEffect
    else match MappedValue(inp, m)
      case None => NoEffect
      case Some(v) =>
        match m.valueMapping
        case NoMapping => Aim(inp.show, m, v)
        case Aliases(aliases) => Aim(inp.show, m, ToApi(inp.show, v, aliases))
        case Unsupported => NoEffect
  }

  /** A secret is noted as soon as its value is known. */
  function Sensitive(inp: Inputs, mappings: seq<Mapping>): seq<string> {
    if mappings == [] then []
    else
      var m := mappings[0];
      (if ForRequest(m) && m.resolver.SecretRef? && KeyOf(m) in inp.resolved && inp.resolved[KeyOf(m)].Str?
       then [inp.resolved[KeyOf(m)].s] else [])
      + Sensitive(inp, mappings[1..])
  }

  /** A body write that is refused changes nothing. */
  function SetOrSkip(show: Printer, body: Fields, v: JSON, p: Path): Fields
    requires p != []
  {
    match SetAt(show, Obj(body), v, p) case Written(Obj(next)) => next case _ => body
  }

  function Apply(show: Printer, e: Effect, r: Request): Request {
    match e
    case NoEffect => r
    case ToPath(n, t) => r.(parameters := r.parameters[n := t])
    case ToQuery(n, t) => r.(query := r.query[n := t])
    case ToBody(p, v) => if p == [] then r else r.(body := SetOrSkip(show, r.body, v, p))
  }

  function ApplyAll(show: Printer, effects: seq<Effect>, r: Request): Request {
    if effects == [] then r else ApplyAll(show, effects[1..], Apply(show, effects[0], r))
  }

  function Effects(inp: Inputs, info: CallInfo): seq<Effect> {
    seq(|info.requestFieldMapping|,
        i requires 0 <= i < |info.requestFieldMapping| => OldEffect(inp, info.requestFieldMapping[i]))
    + seq(|info.fieldMapping|, i requires 0 <= i < |info.fieldMapping| => NewEffect(inp, info.fieldMapping[i]))
  }

  // ----- resolver sources -----

  /** The body path a resolver entry was read from. */
  function SourceOf(m: Mapping): Option<Path> {
    if m.resolver.NoResolver? || m.inCustomResource == "" then None
    else
      match ParsePath(FieldMapping.TrimPrefix(FieldMapping.TrimPrefix(m.inCustomResource, "spec."), "status."))
      case Some(p) => if p == [] then None else Some(p)
      case None => None
  }

  function StripOne(show: Printer, m: Mapping, body: Fields): Fields {
    match SourceOf(m)
    case None => body
    case Some(p) => match RemoveAt(show, Obj(body), p) case Obj(next) => next case _ => body
  }

  function Strip(show: Printer, mappings: seq<Mapping>, body: Fields): Fields {
    if mappings == [] then body else Strip(show, mappings[1..], StripOne(show, mappings[0], body))
  }

  /** The whole request. No iteration order appears in it. */
  function Build(inp: Inputs, info: CallInfo): Request {
    var filled := Fill(inp.show, info, inp.status, Fill(inp.show, info, inp.spec, Configured(inp, info)));
    var mapped := ApplyAll(inp.show, Effects(inp, info), filled);
    mapped.(body := Strip(inp.show, info.fieldMapping, mapped.body), sensitive := Sensitive(inp, info.fieldMapping))
  }

  // ----- the builder -----

  class RequestConfiguration {
    var parameters: Texts
    var query: Texts
    var headers: Texts
    var cookies: Texts
    var sensitiveValues: seq<string>
    const mapBody: Document

    constructor (show: Printer)
      ensures Contents() == Request(map[], map[], map[], map[], map[], [])
      ensures fresh(mapBody) && mapBody.show == show
    {
      parameters, query, headers, cookies, sensitiveValues := map[], map[], map[], map[], [];
      mapBody := new Document(show, map[]);
    }

    ghost function Contents(): Request
      reads this, mapBody
    {
      Request(parameters, query, headers, cookies, mapBody.root, sensitiveValues)
    }

    /** processFields: Go visits the fields in any order. */
    method ProcessFields(info: CallInfo, fields: Fields)
      modifies this, mapBody
      ensures Contents() == Fill(mapBody.show, info, fields, old(Contents()))
    {
      var show := mapBody.show;
      var todo := fields.Keys;
      ghost var start := Contents();
      FillNothing(show, info, start);
      while todo != {}
        invariant todo <= fields.Keys
        invariant Contents() == Fill(show, info, fields - todo, start)
        decreases todo
      {
        var field :| field in todo;
        var value := fields[field];
        FillOne(show, info, fields, todo, field, start);
        if field != "" {
          if field in info.parameters && field !in parameters {
            parameters := parameters[field := show(value)];
          }
          if field in info.queryNames && field !in query {
            query := query[field := show(value)];
          }
          if field in info.bodyFields && (field !in mapBody.root || mapBody.root[field] == Null) {
            mapBody.root := mapBody.root[field := value];
          }
        }
        todo := todo - {field};
      }
      assert fields - todo == fields;
    }

    method SetBody(v: JSON, p: Path)
      requires p != []
      modifies mapBody
      ensures mapBody.root == SetOrSkip(mapBody.show, old(mapBody.root), v, p)
    {
      var _ := mapBody.SetNestedField(v, p);
    }

    method ApplyEffect(e: Effect)
      modifies this, mapBody
      ensures Contents() == Apply(mapBody.show, e, old(Contents()))
    {
      match e {
        case NoEffect =>
        case ToPath(n, t) => parameters := parameters[n := t];
        case ToQuery(n, t) => query := query[n := t];
        case ToBody(p, v) => if p != [] { SetBody(v, p); }
      }
    }

    method ApplyEffects(effects: seq<Effect>)
      modifies this, mapBody
      ensures Contents() == ApplyAll(mapBody.show, effects, old(Contents()))
    {
      for i := 0 to |effects|
        invariant ApplyAll(mapBody.show, effects[i..], Contents()) == ApplyAll(mapBody.show, effects, old(Contents()))
      {
        assert effects[i..][1..] == effects[i + 1..];
        ApplyEffect(effects[i]);
      }
    }

    method StripResolverSources(mappings: seq<Mapping>)
      modifies mapBody
      ensures mapBody.root == Strip(mapBody.show, mappings, old(mapBody.root))
    {
      for i := 0 to |mappings|
        invariant Strip(mapBody.show, mappings[i..], mapBody.root) == Strip(mapBody.show, mappings, old(mapBody.root))
      {
        assert mappings[i..][1..] == mappings[i + 1..];
        var source := SourceOf(mappings[i]);
        if source.Some? { mapBody.RemoveNestedField(source.value); }
      }
    }
  }

  method BuildCallConfig(inp: Inputs, info: CallInfo) returns (r: RequestConfiguration)
    ensures fresh(r) && fresh(r.mapBody) && r.Contents() == Build(inp, info)
  {
    r := new RequestConfiguration(inp.show);
    r.parameters := Section(inp, "path", info.action);
    r.query := AddAll(Section(inp, "query", info.action), info.queries);
    r.headers := AddAll(Section(inp, "headers", info.action), info.headers);
    r.cookies := Section(inp, "cookies", info.action);
    r.ProcessFields(info, inp.spec);
    r.ProcessFields(info, inp.status);
    r.ApplyEffects(Effects(inp, info));
    r.sensitiveValues := Sensitive(inp, info.fieldMapping);
    r.StripResolverSources(info.fieldMapping);
  }

  lemma FillNothing(show: Printer, info: CallInfo, r: Request)
    ensures forall fields: Fields | fields == map[] :: Fill(show, info, fields, r) == r
  {
    assert FillTexts(show, info.parameters, map[], r.parameters) == r.parameters;
    assert FillTexts(show, info.queryNames, map[], r.query) == r.query;
    assert FillBody(info.bodyFields, map[], r.body) == r.body;
  }

  lemma FillOneText(show: Printer, wanted: set<string>, fields: Fields, todo: set<string>, k: string, dest: Texts)
    requires k in todo && todo <= fields.Keys
    ensures var before := FillTexts(show, wanted, fields - todo, dest);
            FillTexts(show, wanted, fields - (todo - {k}), dest)
            == if k != "" && k in wanted && k !in before then before[k := show(fields[k])] else before
  {}

  lemma FillOneField(wanted: set<string>, fields: Fields, todo: set<string>, k: string, body: Fields)
    requires k in todo && todo <= fields.Keys
    ensures var before := FillBody(wanted, fields - todo, body);
            FillBody(wanted, fields - (todo - {k}), body)
            == if k != "" && k in wanted && (k !in before || before[k] == Null) then before[k := fields[k]] else before
  {
    assert fields - (todo - {k}) == (fields - todo)[k := fields[k]];
  }

  /** Filling from one more field. */
  lemma FillOne(show: Printer, info: CallInfo, fields: Fields, todo: set<string>, k: string, r: Request)
    requires k in todo && todo <= fields.Keys
    ensures var before, after := Fill(show, info, fields - todo, r), Fill(show, info, fields - (todo - {k}), r);
            && after.parameters == (if k != "" && k in info.parameters && k !in before.parameters
                                    then before.parameters[k := show(fields[k])] else before.parameters)
            && after.query == (if k != "" && k in info.queryNames && k !in before.query
                               then before.query[k := show(fields[k])] else before.query)
            && after.body == (if k != "" && k in info.bodyFields && (k !in before.body || before.body[k] == Null)
                              then before.body[k := fields[k]] else before.body)
  {
    FillOneText(show, info.parameters, fields, todo, k, r.parameters);
    FillOneText(show, info.queryNames, fields, todo, k, r.query);
    FillOneField(info.bodyFields, fields, todo, k, r.body);
  }
}

module CallConfigLaws {
  import opened Options
  import opened Json
  import opened Nested
  import opened KeyPaths
  import opened CallConfig
  import opened Unstructured

  // ----- where a path or query value comes from -----

  function LastToPath(effects: seq<Effect>, n: string): Option<string> {
    if effects == [] then None
    else
      var e := effects[|effects| - 1];
      if e.ToPath? && e.name == n then Some(e.text) else LastToPath(effects[..|effects| - 1], n)
  }

  function LastToQuery(effects: seq<Effect>, n: string): Option<string> {
    if effects == [] then None
    else
      var e := effects[|effects| - 1];
      if e.ToQuery? && e.name == n then Some(e.text) else LastToQuery(effects[..|effects| - 1], n)
  }

  function LastStatic(values: seq<NameValue>, n: string): Option<string> {
    if values == [] then None
    else
      var v := values[|values| - 1];
      if v.name == n && n != "" then Some(v.value) else LastStatic(values[..|values| - 1], n)
  }

  function Lookup(m: Texts, n: string): Option<string> {
    if n in m then Some(m[n]) else None
  }

  function First(a: Option<string>, b: Option<string>): Option<string> {
    if a.Some? then a else b
  }

  /** A declared name's text in the spec, else in the status. */
  function FromResource(inp: Inputs, wanted: set<string>, n: string): Option<string> {
    if n == "" || n !in wanted then None
    else if n in inp.spec then Some(inp.show(inp.spec[n]))
    else if n in inp.status then Some(inp.show(inp.status[n]))
    else None
  }

  lemma {:induction false} ApplyAllEndsWith(show: Printer, effects: seq<Effect>, r: Request)
    requires effects != []
    ensures ApplyAll(show, effects, r)
            == Apply(show, effects[|effects| - 1], ApplyAll(show, effects[..|effects| - 1], r))
    decreases |effects|
  {
    if |effects| > 1 {
      ApplyAllEndsWith(show, effects[1..], Apply(show, effects[0], r));
      assert effects[1..][..|effects| - 2] == effects[..|effects| - 1][1..];
    }
  }

  lemma {:induction false} MappedLookup(show: Printer, effects: seq<Effect>, r: Request, n: string)
    ensures var after := ApplyAll(show, effects, r);
            && Lookup(after.parameters, n) == First(LastToPath(effects, n), Lookup(r.parameters, n))
            && Lookup(after.query, n) == First(LastToQuery(effects, n), Lookup(r.query, n))
    decreases |effects|
  {
    if effects != [] {
      ApplyAllEndsWith(show, effects, r);
      MappedLookup(show, effects[..|effects| - 1], r, n);
    }
  }

  lemma {:induction false} AddAllEndsWith(dest: Texts, values: seq<NameValue>)
    requires values != []
    ensures var v, front := values[|values| - 1], AddAll(dest, values[..|values| - 1]);
            AddAll(dest, values) == if v.name != "" then front[v.name := v.value] else front
    decreases |values|
  {
    if |values| > 1 {
      AddAllEndsWith(if values[0].name != "" then dest[values[0].name := values[0].value] else dest, values[1..]);
      assert values[1..][..|values| - 2] == values[..|values| - 1][1..];
    }
  }

  lemma {:induction false} StaticLookup(dest: Texts, values: seq<NameValue>, n: string)
    ensures Lookup(AddAll(dest, values), n) == First(LastStatic(values, n), Lookup(dest, n))
    decreases |values|
  {
    if values != [] {
      AddAllEndsWith(dest, values);
      StaticLookup(dest, values[..|values| - 1], n);
    }
  }

  lemma FillLookup(show: Printer, wanted: set<string>, fields: Fields, dest: Texts, n: string)
    ensures Lookup(FillTexts(show, wanted, fields, dest), n)
            == First(Lookup(dest, n), if n in fields && n != "" && n in wanted then Some(show(fields[n])) else None)
  {}

  /** Last applicable effect, static query (query only), configuration, spec, status: the first that has it. */
  lemma EffectSources(inp: Inputs, info: CallInfo, n: string)
    ensures Lookup(Build(inp, info).parameters, n)
            == First(LastToPath(Effects(inp, info), n),
                     First(Lookup(Section(inp, "path", info.action), n), FromResource(inp, info.parameters, n)))
    ensures Lookup(Build(inp, info).query, n)
            == First(LastToQuery(Effects(inp, info), n),
                     First(LastStatic(info.queries, n),
                           First(Lookup(Section(inp, "query", info.action), n), FromResource(inp, info.queryNames, n))))
  {
    var conf := Configured(inp, info);
    var withSpec := Fill(inp.show, info, inp.spec, conf);
    var filled := Fill(inp.show, info, inp.status, withSpec);
    MappedLookup(inp.show, Effects(inp, info), filled, n);
    StaticLookup(Section(inp, "query", info.action), info.queries, n);
    FillLookup(inp.show, info.parameters, inp.spec, conf.parameters, n);
    FillLookup(inp.show, info.queryNames, inp.spec, conf.query, n);
    FillLookup(inp.show, info.parameters, inp.status, withSpec.parameters, n);
    FillLookup(inp.show, info.queryNames, inp.status, withSpec.query, n);
  }

  // ----- what the body keeps -----

  /** No mapping writes at or around `q`, or asks for an array on the way to it. */
  predicate EffectsClear(effects: seq<Effect>, q: Path) {
    forall i | 0 <= i < |effects| && effects[i].ToBody? && effects[i].path != [] :: Clear(effects[i].path, q)
  }

  predicate SourcesDisjoint(mappings: seq<Mapping>, q: Path) {
    forall i | 0 <= i < |mappings| && SourceOf(mappings[i]).Some? :: Disjoint(SourceOf(mappings[i]).value, q)
  }

  lemma {:induction false} MappingsKeep(show: Printer, effects: seq<Effect>, r: Request, q: Path)
    requires EffectsClear(effects, q) && NestedField(Obj(r.body), q).Found?
    ensures NestedField(Obj(ApplyAll(show, effects, r).body), q) == NestedField(Obj(r.body), q)
    decreases |effects|
  {
    if effects != [] {
      var e := effects[0];
      if e.ToBody? && e.path != [] && SetAt(show, Obj(r.body), e.val, e.path).Written? {
        SetKeepsMapped(show, r.body, e.val, e.path, q);
      }
      MappingsKeep(show, effects[1..], Apply(show, e, r), q);
    }
  }

  lemma {:induction false} StripKeeps(show: Printer, mappings: seq<Mapping>, body: Fields, q: Path)
    requires SourcesDisjoint(mappings, q) && NestedField(Obj(body), q).Found?
    ensures NestedField(Obj(Strip(show, mappings, body)), q) == NestedField(Obj(body), q)
    decreases |mappings|
  {
    if mappings != [] {
      var source := SourceOf(mappings[0]);
      if source.Some? {
        RemoveKeepsMapped(show, body, source.value, q);
        StripKeeps(show, mappings[1..], RemoveAt(show, Obj(body), source.value).fields, q);
      } else {
        StripKeeps(show, mappings[1..], body, q);
      }
    }
  }

  /** The fields a declared body field takes its value from: the status, if it has what the spec leaves nil. */
  function Origin(inp: Inputs, k: string): Fields {
    if (k in inp.spec && inp.spec[k] != Null) || k !in inp.status || (k in inp.spec && inp.status[k] == Null)
    then inp.spec else inp.status
  }

  /** A value no mapping or resolver touches reaches the request as it stands on the resource. */
  lemma UntouchedFieldsAreSent(inp: Inputs, info: CallInfo, q: Path)
    requires q != [] && q[0] != "" && q[0] in info.bodyFields
    requires NestedField(Obj(Origin(inp, q[0])), q).Found?
    requires EffectsClear(Effects(inp, info), q) && SourcesDisjoint(info.fieldMapping, q)
    ensures NestedField(Obj(Build(inp, info).body), q) == NestedField(Obj(Origin(inp, q[0])), q)
  {
    var from := Origin(inp, q[0]);
    FilledFromOrigin(inp, info, q[0]);
    var filled := Filled(inp, info);
    SameHeadReadsSame(filled.body, from, q);
    MappingsKeep(inp.show, Effects(inp, info), filled, q);
    StripKeeps(inp.show, info.fieldMapping, ApplyAll(inp.show, Effects(inp, info), filled).body, q);
  }

  /** The request before any mapping. */
  function Filled(inp: Inputs, info: CallInfo): Request {
    Fill(inp.show, info, inp.status, Fill(inp.show, info, inp.spec, Configured(inp, info)))
  }

  lemma FilledFromOrigin(inp: Inputs, info: CallInfo, k: string)
    requires k != "" && k in info.bodyFields && k in Origin(inp, k)
    ensures k in Filled(inp, info).body && Filled(inp, info).body[k] == Origin(inp, k)[k]
  {
    var body := FillBody(info.bodyFields, inp.spec, map[]);
    assert Filled(inp, info).body == FillBody(info.bodyFields, inp.status, body);
  }

  lemma SameHeadReadsSame(a: Fields, b: Fields, q: Path)
    requires q != [] && q[0] in a && q[0] in b && a[q[0]] == b[q[0]]
    ensures NestedField(Obj(a), q) == NestedField(Obj(b), q)
  {}

  lemma {:induction false} ApplySplits(show: Printer, effects: seq<Effect>, i: nat, r: Request)
    requires i < |effects|
    ensures ApplyAll(show, effects, r)
            == ApplyAll(show, effects[i + 1..], Apply(show, effects[i], ApplyAll(show, effects[..i], r)))
    decreases i
  {
    if i > 0 {
      ApplySplits(show, effects[1..], i - 1, Apply(show, effects[0], r));
      assert effects[1..][i..] == effects[i + 1..] && effects[1..][..i - 1] == effects[..i][1..];
    }
  }
}
