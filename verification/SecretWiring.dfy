/** A secret written to an array element found by predicate, read from a key beside it: the wiring resolvers are for. */
module SecretWiring {
  import opened Options
  import opened Json
  import opened Segments
  import opened Nested
  import opened PathParsing
  import SetLaws
  import PathLaws
  import FieldMapping
  import CallConfig
  import CallConfigLaws
  import RequestLaws

  lemma PredicateReads(seg: string, p: Predicate)
    requires |p.key| > 0 && '=' !in p.key && seg == "?" + p.key + "=" + p.want
    ensures ParsePredicate(seg) == Some(p) && WantsArray(seg) && ArrayIndex(seg).None?
  {
    var body := seg[1..];
    FindIs(body, '=', |p.key|);
    assert body[..|p.key|] == p.key && body[|p.key| + 1..] == p.want;
    assert !IsDigit(seg[0]);
  }

  lemma NotAnArraySegment(seg: string)
    requires seg != "" && seg[0] != '?' && !IsDigit(seg[0])
    ensures !WantsArray(seg)
  {}

  /** An element found by predicate `seg` in the list `list`, and the key `last` of it that receives a secret. */
  datatype Place = Place(list: string, seg: string, p: Predicate, last: string)
  {
    function Path(): Path {
      [list, seg, last]
    }

    function Beside(key: string): Path {
      [list, seg, key]
    }

    predicate Valid() {
      !WantsArray(list) && !WantsArray(last) && ParsePredicate(seg) == Some(p) && last != p.key
    }
  }

  /** One secret mapping, its secret resolved, and exactly one element for the predicate to find. */
  predicate Wired(inp: CallConfig.Inputs, info: CallConfig.CallInfo, m: CallConfig.Mapping, at: Place, secret: string) {
    && m.inPath == "" && m.inQuery == "" && m.inBody != "" && m.resolver.SecretRef? && m.valueMapping.NoMapping?
    && at.Valid() && ParsePath(m.inBody) == Some(at.Path())
    && info.requestFieldMapping == [] && info.fieldMapping == [m] && at.list in info.bodyFields && at.list != ""
    && CallConfig.KeyOf(m) in inp.resolved && inp.resolved[CallConfig.KeyOf(m)] == Str(secret)
    && at.list in inp.spec && OneElement(inp.show, inp.spec[at.list], at)
  }

  predicate OneElement(show: Printer, v: JSON, at: Place) {
    v.Arr? && MatchItems(show, v.items, at.p).One?
  }

  lemma WiredEffects(
    inp: CallConfig.Inputs, info: CallConfig.CallInfo, m: CallConfig.Mapping, at: Place, secret: string)
    requires Wired(inp, info, m, at, secret)
    ensures CallConfig.Effects(inp, info) == [CallConfig.ToBody(at.Path(), Str(secret))]
  {
    assert CallConfig.MappedValue(inp, m) == Some(Str(secret));
    assert CallConfig.NewEffect(inp, m) == CallConfig.ToBody(at.Path(), Str(secret));
  }

  /** One level of the write at a time: the element, the list, the body. */
  lemma ElementWritten(show: Printer, items: seq<JSON>, v: JSON, at: Place) returns (i: nat, n: JSON)
    requires at.Valid() && OneElement(show, Arr(items), at)
    ensures i < |items| && SetAt(show, Arr(items), v, [at.seg, at.last]) == Written(Arr(items[i := n]))
  {
    i := MatchItems(show, items, at.p).idx;
    n := Obj(items[i].fields[at.last := v]);
    assert [at.seg, at.last][1..] == [at.last];
    assert SetAt(show, items[i], v, [at.last]) == Written(n);
    assert Pad(items, i + 1) == items;
  }

  lemma SecretWritten(show: Printer, body: map<string, JSON>, v: JSON, at: Place)
    requires at.Valid() && at.list in body && OneElement(show, body[at.list], at)
    ensures SetAt(show, Obj(body), v, at.Path()).Written? && SetLaws.Sticks(show, Obj(body), v, at.Path())
    ensures SetAt(show, Obj(body), v, at.Path()).doc.Obj?
    ensures PathLaws.PredicatesMeetArrays(show, SetAt(show, Obj(body), v, at.Path()).doc, at.Path())
  {
    var items := body[at.list].items;
    var i, n := ElementWritten(show, items, v, at);
    assert at.Path()[1..] == [at.seg, at.last];
    var after := body[at.list := Arr(items[i := n])];
    assert SetAt(show, Obj(body), v, at.Path()) == Written(Obj(after));
    SetLaws.OtherKeysStick(show, Obj(body), v, at.Path());
    MeetsArrays(show, after, at);
  }

  lemma MeetsArrays(show: Printer, body: map<string, JSON>, at: Place)
    requires at.Valid() && at.list in body && body[at.list].Arr?
    ensures PathLaws.PredicatesMeetArrays(show, Obj(body), at.Path())
  {
    assert at.Path()[1..] == [at.seg, at.last] && [at.seg, at.last][1..] == [at.last];
    forall x ensures PathLaws.PredicatesMeetArrays(show, x, [at.last]) {
      assert [at.last][1..] == [];
    }
    assert PathLaws.PredicatesMeetArrays(show, body[at.list], [at.seg, at.last]);
  }

  /** The only mapping there is meets the request as the spec and the status fill it. */
  lemma OnlyMapping(inp: CallConfig.Inputs, info: CallConfig.CallInfo, e: CallConfig.Effect)
    requires CallConfig.Effects(inp, info) == [e]
    ensures RequestLaws.Meets(inp, info, 0, e, CallConfigLaws.Filled(inp, info), [])
  {
    var before := CallConfigLaws.Filled(inp, info);
    assert [e][..0] == [] && [e][1..] == [];
    assert CallConfig.ApplyAll(inp.show, [], before) == before;
  }

  lemma ListFilled(inp: CallConfig.Inputs, info: CallConfig.CallInfo, k: string)
    requires k != "" && k in info.bodyFields && k in inp.spec && inp.spec[k].Arr?
    ensures k in CallConfigLaws.Filled(inp, info).body && CallConfigLaws.Filled(inp, info).body[k] == inp.spec[k]
  {
    CallConfigLaws.FilledFromOrigin(inp, info, k);
  }

  /** The mapping meets a body in which the predicate finds its element, before and after. */
  lemma SecretMeets(inp: CallConfig.Inputs, info: CallConfig.CallInfo, m: CallConfig.Mapping, at: Place, secret: string)
    requires Wired(inp, info, m, at, secret)
    ensures var e, before := CallConfig.ToBody(at.Path(), Str(secret)), CallConfigLaws.Filled(inp, info);
            && RequestLaws.Meets(inp, info, 0, e, before, [])
            && RequestLaws.Writes(inp.show, e, before) && SetLaws.Sticks(inp.show, Obj(before.body), e.val, e.path)
            && PathLaws.PredicatesMeetArrays(inp.show, Obj(CallConfig.Apply(inp.show, e, before).body), e.path)
  {
    var e, before := CallConfig.ToBody(at.Path(), Str(secret)), CallConfigLaws.Filled(inp, info);
    WiredEffects(inp, info, m, at, secret);
    OnlyMapping(inp, info, e);
    ListFilled(inp, info, at.list);
    SecretApplied(inp.show, before, Str(secret), at);
  }

  lemma SecretApplied(show: Printer, before: CallConfig.Request, v: JSON, at: Place)
    requires at.Valid() && at.list in before.body && OneElement(show, before.body[at.list], at)
    ensures var e := CallConfig.ToBody(at.Path(), v);
            && RequestLaws.Writes(show, e, before) && SetLaws.Sticks(show, Obj(before.body), v, at.Path())
            && PathLaws.PredicatesMeetArrays(show, Obj(CallConfig.Apply(show, e, before).body), at.Path())
  {
    SecretWritten(show, before.body, v, at);
  }

  /** The secret is read in the request exactly when its source does not take it. */
  lemma SecretRead(
    inp: CallConfig.Inputs, info: CallConfig.CallInfo, m: CallConfig.Mapping, at: Place, secret: string, source: Path)
    requires Wired(inp, info, m, at, secret) && CallConfig.SourceOf(m) == Some(source)
    requires RequestLaws.Comparable(source, at.Path())
    ensures Get(inp.show, Obj(CallConfig.Build(inp, info).body), at.Path()) == Found(Str(secret))
            <==> !PathLaws.Takes(source, at.Path())
  {
    SecretMeets(inp, info, m, at, secret);
    OnlySource(m, source, at.Path());
    RequestLaws.ResolvedValueIsRead(
      inp, info, 0, CallConfig.ToBody(at.Path(), Str(secret)), CallConfigLaws.Filled(inp, info), []);
  }

  lemma OnlySource(m: CallConfig.Mapping, source: Path, t: Path)
    requires CallConfig.SourceOf(m) == Some(source)
    ensures RequestLaws.SourcesComparable([m], t) <==> RequestLaws.Comparable(source, t)
    ensures RequestLaws.NoSourceTakes([m], t) <==> !PathLaws.Takes(source, t)
  {
    assert [m][0] == m;
  }

  lemma SiblingParts(at: Place, key: string)
    requires at.Valid() && key != at.last && key != at.p.key
    ensures PathLaws.PartsFrom(at.Beside(key), at.Path()) && !PathLaws.Takes(at.Beside(key), at.Path())
  {
    var s, t := at.Beside(key), at.Path();
    assert s[1..] == [at.seg, key] && s[1..][1..] == [key] && t[1..] == [at.seg, at.last] && t[1..][1..] == [at.last];
    assert PathLaws.PartsFrom([key], [at.last]);
    assert PathLaws.PartsFrom([at.seg, key], [at.seg, at.last]);
    assert s[2] != t[2] && !PathLaws.NamesTestedKey([at.seg, key], [at.seg, at.last]);
  }

  lemma TestedKeyTaken(at: Place)
    requires at.Valid()
    ensures PathLaws.Takes(at.Beside(at.p.key), at.Path())
  {
    assert at.Beside(at.p.key)[1..] == [at.seg, at.p.key] && at.Path()[1..] == [at.seg, at.last];
    assert PathLaws.NamesTestedKey([at.seg, at.p.key], [at.seg, at.last]);
  }

  // ----- as it is written in a definition -----

  /** list[?key=want].last */
  function PathText(at: Place, last: string): string {
    GroupText(Followed(at.list, at.seg, Unquoted)) + "." + last
  }

  /** The mapping: the secret that spec.list[?key=want].source refers to goes to list[?key=want].last. */
  function Wiring(at: Place, source: string): CallConfig.Mapping {
    CallConfig.Mapping(
      "", "", PathText(at, at.last), "spec." + PathText(at, source), CallConfig.SecretRef, CallConfig.NoMapping)
  }

  predicate Spelt(at: Place, source: string) {
    Writable(at.list, Bare) && Writable(at.seg, Unquoted) && Writable(at.last, Bare) && Writable(source, Bare)
  }

  lemma PathReads(at: Place, last: string)
    requires Writable(at.list, Bare) && Writable(at.seg, Unquoted) && Writable(last, Bare)
    ensures ParsePath(PathText(at, last)) == Some(at.Beside(last))
  {
    TwoGroups(Followed(at.list, at.seg, Unquoted), Alone(last, Bare));
    assert [at.list, at.seg] + [last] == at.Beside(last);
  }

  /** The "spec." in front of a source is trimmed, and nothing else: a bracket comes before the first dot. */
  lemma TrimmedSource(list: string, rest: string)
    requires '.' !in list
    ensures FieldMapping.TrimPrefix(FieldMapping.TrimPrefix("spec." + list + "[" + rest, "spec."), "status.")
            == list + "[" + rest
  {
    var all := list + "[" + rest;
    assert ("spec." + list + "[" + rest)[..5] == "spec." && ("spec." + list + "[" + rest)[5..] == all;
    assert all[|list|] == '[';
    if |all| >= 7 {
      if |list| > 6 {
        assert all[..7][6] == list[6] && "status."[6] == '.';
      } else {
        assert all[..7][|list|] == '[' && '[' !in "status.";
      }
    }
  }

  lemma TrimmedPath(at: Place, source: string)
    requires '.' !in at.list
    ensures FieldMapping.TrimPrefix(FieldMapping.TrimPrefix("spec." + PathText(at, source), "spec."), "status.")
            == PathText(at, source)
  {
    var rest := at.seg + "]" + "." + source;
    assert PathText(at, source) == at.list + "[" + rest;
    assert "spec." + PathText(at, source) == "spec." + at.list + "[" + rest;
    TrimmedSource(at.list, rest);
  }

  lemma WiringReads(at: Place, source: string)
    requires Spelt(at, source)
    ensures ParsePath(Wiring(at, source).inBody) == Some(at.Path())
    ensures CallConfig.SourceOf(Wiring(at, source)) == Some(at.Beside(source))
  {
    PathReads(at, at.last);
    PathReads(at, source);
    TrimmedPath(at, source);
  }

  /** Read from a key beside it, the secret arrives where its mapping puts it. */
  lemma SiblingSecretArrives(
    inp: CallConfig.Inputs, info: CallConfig.CallInfo, at: Place, source: string, secret: string)
    requires Spelt(at, source) && Wired(inp, info, Wiring(at, source), at, secret)
    requires source != at.last && source != at.p.key
    ensures Get(inp.show, Obj(CallConfig.Build(inp, info).body), at.Path()) == Found(Str(secret))
  {
    WiringReads(at, source);
    SiblingParts(at, source);
    SecretRead(inp, info, Wiring(at, source), at, secret, at.Beside(source));
  }

  /** Read from the very key that the predicate tests, it does not. */
  lemma TestedSecretLost(inp: CallConfig.Inputs, info: CallConfig.CallInfo, at: Place, secret: string)
    requires Spelt(at, at.p.key) && Wired(inp, info, Wiring(at, at.p.key), at, secret)
    ensures Get(inp.show, Obj(CallConfig.Build(inp, info).body), at.Path()) != Found(Str(secret))
  {
    WiringReads(at, at.p.key);
    TestedKeyTaken(at);
    SecretRead(inp, info, Wiring(at, at.p.key), at, secret, at.Beside(at.p.key));
  }

  /** The value of a password credential, read from valueSecretRef. */
  const CREDENTIAL := Place("credentials", "?type=password", Predicate("type", "password"), "value")

  lemma CredentialIsPlace()
    ensures CREDENTIAL.Valid()
  {
    PredicateReads("?type=password", Predicate("type", "password"));
    NotAnArraySegment("credentials");
    NotAnArraySegment("value");
  }

  lemma CredentialIsSpelt()
    ensures Spelt(CREDENTIAL, "valueSecretRef")
  {
    ListIsSpelt();
    PredicateIsSpelt();
    SourceIsSpelt();
  }

  lemma ListIsSpelt()
    ensures Writable("credentials", Bare) && Writable("value", Bare)
  {}

  lemma SourceIsSpelt()
    ensures Writable("valueSecretRef", Bare)
  {}

  lemma PredicateIsSpelt()
    ensures Writable("?type=password", Unquoted)
  {
    PredicateReads("?type=password", Predicate("type", "password"));
    PredicateIsPlain();
  }

  lemma PredicateIsPlain()
    ensures IsPlain("?type=password")
  {}

  lemma CredentialText()
    ensures PathText(CREDENTIAL, "value") == "credentials[?type=password].value"
  {
    assert GroupText(Followed("credentials", "?type=password", Unquoted)) == "credentials[?type=password]";
  }
}
