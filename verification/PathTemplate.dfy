/** Filling the `{placeholder}`s of a verb's path (buildPath) and finding the ones left unfilled. */
module PathTemplate {
  import opened Segments

  type Params = map<string, string>

  // ----- strings -----

  function Braced(name: string): string {
    "{" + name + "}"
  }

  predicate NoBraces(s: string) {
    '{' !in s && '}' !in s
  }

  /** strings.Replace(s, pat, rep, 1). */
  function ReplaceFirst(s: string, pat: string, rep: string): string {
    if |s| < |pat| || s == "" then s
    else if s[..|pat|] == pat then rep + s[|pat|..]
    else [s[0]] + ReplaceFirst(s[1..], pat, rep)
  }

  function Missing(name: string, params: Params): seq<string> {
    if name != "" && (name !in params || params[name] == "") then [name] else []
  }

  /** The names of the placeholders a path leaves unpopulated, in order; an empty value does not populate. */
  function Unresolved(path: string, params: Params): seq<string>
    decreases |path|
  {
    if path == "" then []
    else if path[0] != '{' then Unresolved(path[1..], params)
    else
      var end := Find(path, '}');
      if end == |path| then []
      else
        var name := path[1..end];
        Missing(name, params) + Unresolved(path[end + 1..], params)
  }

  /** The substitution loop of buildPath; Go visits the parameters in any order. */
  method BuildPath(path: string, parameters: Params, escape: string -> string, ghost pieces: seq<Piece>)
    returns (r: string)
    requires Template(pieces) && path == Render(pieces)
    requires forall k | k in parameters :: NoBraces(k) && NoBraces(escape(parameters[k]))
    ensures r == Render(Fill(pieces, map k | k in parameters :: escape(parameters[k])))
  {
    r := path;
    var todo := parameters.Keys;
    ghost var done: Params := map[];
    FillNothing(pieces);
    while todo != {}
      invariant todo <= parameters.Keys
      invariant done == map k | k in parameters && k !in todo :: escape(parameters[k])
      invariant Template(Fill(pieces, done)) && r == Render(Fill(pieces, done))
      decreases todo
    {
      var key :| key in todo;
      var param := escape(parameters[key]);
      r := ReplaceFirst(r, Braced(key), param);
      ReplaceFills(Fill(pieces, done), key, param);
      FillFill(pieces, done, key, param);
      FillKeepsTemplate(pieces, done[key := param]);
      done := done[key := param];
      todo := todo - {key};
    }
    assert done == map k | k in parameters :: escape(parameters[k]);
  }

  method UnresolvedPathParams(path: string, params: Params) returns (missing: seq<string>)
    ensures missing == Unresolved(path, params)
  {
    missing := [];
    var i := 0;
    while i < |path|
      invariant 0 <= i <= |path|
      invariant missing + Unresolved(path[i..], params) == Unresolved(path, params)
    {
      var rest := path[i..];
      if path[i] != '{' {
        assert rest[1..] == path[i + 1..];
        i := i + 1;
        continue;
      }
      var end := Find(rest, '}');
      if end == |rest| { return; }
      var name := rest[1..end];
      assert rest[end + 1..] == path[i + end + 1..];
      ghost var before, after := missing, Unresolved(rest[end + 1..], params);
      if name != "" && (name !in params || params[name] == "") { missing := missing + [name]; }
      assert before + (Missing(name, params) + after) == missing + after;
      i := i + end + 1;
    }
  }

  // ----- templates -----

  datatype Piece = Lit(text: string) | Hole(name: string)

  function Render(pieces: seq<Piece>): string {
    if pieces == [] then ""
    else (match pieces[0] case Lit(t) => t case Hole(n) => Braced(n)) + Render(pieces[1..])
  }

  /** Distinct, non-empty, unnested placeholders between brace-free text. */
  predicate Template(pieces: seq<Piece>) {
    && (forall i | 0 <= i < |pieces| ::
          match pieces[i] case Lit(t) => NoBraces(t) case Hole(n) => n != "" && NoBraces(n))
    && (forall i, j | 0 <= i < j < |pieces| && pieces[i].Hole? && pieces[j].Hole? :: pieces[i].name != pieces[j].name)
  }

  function FillPiece(p: Piece, params: Params): Piece {
    if p.Hole? && p.name in params then Lit(params[p.name]) else p
  }

  /** Simultaneous substitution. */
  function Fill(pieces: seq<Piece>, params: Params): (r: seq<Piece>)
    ensures |r| == |pieces| && forall i | 0 <= i < |r| :: r[i] == FillPiece(pieces[i], params)
  {
    seq(|pieces|, i requires 0 <= i < |pieces| => FillPiece(pieces[i], params))
  }

  lemma FillNothing(pieces: seq<Piece>)
    ensures Fill(pieces, map[]) == pieces
  {}

  lemma FillFill(pieces: seq<Piece>, done: Params, k: string, v: string)
    requires k !in done
    ensures Fill(Fill(pieces, done), map[k := v]) == Fill(pieces, done[k := v])
  {}

  lemma FillKeepsTemplate(pieces: seq<Piece>, params: Params)
    requires Template(pieces) && forall k | k in params :: NoBraces(params[k])
    ensures Template(Fill(pieces, params))
  {
    var r := Fill(pieces, params);
    forall i | 0 <= i < |r|
      ensures match r[i] case Lit(t) => NoBraces(t) case Hole(n) => n != "" && NoBraces(n)
    {
      assert r[i] == FillPiece(pieces[i], params);
    }
    forall i, j | 0 <= i < j < |r| && r[i].Hole? && r[j].Hole? ensures r[i].name != r[j].name {
      assert r[i] == pieces[i] && r[j] == pieces[j];
    }
  }

  /** Text without an opening brace is passed over. */
  lemma {:induction false} ReplacePasses(t: string, s: string, name: string, v: string)
    requires '{' !in t
    ensures ReplaceFirst(t + s, Braced(name), v) == t + ReplaceFirst(s, Braced(name), v)
    decreases |t|
  {
    if t == "" {
      assert t + s == s;
    } else {
      assert (t + s)[0] == t[0] && (t + s)[1..] == t[1..] + s;
      ReplacePasses(t[1..], s, name, v);
      assert t[0] != '{';
      if |t + s| >= |Braced(name)| { assert (t + s)[..|Braced(name)|][0] == t[0]; } else { ReplaceShort(s, name, v); }
      assert t == [t[0]] + t[1..];
      assert [t[0]] + (t[1..] + ReplaceFirst(s, Braced(name), v)) == t + ReplaceFirst(s, Braced(name), v);
    }
  }

  lemma ReplaceShort(s: string, name: string, v: string)
    requires |s| < |Braced(name)|
    ensures ReplaceFirst(s, Braced(name), v) == s
  {}

  /** Another placeholder is never mistaken for the one sought. */
  lemma BracedPrefix(n: string, name: string, s: string)
    requires NoBraces(n) && NoBraces(name) && n != name
    requires |Braced(name)| <= |Braced(n) + s|
    ensures (Braced(n) + s)[..|Braced(name)|] != Braced(name)
  {
    var a, b := Braced(n) + s, Braced(name);
    if |n| < |name| {
      assert a[..|b|][|n| + 1] == '}' != name[|n|] == b[|n| + 1];
    } else if |name| < |n| {
      assert a[..|b|][|name| + 1] == n[|name|] != '}' == b[|name| + 1];
    } else {
      var i :| 0 <= i < |n| && n[i] != name[i];
      assert a[..|b|][i + 1] == n[i] != name[i] == b[i + 1];
    }
  }

  /** A placeholder of another name stays as it is. */
  lemma ReplacePassesHole(n: string, s: string, name: string, v: string)
    requires NoBraces(n) && NoBraces(name) && n != name
    ensures ReplaceFirst(Braced(n) + s, Braced(name), v) == Braced(n) + ReplaceFirst(s, Braced(name), v)
  {
    var all, pat := Braced(n) + s, Braced(name);
    var tail := n + "}";
    assert all[0] == '{' && all[1..] == tail + s;
    ReplacePasses(tail, s, name, v);
    if |all| >= |pat| { BracedPrefix(n, name, s); } else { ReplaceShort(s, name, v); }
    assert ['{'] + (tail + ReplaceFirst(s, pat, v)) == Braced(n) + ReplaceFirst(s, pat, v);
  }

  lemma FillOthers(pieces: seq<Piece>, name: string, v: string)
    requires forall i | 0 <= i < |pieces| && pieces[i].Hole? :: pieces[i].name != name
    ensures Fill(pieces, map[name := v]) == pieces
  {}

  lemma {:induction false} ReplaceFills(pieces: seq<Piece>, name: string, v: string)
    requires Template(pieces) && NoBraces(name)
    ensures ReplaceFirst(Render(pieces), Braced(name), v) == Render(Fill(pieces, map[name := v]))
    decreases |pieces|
  {
    var pat := Braced(name);
    if pieces == [] {
    } else {
      var rest := pieces[1..];
      assert Template(rest);
      assert Fill(pieces, map[name := v])[1..] == Fill(rest, map[name := v]);
      ReplaceFills(rest, name, v);
      match pieces[0]
      case Lit(t) => ReplacePasses(t, Render(rest), name, v);
      case Hole(n) =>
        if n == name {
          var s := Render(pieces);
          assert s[..|pat|] == pat && s[|pat|..] == Render(rest);
          FillOthers(rest, name, v);
        } else {
          ReplacePassesHole(n, Render(rest), name, v);
        }
    }
  }

  // ----- unresolved placeholders -----

  function Unfilled(pieces: seq<Piece>, params: Params): seq<string> {
    if pieces == [] then []
    else
      (if pieces[0].Hole? then Missing(pieces[0].name, params) else []) + Unfilled(pieces[1..], params)
  }

  lemma {:induction false} UnresolvedSkips(t: string, s: string, params: Params)
    requires '{' !in t
    ensures Unresolved(t + s, params) == Unresolved(s, params)
    decreases |t|
  {
    if t == "" {
      assert t + s == s;
    } else {
      assert (t + s)[1..] == t[1..] + s;
      UnresolvedSkips(t[1..], s, params);
    }
  }

  lemma UnresolvedHole(n: string, s: string, params: Params)
    requires NoBraces(n) && n != ""
    ensures Unresolved(Braced(n) + s, params)
            == Missing(n, params) + Unresolved(s, params)
  {
    var path := Braced(n) + s;
    FindIs(path, '}', |n| + 1);
    assert path[1..|n| + 1] == n && path[|n| + 2..] == s;
  }

  /** They are the placeholders, other than `{}`, whose parameter is missing or empty. */
  lemma {:induction false} UnfilledNames(pieces: seq<Piece>, params: Params, n: string)
    ensures n in Unfilled(pieces, params) <==> n != "" && Hole(n) in pieces && (n !in params || params[n] == "")
    decreases |pieces|
  {
    if pieces != [] {
      UnfilledNames(pieces[1..], params, n);
      assert pieces == [pieces[0]] + pieces[1..];
      assert Hole(n) in pieces <==> pieces[0] == Hole(n) || Hole(n) in pieces[1..];
    }
  }

  lemma {:induction false} UnresolvedOfTemplate(pieces: seq<Piece>, params: Params)
    requires Template(pieces)
    ensures Unresolved(Render(pieces), params) == Unfilled(pieces, params)
    decreases |pieces|
  {
    if pieces != [] {
      assert Template(pieces[1..]);
      UnresolvedOfTemplate(pieces[1..], params);
      match pieces[0]
      case Lit(t) => UnresolvedSkips(t, Render(pieces[1..]), params);
      case Hole(n) => UnresolvedHole(n, Render(pieces[1..]), params);
    }
  }

  /** When nothing is unresolved, the substituted path holds no placeholder. */
  lemma {:induction false} ResolvedPathHasNoPlaceholder(pieces: seq<Piece>, params: Params, escaped: Params)
    requires Template(pieces) && Unresolved(Render(pieces), params) == []
    requires escaped.Keys == params.Keys && forall k | k in escaped :: NoBraces(escaped[k])
    ensures NoBraces(Render(Fill(pieces, escaped)))
    decreases |pieces|
  {
    UnresolvedOfTemplate(pieces, params);
    if pieces != [] {
      assert Template(pieces[1..]);
      UnresolvedOfTemplate(pieces[1..], params);
      ResolvedPathHasNoPlaceholder(pieces[1..], params, escaped);
      assert Fill(pieces, escaped)[1..] == Fill(pieces[1..], escaped);
      assert FillPiece(pieces[0], escaped).Lit?;
    }
  }
}
