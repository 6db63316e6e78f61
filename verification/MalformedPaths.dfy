/** What the path parser refuses, and what it makes of dots in front. */
module MalformedPaths {
  import opened Options
  import opened Json
  import opened Segments
  import opened PathParsing

  ghost predicate AllStandAlone(tokens: seq<string>) {
    tokens != [] && forall i | 0 <= i < |tokens| :: StandsAlone(tokens[i])
  }

  lemma LegibleStandAlone(groups: seq<Group>)
    requires groups != [] && AllLegible(groups)
    ensures AllStandAlone(GroupTexts(groups))
  {
    forall i | 0 <= i < |groups| ensures StandsAlone(GroupTexts(groups)[i]) { GroupReadsBack(groups[i]); }
  }

  /** An empty path is the path of the empty name. */
  lemma EmptyPath()
    ensures ParsePath("") == Some([""])
  {}

  lemma SpacesRefused(path: string)
    requires ' ' in path
    ensures ParsePath(path) == None
  {}

  // ----- dots -----

  lemma {:induction false} DotsOverJoin(tokens: seq<string>, rest: string, ended: bool)
    requires AllStandAlone(tokens)
    ensures ConsecutiveDots(Join(tokens) + rest, false, ended) == ConsecutiveDots(rest, false, true)
    decreases |tokens|
  {
    var t := tokens[0];
    assert StandsAlone(t);
    if |tokens| > 1 {
      var tail := Join(tokens[1..]) + rest;
      DotsOverJoin(tokens[1..], rest, true);
      JoinScans(tokens[1..], true);
      assert Join(tokens) + rest == t + ("." + tail);
      assert ("." + tail)[1..] == tail && ("." + tail)[1] == Join(tokens[1..])[0];
    }
  }

  /** Two dots in a row are refused after any well-formed path, whatever follows. */
  lemma TwoDotsRefused(groups: seq<Group>, rest: string)
    requires groups != [] && AllLegible(groups)
    ensures ParsePath(Join(GroupTexts(groups)) + ".." + rest) == None
  {
    var t := Join(GroupTexts(groups));
    LegibleStandAlone(groups);
    DotsOverJoin(GroupTexts(groups), ".." + rest, false);
    assert t + ".." + rest == t + (".." + rest);
    assert ConsecutiveDots(".." + rest, false, true);
  }

  lemma {:induction false} PlainEndsNothing(a: string, b: string)
    requires IsPlain(b)
    ensures EndsInBracket(a + b) == EndsInBracket(a)
    decreases |b|
  {
    if b == "" {
      assert a + b == a;
    } else {
      assert (a + b)[..|a + b| - 1] == a + b[..|b| - 1];
      assert !IsSpecial(b[|b| - 1]);
      PlainEndsNothing(a, b[..|b| - 1]);
    }
  }

  /** No bracket is left open by it. */
  ghost predicate Closes(t: string) {
    forall front :: !EndsInBracket(front) ==> !EndsInBracket(front + t)
  }

  lemma {:induction false} EndsClosed(tokens: seq<string>, front: string)
    requires tokens != [] && !EndsInBracket(front) && forall i | 0 <= i < |tokens| :: Closes(tokens[i])
    ensures !EndsInBracket(front + Join(tokens))
    decreases |tokens|
  {
    var t := tokens[0];
    assert Closes(t);
    if |tokens| > 1 {
      PlainEndsNothing(front + t, ".");
      EndsClosed(tokens[1..], front + t + ".");
      assert front + Join(tokens) == front + t + "." + Join(tokens[1..]);
    }
  }

  lemma GroupCloses(g: Group)
    requires Legible(g)
    ensures Closes(GroupText(g))
  {
    var t := GroupText(g);
    forall front | !EndsInBracket(front) ensures !EndsInBracket(front + t) {
      if g.form.Bare? {
        PlainEndsNothing(front, t);
      } else {
        assert t[|t| - 1] == ']' && (front + t)[|front + t| - 1] == ']';
      }
    }
  }

  /** A dot at the end is refused. */
  lemma TrailingDotRefused(groups: seq<Group>)
    requires groups != [] && AllLegible(groups)
    ensures ParsePath(Join(GroupTexts(groups)) + ".") == None
  {
    var t := Join(GroupTexts(groups));
    forall i | 0 <= i < |groups| ensures Closes(GroupTexts(groups)[i]) { GroupCloses(groups[i]); }
    EndsClosed(GroupTexts(groups), "");
    assert "" + t == t && (t + ".")[..|t|] == t;
  }

  lemma {:induction false} DotsInFront(n: nat, s: string)
    ensures ConsecutiveDots(Dots(n) + s, false, false) == ConsecutiveDots(s, false, false)
    ensures Split(Dots(n) + s, 0, None, "")
            == match Split(s, 0, None, "") case Some(parts) => Some(Empties(n) + parts) case None => None
    decreases n
  {
    if n == 0 {
      assert Dots(0) + s == s;
      if Split(s, 0, None, "").Some? { assert Empties(0) + Split(s, 0, None, "").value == Split(s, 0, None, "").value; }
    } else {
      assert (Dots(n) + s)[0] == '.' && (Dots(n) + s)[1..] == Dots(n - 1) + s;
      DotsInFront(n - 1, s);
      if Split(s, 0, None, "").Some? {
        assert [""] + (Empties(n - 1) + Split(s, 0, None, "").value) == Empties(n) + Split(s, 0, None, "").value;
      }
    }
  }

  function Empties(n: nat): seq<string> {
    seq(n, _ => "")
  }

  lemma {:induction false} MergeEmpties(n: nat, k: nat, tokens: seq<string>)
    requires tokens != [] && forall i | 0 <= i < |tokens| :: tokens[i] != ""
    ensures Merge(Empties(n) + tokens, k) == [Dots(n + k) + tokens[0]] + tokens[1..]
    decreases n
  {
    if n == 0 {
      assert Empties(0) + tokens == tokens;
      MergeKeepsTokens(tokens[1..]);
    } else {
      assert (Empties(n) + tokens)[0] == "" && (Empties(n) + tokens)[1..] == Empties(n - 1) + tokens;
      MergeEmpties(n - 1, k + 1, tokens);
    }
  }

  lemma {:induction false} CountsDots(n: nat, s: string)
    requires s != "" && s[0] != '.'
    ensures LeadingDots(Dots(n) + s) == n
    decreases n
  {
    if n > 0 {
      assert (Dots(n) + s)[1..] == Dots(n - 1) + s;
      CountsDots(n - 1, s);
    } else {
      assert Dots(0) + s == s;
    }
  }

  lemma DottedNameReads(n: nat, name: string)
    requires Writable(name, Bare)
    ensures ParseSegmentGroup(Dots(n) + name) == Some([Dots(n) + name])
  {
    TokenShape(name, Bare);
    CountsDots(n, name);
    PlainHasNoBrackets(name);
    FindIs(name, '[', |name|);
    assert (Dots(n) + name)[n..] == name;
  }

  lemma DottedBracketRefused(n: nat, seg: string, form: Form)
    requires n > 0 && Writable(seg, form) && !form.Bare?
    ensures ParseSegmentGroup(Dots(n) + Token(seg, form)) == None
  {
    var t := Token(seg, form);
    CountsDots(n, t);
    assert (Dots(n) + t)[n..] == t && t[0] == '[';
    FindIs(t, '[', 0);
  }

  lemma DottedFollowedReads(n: nat, name: string, seg: string, form: Form)
    requires Writable(name, Bare) && Writable(seg, form) && !form.Bare?
    ensures ParseSegmentGroup(Dots(n) + (name + Token(seg, form))) == Some([Dots(n) + name, seg])
  {
    var u := Token(seg, form);
    var t := name + u;
    TokenShape(name, Bare);
    CountsDots(n, t);
    BracketContentReadsBack(seg, form);
    PlainHasNoBrackets(name);
    assert u[0] == '[';
    FindIs(t, '[', |name|);
    assert (Dots(n) + t)[n..] == t && (Dots(n) + t)[..n] == Dots(n);
    assert t[..|name|] == name && t[|name|..] == u;
  }

  /** Dots in front belong to the first name; in front of a bracket they are refused. */
  lemma LeadingDotsRead(n: nat, groups: seq<Group>)
    requires groups != [] && AllLegible(groups)
    ensures var g, path := groups[0], Dots(n) + Join(GroupTexts(groups));
            if n > 0 && g.Alone? && !g.form.Bare? then ParsePath(path) == None
            else ParsePath(path) == Some([Dots(n) + AllSegments(groups)[0]] + AllSegments(groups)[1..])
  {
    var tokens := GroupTexts(groups);
    var s := Join(tokens);
    LegibleStandAlone(groups);
    JoinScans(tokens, false);
    DotsInFront(n, s);
    assert forall i | 0 <= i < |tokens| :: StandsAlone(tokens[i]);
    MergeEmpties(n, 0, tokens);
    NotTrailing(n, s, groups);
    assert ParsePath(Dots(n) + s) == ParseGroups([Dots(n) + tokens[0]] + tokens[1..]);
    FirstGroup(n, groups);
  }

  lemma NotTrailing(n: nat, s: string, groups: seq<Group>)
    requires s != "" && s[|s| - 1] != '.' && ' ' !in s
    ensures !TrailingDot(Dots(n) + s) && ' ' !in Dots(n) + s && Dots(n) + s != ""
  {
    assert (Dots(n) + s)[|Dots(n) + s| - 1] == s[|s| - 1];
  }

  lemma FirstGroup(n: nat, groups: seq<Group>)
    requires groups != [] && AllLegible(groups)
    ensures var g, tokens := groups[0], GroupTexts(groups);
            var r := ParseGroups([Dots(n) + tokens[0]] + tokens[1..]);
            if n > 0 && g.Alone? && !g.form.Bare? then r == None
            else r == Some([Dots(n) + AllSegments(groups)[0]] + AllSegments(groups)[1..])
  {
    var g, rest := groups[0], groups[1..];
    var all := [Dots(n) + GroupText(g)] + GroupTexts(rest);
    assert GroupTexts(groups)[0] == GroupText(g) && GroupTexts(groups)[1..] == GroupTexts(rest);
    assert all[1..] == GroupTexts(rest);
    GroupsReadBack(rest);
    DottedGroupReads(n, g);
    OneMoreGroup(Dots(n) + GroupText(g), GroupTexts(rest));
    if !(n > 0 && g.Alone? && !g.form.Bare?) {
      Rearranged(Dots(n) + GroupSegments(g)[0], GroupSegments(g), AllSegments(rest));
    }
  }

  lemma OneMoreGroup(token: string, rest: seq<string>)
    requires ParseGroups(rest).Some?
    ensures ParseGroups([token] + rest)
            == match ParseSegmentGroup(token) case Some(segs) => Some(segs + ParseGroups(rest).value) case None => None
  {
    assert ([token] + rest)[1..] == rest;
  }

  lemma Rearranged(first: string, segs: Path, rest: Path)
    requires segs != []
    ensures [first] + segs[1..] + rest == [first] + (segs + rest)[1..] && (segs + rest)[0] == segs[0]
  {}

  lemma DottedGroupReads(n: nat, g: Group)
    requires Legible(g)
    ensures ParseSegmentGroup(Dots(n) + GroupText(g))
            == if n > 0 && g.Alone? && !g.form.Bare? then None
               else Some([Dots(n) + GroupSegments(g)[0]] + GroupSegments(g)[1..])
  {
    match g
    case Alone(seg, form) =>
      DottedAloneReads(n, seg, form);
    case Followed(name, seg, form) =>
      DottedFollowedReads(n, name, seg, form);
      Prefixed(Dots(n) + name, name, seg);
  }

  lemma Prefixed(first: string, name: string, seg: string)
    ensures [first, seg] == [first] + [name, seg][1..]
  {}

  lemma DottedAloneReads(n: nat, seg: string, form: Form)
    requires Writable(seg, form)
    ensures ParseSegmentGroup(Dots(n) + Token(seg, form)) 
            == if n > 0 && !form.Bare? then None else Some([Dots(n) + seg] + [seg][1..])
  {
    assert [Dots(n) + seg] + [seg][1..] == [Dots(n) + seg];
    if form.Bare? {
      DottedNameReads(n, seg);
    } else if n > 0 {
      DottedBracketRefused(n, seg, form);
    } else {
      assert Dots(0) + Token(seg, form) == Token(seg, form) && Dots(0) + seg == seg;
      TokenReadsBack(seg, form);
    }
  }

  // ----- brackets -----

  /** Two bracket groups without a dot between them are refused. */
  lemma AdjacentBracketsRefused(seg: string, form: Form, other: string, form2: Form)
    requires Writable(seg, form) && !form.Bare? && Writable(other, form2) && !form2.Bare?
    ensures ParseSegmentGroup(Token(seg, form) + Token(other, form2)) == None
  {
    var t, u := Token(seg, form), Token(other, form2);
    assert t[0] == '[' && t[|t| - 1] == ']';
    FindIs(t + u, '[', 0);
    assert LeadingDots(t + u) == 0 && (t + u)[0..] == t + u;
    var close := Find(t + u, ']');
    assert (t + u)[|t| - 1] == ']';
  }

  /** So are two quoted texts in one bracket, if their quotes differ; and a bracket with nothing in it. */
  lemma MismatchedQuotesRefused(q: char, a: string, r: char, b: string)
    requires IsQuote(q) && IsQuote(r) && q != r && IsPlain(a) && IsPlain(b)
    ensures ParseBracketContent("[" + [q] + a + [q] + [r] + b + [r] + "]") == None
  {
    var t := "[" + [q] + a + [q] + [r] + b + [r] + "]";
    assert t[1] == q && t[|t| - 2] == r && !IsDigit(q);
    var inner := t[1..|t| - 1];
    assert inner[0] == q && inner[|inner| - 1] == r;
  }

  lemma EmptyBracketsRefused(q: char)
    requires IsQuote(q)
    ensures ParseBracketContent("[]") == None && ParseBracketContent("[" + [q, q] + "]") == None
  {
    var t := "[" + [q, q] + "]";
    assert t[1..|t| - 1] == [q, q] && [q, q][1..1] == "" && !IsDigit(q);
  }

  /** A name with a quote in it is refused, closed or not. */
  lemma QuoteInNameRefused(a: string, q: char, b: string)
    requires IsQuote(q) && IsPlain(a) && IsPlain(b)
    ensures ParseSegmentGroup("x" + a + [q] + b) == None
  {
    var s := "x" + a + [q] + b;
    assert s[|a| + 1] == q;
    assert LeadingDots(s) == 0 && s[0..] == s;
    forall i | 0 <= i < |s| ensures s[i] != '[' {
      if 0 < i <= |a| { assert s[i] == a[i - 1] && !IsSpecial(a[i - 1]); }
      if i > |a| + 1 { assert s[i] == b[i - |a| - 2] && !IsSpecial(b[i - |a| - 2]); }
    }
    FindIs(s, '[', |s|);
  }

  /** Also in front of a bracket. */
  lemma QuoteBeforeBracketRefused(a: string, q: char, b: string, seg: string, form: Form)
    requires IsQuote(q) && IsPlain(a) && IsPlain(b) && Writable(seg, form) && !form.Bare?
    ensures ParseSegmentGroup("x" + a + [q] + b + Token(seg, form)) == None
  {
    var name, t := "x" + a + [q] + b, Token(seg, form);
    var s := name + t;
    assert s == "x" + a + [q] + b + t && name[|a| + 1] == q;
    assert LeadingDots(s) == 0 && s[0..] == s;
    forall i | 0 <= i < |name| ensures name[i] != '[' {
      if 0 < i <= |a| { assert name[i] == a[i - 1] && !IsSpecial(a[i - 1]); }
      if i > |a| + 1 { assert name[i] == b[i - |a| - 2] && !IsSpecial(b[i - |a| - 2]); }
    }
    FindIs(s, '[', |name|);
    assert s[..|name|] == name;
  }

  /** An index with a needless zero in front is refused in brackets. */
  lemma LeadingZeroRefused(digits: string)
    requires digits != "" && AllDigits(digits)
    ensures ParseBracketContent("[0" + digits + "]") == None
  {
    var t := "[0" + digits + "]";
    assert t[1..|t| - 1] == "0" + digits;
  }
}
