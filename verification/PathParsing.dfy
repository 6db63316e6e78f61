/** pathparsing.go: reading `a.b['c.d'].e[0]` as a list of segments. */
module PathParsing {
  import opened Options
  import opened Json
  import opened Segments

  predicate IsQuote(c: char) {
    c == '\'' || c == '"'
  }

  /** The characters that have a meaning of their own inside a path, the dot apart. */
  predicate IsSpecial(c: char) {
    c == ' ' || c == '[' || c == ']' || IsQuote(c)
  }

  predicate IsPlain(s: string) {
    forall i | 0 <= i < |s| :: !IsSpecial(s[i])
  }

  function Dots(n: nat): string {
    seq(n, _ => '.')
  }

  // ----- checks on the whole path -----

  /** Two dots in a row outside brackets, not counting the dots the path begins with. */
  predicate ConsecutiveDots(s: string, inBracket: bool, leadingDotsEnded: bool) {
    s != "" &&
    match s[0]
    case '[' => ConsecutiveDots(s[1..], true, true)
    case ']' => ConsecutiveDots(s[1..], false, leadingDotsEnded)
    case '.' => (!inBracket && leadingDotsEnded && |s| > 1 && s[1] == '.')
                || ConsecutiveDots(s[1..], inBracket, leadingDotsEnded)
    case _ => ConsecutiveDots(s[1..], inBracket, true)
  }

  predicate EndsInBracket(s: string) {
    s != "" &&
    match s[|s| - 1]
    case '[' => true
    case ']' => false
    case _ => EndsInBracket(s[..|s| - 1])
  }

  predicate TrailingDot(s: string) {
    s != "" && s[|s| - 1] == '.' && !EndsInBracket(s[..|s| - 1])
  }

  /** The splitter: cut at dots outside square brackets and quotes; an enclosure left open is an error. */
  function Split(s: string, depth: nat, quote: Option<char>, cur: string): Option<seq<string>> {
    if s == "" then (if depth == 0 && quote == None then Some([cur]) else None)
    else
      var c, rest := s[0], s[1..];
      if quote.Some? then Split(rest, depth, if c == quote.value then None else quote, cur + [c])
      else if IsQuote(c) then Split(rest, depth, Some(c), cur + [c])
      else if c == '[' then Split(rest, depth + 1, None, cur + [c])
      else if c == ']' then (if depth == 0 then None else Split(rest, depth - 1, None, cur + [c]))
      else if c == '.' && depth == 0 then
        match Split(rest, 0, None, "")
        case Some(parts) => Some([cur] + parts)
        case None => None
      else Split(rest, depth, None, cur + [c])
  }

  /** Empty parts come from leading dots, which belong to the next token. */
  function Merge(parts: seq<string>, leadingDots: nat): seq<string> {
    if parts == [] then []
    else if parts[0] == "" then Merge(parts[1..], leadingDots + 1)
    else [Dots(leadingDots) + parts[0]] + Merge(parts[1..], 0)
  }

  // ----- one token -----

  function ParseBracketContent(rest: string): Option<string> {
    if |rest| < 3 || rest[|rest| - 1] != ']' || Find(rest, ']') != |rest| - 1 then None
    else
      var inner := rest[1..|rest| - 1];
      if AllDigits(inner) && (|inner| == 1 || inner[0] != '0') then Some(inner)
      else if inner[0] == '?' then (if ParsePredicate(inner).Some? then Some(inner) else None)
      else if |inner| < 2 || !IsQuote(inner[0]) || inner[|inner| - 1] != inner[0] then None
      else
        var content := inner[1..|inner| - 1];
        if content == "" then None else Some(content)
  }

  function LeadingDots(s: string): (n: nat)
    ensures n <= |s|
  {
    if s != "" && s[0] == '.' then 1 + LeadingDots(s[1..]) else 0
  }

  function ParseSegmentGroup(s: string): Option<Path> {
    var dots := LeadingDots(s);
    var rest := s[dots..];
    if rest == "" then None
    else
      var bracket := Find(rest, '[');
      if bracket == |rest| then
        (if exists i | 0 <= i < |rest| :: rest[i] == ']' || IsQuote(rest[i]) then None else Some([s]))
      else if bracket == 0 then
        if dots > 0 then None
        else match ParseBracketContent(rest) case Some(seg) => Some([seg]) case None => None
      else
        var prefix := rest[..bracket];
        if exists i | 0 <= i < |prefix| :: prefix[i] == ']' || IsQuote(prefix[i]) then None
        else match ParseBracketContent(rest[bracket..])
          case Some(seg) => Some([s[..dots] + prefix, seg])
          case None => None
  }

  function ParseGroups(tokens: seq<string>): Option<Path> {
    if tokens == [] then Some([])
    else match (ParseSegmentGroup(tokens[0]), ParseGroups(tokens[1..]))
      case (Some(a), Some(b)) => Some(a + b)
      case _ => None
  }

  /** What a path string means, or None when it is malformed. */
  function ParsePath(path: string): Option<Path> {
    if path == "" then Some([""])
    else if ' ' in path || ConsecutiveDots(path, false, false) || TrailingDot(path) then None
    else match Split(path, 0, None, "")
      case Some(parts) => ParseGroups(Merge(parts, 0))
      case None => None
  }

  method HasConsecutiveDots(path: string) returns (found: bool)
    ensures found == ConsecutiveDots(path, false, false)
  {
    var inBracket, leadingDotsEnded := false, false;
    for i := 0 to |path|
      invariant ConsecutiveDots(path[i..], inBracket, leadingDotsEnded) == ConsecutiveDots(path, false, false)
    {
      assert path[i..][0] == path[i] && path[i..][1..] == path[i + 1..];
      match path[i] {
        case '[' => inBracket, leadingDotsEnded := true, true;
        case ']' => inBracket := false;
        case '.' =>
          if !inBracket && leadingDotsEnded && i + 1 < |path| && path[i + 1] == '.' { return true; }
        case _ => leadingDotsEnded := true;
      }
    }
    found := false;
  }

  method HasTrailingDot(path: string) returns (found: bool)
    ensures found == TrailingDot(path)
  {
    if path == "" || path[|path| - 1] != '.' { return false; }
    var inBracket := false;
    for i := 0 to |path| - 1
      invariant inBracket == EndsInBracket(path[..i])
    {
      assert path[..i + 1][..i] == path[..i];
      match path[i] {
        case '[' => inBracket := true;
        case ']' => inBracket := false;
        case _ =>
      }
    }
    found := !inBracket;
  }

  method MergeLeadingDots(parts: seq<string>) returns (merged: seq<string>)
    ensures merged == Merge(parts, 0)
  {
    merged := [];
    var leadingDots := 0;
    for i := 0 to |parts|
      invariant leadingDots >= 0
      invariant merged + Merge(parts[i..], leadingDots) == Merge(parts, 0)
    {
      assert parts[i..][0] == parts[i] && parts[i..][1..] == parts[i + 1..];
      if parts[i] == "" {
        leadingDots := leadingDots + 1;
      } else {
        merged := merged + [Dots(leadingDots) + parts[i]];
        leadingDots := 0;
      }
    }
  }

  method Parse(path: string) returns (r: Option<Path>)
    ensures r == ParsePath(path)
  {
    if path == "" { return Some([""]); }
    if ' ' in path { return None; }
    var consecutive := HasConsecutiveDots(path);
    if consecutive { return None; }
    var trailing := HasTrailingDot(path);
    if trailing { return None; }
    var split := Split(path, 0, None, "");
    if split.None? { return None; }
    var merged := MergeLeadingDots(split.value);
    r := ParseEach(merged);
  }

  method ParseEach(tokens: seq<string>) returns (r: Option<Path>)
    ensures r == ParseGroups(tokens)
  {
    var segments: Path := [];
    assert tokens[0..] == tokens && ParseGroups(tokens) == Prepend([], ParseGroups(tokens)) by {
      if ParseGroups(tokens).Some? { assert [] + ParseGroups(tokens).value == ParseGroups(tokens).value; }
    }
    for i := 0 to |tokens|
      invariant ParseGroups(tokens) == Prepend(segments, ParseGroups(tokens[i..]))
    {
      assert tokens[i..][0] == tokens[i] && tokens[i..][1..] == tokens[i + 1..];
      var segs := ParseSegmentGroup(tokens[i]);
      if segs.None? { return None; }
      var rest := ParseGroups(tokens[i + 1..]);
      if rest.Some? { assert segments + (segs.value + rest.value) == segments + segs.value + rest.value; }
      segments := segments + segs.value;
    }
    assert segments + [] == segments;
    r := Some(segments);
  }

  function Prepend(front: Path, back: Option<Path>): Option<Path> {
    match back case Some(b) => Some(front + b) case None => None
  }

  // ----- printing -----

  /** The ways of writing one segment: as it is, in brackets and quotes, or, an index or predicate, in brackets. */
  datatype Form = Bare | Quoted(q: char) | Unquoted

  predicate Writable(seg: string, form: Form) {
    seg != "" && IsPlain(seg) &&
    match form
    case Bare => '.' !in seg
    case Quoted(q) => IsQuote(q)
    case Unquoted => (AllDigits(seg) && (|seg| == 1 || seg[0] != '0')) || ParsePredicate(seg).Some?
  }

  function Token(seg: string, form: Form): string {
    match form
    case Bare => seg
    case Quoted(q) => "[" + [q] + seg + [q] + "]"
    case Unquoted => "[" + seg + "]"
  }

  /** What stands between two dots: a segment, or a name with a bracketed segment right behind it. */
  datatype Group = Alone(seg: string, form: Form) | Followed(name: string, seg: string, form: Form)

  predicate Legible(g: Group) {
    match g
    case Alone(seg, form) => Writable(seg, form)
    case Followed(name, seg, form) => Writable(name, Bare) && Writable(seg, form) && !form.Bare?
  }

  function GroupText(g: Group): string {
    match g
    case Alone(seg, form) => Token(seg, form)
    case Followed(name, seg, form) => name + Token(seg, form)
  }

  function GroupSegments(g: Group): Path {
    match g
    case Alone(seg, _) => [seg]
    case Followed(name, seg, _) => [name, seg]
  }

  function GroupTexts(groups: seq<Group>): seq<string> {
    seq(|groups|, i requires 0 <= i < |groups| => GroupText(groups[i]))
  }

  function AllSegments(groups: seq<Group>): Path {
    if groups == [] then [] else GroupSegments(groups[0]) + AllSegments(groups[1..])
  }

  function Join(tokens: seq<string>): string {
    if tokens == [] then "" else if |tokens| == 1 then tokens[0] else tokens[0] + "." + Join(tokens[1..])
  }

  // ----- scanning one token -----

  /** A written segment, seen as its opening, a content without special characters and its closing. */
  lemma TokenShape(seg: string, form: Form)
    requires Writable(seg, form)
    ensures var t := Token(seg, form); t != "" && t[0] != '.' && t[|t| - 1] != '.' && ' ' !in t
  {}

  lemma {:induction false} DotsOverPlain(s: string, rest: string, inBracket: bool)
    requires s != "" && IsPlain(s) && (inBracket || '.' !in s)
    ensures inBracket ==> ConsecutiveDots(s + rest, true, true) == ConsecutiveDots(rest, true, true)
    ensures !inBracket ==> forall e :: ConsecutiveDots(s + rest, false, e) == ConsecutiveDots(rest, false, true)
    decreases |s|
  {
    var t := s[1..];
    assert (s + rest)[0] == s[0] && (s + rest)[1..] == t + rest;
    assert !IsSpecial(s[0]);
    if t == "" { assert t + rest == rest; } else { DotsOverPlain(t, rest, inBracket); }
  }

  lemma DotsOverQuote(q: char, rest: string)
    requires IsQuote(q)
    ensures ConsecutiveDots([q] + rest, true, true) == ConsecutiveDots(rest, true, true)
  {
    assert ([q] + rest)[1..] == rest;
  }

  lemma DotsOverBrackets(inner: string, rest: string, ended: bool)
    requires ConsecutiveDots(inner + ("]" + rest), true, true) == ConsecutiveDots("]" + rest, true, true)
    ensures ConsecutiveDots("[" + inner + "]" + rest, false, ended) == ConsecutiveDots(rest, false, true)
  {
    assert ("[" + inner + "]" + rest)[1..] == inner + ("]" + rest);
    assert ("]" + rest)[1..] == rest;
  }

  lemma DotsOverToken(seg: string, form: Form, rest: string, ended: bool)
    requires Writable(seg, form)
    ensures ConsecutiveDots(Token(seg, form) + rest, false, ended) == ConsecutiveDots(rest, false, true)
  {
    match form
    case Bare => DotsOverPlain(seg, rest, false);
    case Unquoted =>
      DotsOverPlain(seg, "]" + rest, true);
      DotsOverBrackets(seg, rest, ended);
    case Quoted(q) =>
      var inner := [q] + seg + [q];
      assert inner + ("]" + rest) == [q] + (seg + ([q] + ("]" + rest)));
      DotsOverQuote(q, seg + ([q] + ("]" + rest)));
      DotsOverPlain(seg, [q] + ("]" + rest), true);
      DotsOverQuote(q, "]" + rest);
      DotsOverBrackets(inner, rest, ended);
      assert Token(seg, form) + rest == "[" + inner + "]" + rest;
  }

  lemma {:induction false} SplitOverPlain(s: string, rest: string, depth: nat, quote: Option<char>, cur: string)
    requires IsPlain(s) && (depth > 0 || quote.Some? || '.' !in s)
    requires quote.Some? ==> IsQuote(quote.value)
    ensures Split(s + rest, depth, quote, cur) == Split(rest, depth, quote, cur + s)
    decreases |s|
  {
    if s == "" {
      assert s + rest == rest && cur + s == cur;
    } else {
      assert (s + rest)[0] == s[0] && (s + rest)[1..] == s[1..] + rest;
      assert !IsSpecial(s[0]);
      SplitOverPlain(s[1..], rest, depth, quote, cur + [s[0]]);
      assert cur + [s[0]] + s[1..] == cur + s;
    }
  }

  lemma SplitOverQuoted(q: char, s: string, rest: string, cur: string)
    requires IsQuote(q) && IsPlain(s)
    ensures Split([q] + s + [q] + rest, 1, None, cur) == Split(rest, 1, None, cur + [q] + s + [q])
  {
    assert ([q] + s + [q] + rest)[1..] == s + ([q] + rest);
    SplitOverPlain(s, [q] + rest, 1, Some(q), cur + [q]);
    assert ([q] + rest)[1..] == rest;
  }

  lemma SplitOverToken(seg: string, form: Form, rest: string, cur: string)
    requires Writable(seg, form)
    ensures Split(Token(seg, form) + rest, 0, None, cur) == Split(rest, 0, None, cur + Token(seg, form))
  {
    var t := Token(seg, form);
    match form
    case Bare => SplitOverPlain(seg, rest, 0, None, cur);
    case Unquoted =>
      assert (t + rest)[1..] == seg + ("]" + rest);
      SplitOverPlain(seg, "]" + rest, 1, None, cur + "[");
      assert ("]" + rest)[1..] == rest;
      assert cur + "[" + seg + "]" == cur + t;
    case Quoted(q) =>
      assert (t + rest)[1..] == [q] + seg + [q] + ("]" + rest);
      SplitOverQuoted(q, seg, "]" + rest, cur + "[");
      assert ("]" + rest)[1..] == rest;
      assert cur + "[" + [q] + seg + [q] + "]" == cur + t;
  }

  lemma BracketContentReadsBack(seg: string, form: Form)
    requires Writable(seg, form) && !form.Bare?
    ensures ParseBracketContent(Token(seg, form)) == Some(seg)
  {
    var t := Token(seg, form);
    FindIs(t, ']', |t| - 1);
    var inner := t[1..|t| - 1];
    if form.Unquoted? {
      assert inner == seg;
    } else {
      assert inner == [form.q] + seg + [form.q];
      assert !IsDigit(inner[0]);
      assert inner[1..|inner| - 1] == seg;
    }
  }

  // ----- scanning one group -----

  /** The text can stand between dots: neither check sees anything wrong in it, and it is not split. */
  ghost predicate StandsAlone(t: string) {
    && t != "" && t[0] != '.' && t[|t| - 1] != '.' && ' ' !in t
    && (forall rest, ended :: ConsecutiveDots(t + rest, false, ended) == ConsecutiveDots(rest, false, true))
    && (forall rest :: Split(t + rest, 0, None, "") == Split(rest, 0, None, t))
  }

  lemma TokenStandsAlone(seg: string, form: Form)
    requires Writable(seg, form)
    ensures StandsAlone(Token(seg, form))
  {
    var t := Token(seg, form);
    TokenShape(seg, form);
    forall rest, ended ensures ConsecutiveDots(t + rest, false, ended) == ConsecutiveDots(rest, false, true) {
      DotsOverToken(seg, form, rest, ended);
    }
    forall rest ensures Split(t + rest, 0, None, "") == Split(rest, 0, None, t) {
      SplitOverToken(seg, form, rest, "");
      assert "" + t == t;
    }
  }

  lemma FollowedStandsAlone(name: string, seg: string, form: Form)
    requires Writable(name, Bare) && Writable(seg, form)
    ensures StandsAlone(name + Token(seg, form))
  {
    var t := Token(seg, form);
    TokenShape(name, Bare);
    TokenShape(seg, form);
    forall rest, ended
      ensures ConsecutiveDots(name + t + rest, false, ended) == ConsecutiveDots(rest, false, true)
    {
      assert name + t + rest == name + (t + rest);
      DotsOverToken(name, Bare, t + rest, ended);
      DotsOverToken(seg, form, rest, true);
    }
    forall rest ensures Split(name + t + rest, 0, None, "") == Split(rest, 0, None, name + t) {
      assert name + t + rest == name + (t + rest) && "" + name == name;
      SplitOverToken(name, Bare, t + rest, "");
      SplitOverToken(seg, form, rest, name);
    }
  }

  lemma PlainHasNoBrackets(s: string)
    requires IsPlain(s)
    ensures forall i | 0 <= i < |s| :: s[i] != '[' && s[i] != ']' && !IsQuote(s[i])
  {
    forall i | 0 <= i < |s| ensures s[i] != '[' && s[i] != ']' && !IsQuote(s[i]) { assert !IsSpecial(s[i]); }
  }

  lemma TokenReadsBack(seg: string, form: Form)
    requires Writable(seg, form)
    ensures ParseSegmentGroup(Token(seg, form)) == Some([seg])
  {
    var t := Token(seg, form);
    TokenShape(seg, form);
    assert LeadingDots(t) == 0 && t[0..] == t;
    if form.Bare? {
      PlainHasNoBrackets(t);
      FindIs(t, '[', |t|);
    } else {
      FindIs(t, '[', 0);
      BracketContentReadsBack(seg, form);
    }
  }

  lemma FollowedReadsBack(name: string, seg: string, form: Form)
    requires Writable(name, Bare) && Writable(seg, form) && !form.Bare?
    ensures ParseSegmentGroup(name + Token(seg, form)) == Some([name, seg])
  {
    var u := Token(seg, form);
    var t := name + u;
    BracketContentReadsBack(seg, form);
    PlainHasNoBrackets(name);
    assert u[0] == '[';
    FindIs(t, '[', |name|);
    assert LeadingDots(t) == 0 && t[0..] == t && t[..0] + name == name;
    assert t[..|name|] == name && t[|name|..] == u;
  }

  lemma GroupReadsBack(g: Group)
    requires Legible(g)
    ensures StandsAlone(GroupText(g)) && ParseSegmentGroup(GroupText(g)) == Some(GroupSegments(g))
  {
    match g
    case Alone(seg, form) =>
      TokenStandsAlone(seg, form);
      TokenReadsBack(seg, form);
    case Followed(name, seg, form) =>
      FollowedStandsAlone(name, seg, form);
      FollowedReadsBack(name, seg, form);
  }

  // ----- the whole path -----

  lemma {:induction false} JoinScans(tokens: seq<string>, ended: bool)
    requires tokens != [] && forall i | 0 <= i < |tokens| :: StandsAlone(tokens[i])
    ensures var s := Join(tokens);
            && s != "" && s[0] != '.' && s[|s| - 1] != '.' && ' ' !in s
            && !ConsecutiveDots(s, false, ended) && Split(s, 0, None, "") == Some(tokens)
    decreases |tokens|
  {
    var t := tokens[0];
    assert StandsAlone(t);
    if |tokens| == 1 {
      assert t + "" == t && tokens == [t];
    } else {
      JoinScans(tokens[1..], true);
      var tail := Join(tokens[1..]);
      assert Join(tokens) == t + ("." + tail);
      assert ("." + tail)[1..] == tail && ("." + tail)[1] == tail[0];
      assert tokens == [t] + tokens[1..];
    }
  }

  lemma {:induction false} MergeKeepsTokens(tokens: seq<string>)
    requires forall i | 0 <= i < |tokens| :: tokens[i] != ""
    ensures Merge(tokens, 0) == tokens
    decreases |tokens|
  {
    if tokens != [] {
      MergeKeepsTokens(tokens[1..]);
      assert Dots(0) + tokens[0] == tokens[0];
      assert tokens == [tokens[0]] + tokens[1..];
    }
  }

  lemma JoinParses(tokens: seq<string>)
    requires tokens != [] && forall i | 0 <= i < |tokens| :: StandsAlone(tokens[i])
    ensures ParsePath(Join(tokens)) == ParseGroups(tokens)
  {
    JoinScans(tokens, false);
    MergeKeepsTokens(tokens);
  }

  predicate AllLegible(groups: seq<Group>) {
    forall i | 0 <= i < |groups| :: Legible(groups[i])
  }

  lemma {:induction false} GroupsReadBack(groups: seq<Group>)
    requires AllLegible(groups)
    ensures ParseGroups(GroupTexts(groups)) == Some(AllSegments(groups))
    decreases |groups|
  {
    if groups != [] {
      assert GroupTexts(groups)[1..] == GroupTexts(groups[1..]);
      GroupReadsBack(groups[0]);
      GroupsReadBack(groups[1..]);
    }
  }

  /** Parsing a printed path gives its segments back, however each one was written. */
  lemma ParseInvertsPrint(groups: seq<Group>)
    requires groups != [] && AllLegible(groups)
    ensures ParsePath(Join(GroupTexts(groups))) == Some(AllSegments(groups))
  {
    var tokens := GroupTexts(groups);
    forall i | 0 <= i < |tokens| ensures StandsAlone(tokens[i]) { GroupReadsBack(groups[i]); }
    JoinParses(tokens);
    GroupsReadBack(groups);
  }

  lemma TwoGroups(g: Group, h: Group)
    requires Legible(g) && Legible(h)
    ensures ParsePath(GroupText(g) + "." + GroupText(h)) == Some(GroupSegments(g) + GroupSegments(h))
  {
    var tokens := [GroupText(g), GroupText(h)];
    GroupReadsBack(g);
    GroupReadsBack(h);
    assert tokens[1..] == [GroupText(h)] && tokens[1..][1..] == [];
    assert Join(tokens) == GroupText(g) + "." + GroupText(h);
    JoinParses(tokens);
    assert ParseGroups([GroupText(h)]) == Some(GroupSegments(h) + []);
    assert GroupSegments(h) + [] == GroupSegments(h);
  }

  /** The groups of a path written with dots only. */
  function Dotted(segs: Path): seq<Group> {
    seq(|segs|, i requires 0 <= i < |segs| => Alone(segs[i], Bare))
  }

  lemma {:induction false} DottedSegments(segs: Path)
    ensures GroupTexts(Dotted(segs)) == segs && AllSegments(Dotted(segs)) == segs
    decreases |segs|
  {
    if segs != [] {
      DottedSegments(segs[1..]);
      assert Dotted(segs)[1..] == Dotted(segs[1..]);
    }
  }
}
