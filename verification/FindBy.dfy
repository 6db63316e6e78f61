/** restclient.go and continuation_token.go: finding a resource in a list that may span several pages. */
module Matching {
  import opened Options
  import opened Json
  import opened PathParsing
  import opened Unstructured

  type Fields = map<string, JSON>

  datatype Policy = And | Or

  /** The client's identifiers, the resource it looks for, and comparison.DeepEqual. */
  datatype Client = Client(identifiers: seq<string>, policy: Policy, resource: JSON, same: (JSON, JSON) -> bool)

  /** isInResource: the value is the spec's, or else the status's; None is an error. */
  function InResource(c: Client, v: JSON, path: Path): Option<bool> {
    match NestedField(c.resource, ["spec"] + path)
    case Failed(_) => None
    case Found(x) => if c.same(x, v) then Some(true) else InStatus(c, v, path)
    case Absent => InStatus(c, v, path)
  }

  function InStatus(c: Client, v: JSON, path: Path): Option<bool> {
    match NestedField(c.resource, ["status"] + path)
    case Failed(_) => None
    case Found(x) => Some(c.same(x, v))
    case Absent => Some(false)
  }

  function Identifier(id: string): Option<Path> {
    match ParsePath(id) case Some(p) => (if p == [] then None else Some(p)) case None => None
  }

  /** Every identifier must match; one that is missing does not, and one that cannot be parsed is skipped. */
  function AllMatch(c: Client, ids: seq<string>, item: JSON): Option<bool> {
    if ids == [] then Some(true)
    else match Identifier(ids[0])
      case None => AllMatch(c, ids[1..], item)
      case Some(p) =>
        match NestedField(item, p)
        case Found(v) =>
          (match InResource(c, v, p)
           case None => None
           case Some(ok) => if ok then AllMatch(c, ids[1..], item) else Some(false))
        case _ => Some(false)
  }

  function AnyMatches(c: Client, ids: seq<string>, item: JSON): Option<bool> {
    if ids == [] then Some(false)
    else match Identifier(ids[0])
      case None => AnyMatches(c, ids[1..], item)
      case Some(p) =>
        match NestedField(item, p)
        case Found(v) =>
          (match InResource(c, v, p)
           case None => None
           case Some(ok) => if ok then Some(true) else AnyMatches(c, ids[1..], item))
        case _ => AnyMatches(c, ids[1..], item)
  }

  /** An item that is not an object, or whose comparison fails, is not a match. */
  predicate Matches(c: Client, item: JSON) {
    item.Obj? && c.identifiers != [] &&
    match c.policy
    case And => AllMatch(c, c.identifiers, item) == Some(true)
    case Or => AnyMatches(c, c.identifiers, item) == Some(true)
  }

  function FindItem(c: Client, items: seq<JSON>): Option<JSON> {
    if items == [] then None
    else if Matches(c, items[0]) then Some(items[0])
    else FindItem(c, items[1..])
  }

  /** It finds the first match, and nothing only when there is none. */
  lemma {:induction false} FindsFirstMatch(c: Client, items: seq<JSON>)
    ensures FindItem(c, items).None? <==> forall i | 0 <= i < |items| :: !Matches(c, items[i])
    ensures FindItem(c, items).Some? ==> exists i | 0 <= i < |items| ::
                items[i] == FindItem(c, items).value && Matches(c, items[i])
                && forall j | 0 <= j < i :: !Matches(c, items[j])
  {
    if items != [] && !Matches(c, items[0]) {
      FindsFirstMatch(c, items[1..]);
      assert forall i | 1 <= i < |items| :: items[i] == items[1..][i - 1];
    }
  }

  method FindItemInList(c: Client, items: seq<JSON>) returns (r: Option<JSON>)
    ensures r == FindItem(c, items)
  {
    for i := 0 to |items|
      invariant FindItem(c, items) == FindItem(c, items[i..])
    {
      assert items[i..][1..] == items[i + 1..];
      if Matches(c, items[i]) { return Some(items[i]); }
    }
    r := None;
  }

  lemma {:induction false} FindInConcatenation(c: Client, a: seq<JSON>, b: seq<JSON>)
    ensures FindItem(c, a + b) == if FindItem(c, a).Some? then FindItem(c, a) else FindItem(c, b)
    decreases |a|
  {
    if a == [] {
      assert a + b == b;
    } else {
      assert (a + b)[0] == a[0] && (a + b)[1..] == a[1..] + b;
      FindInConcatenation(c, a[1..], b);
    }
  }

  // ----- what a match is -----

  /** The resource has this value at the path: in its spec or, the spec being readable there, in its status. */
  predicate Has(c: Client, v: JSON, p: Path) {
    var spec, status := NestedField(c.resource, ["spec"] + p), NestedField(c.resource, ["status"] + p);
    (spec.Found? && c.same(spec.value, v)) || (!spec.Failed? && status.Found? && c.same(status.value, v))
  }

  /** Looking for the value runs into something that is neither a map nor nil, before it is found. */
  predicate CannotTell(c: Client, v: JSON, p: Path) {
    var spec, status := NestedField(c.resource, ["spec"] + p), NestedField(c.resource, ["status"] + p);
    spec.Failed? || (status.Failed? && !(spec.Found? && c.same(spec.value, v)))
  }

  /** The identifier names a field, and the item has it. */
  predicate Identifies(item: JSON, id: string, p: Path) {
    p != [] && ParsePath(id) == Some(p) && NestedField(item, p).Found?
  }

  lemma ResourceHas(c: Client, v: JSON, p: Path)
    ensures InResource(c, v, p) == Some(true) <==> Has(c, v, p)
    ensures InResource(c, v, p) == None <==> CannotTell(c, v, p)
  {}

  /** The item and the resource have the field that the identifier names, with the same value. */
  predicate Shared(c: Client, item: JSON, id: string) {
    match ParsePath(id)
    case Some(p) => Identifies(item, id, p) && Has(c, NestedField(item, p).value, p)
    case None => false
  }

  predicate NamesNothing(id: string) {
    ParsePath(id) == None || ParsePath(id) == Some([])
  }

  /** With policy "and": every identifier that names a field is shared. */
  lemma MatchesAnd(c: Client, item: JSON)
    requires c.policy.And?
    ensures Matches(c, item) <==>
              && item.Obj? && c.identifiers != []
              && forall i | 0 <= i < |c.identifiers| ::
                   NamesNothing(c.identifiers[i]) || Shared(c, item, c.identifiers[i])
  {
    EveryIdentifier(c, c.identifiers, item);
  }

  lemma {:induction false} EveryIdentifier(c: Client, ids: seq<string>, item: JSON)
    ensures AllMatch(c, ids, item) == Some(true)
            <==> forall i | 0 <= i < |ids| :: NamesNothing(ids[i]) || Shared(c, item, ids[i])
    decreases |ids|
  {
    if ids != [] {
      EveryIdentifier(c, ids[1..], item);
      FirstOfEvery(c, ids, item);
      assert forall i | 0 < i < |ids| :: ids[i] == ids[1..][i - 1];
      assert forall i | 0 <= i < |ids| - 1 :: ids[1..][i] == ids[i + 1];
    }
  }

  lemma FirstOfEvery(c: Client, ids: seq<string>, item: JSON)
    requires ids != []
    ensures AllMatch(c, ids, item) == Some(true)
            <==> (NamesNothing(ids[0]) || Shared(c, item, ids[0])) && AllMatch(c, ids[1..], item) == Some(true)
  {
    match Identifier(ids[0])
    case Some(p) => if NestedField(item, p).Found? { ResourceHas(c, NestedField(item, p).value, p); }
    case None =>
  }

  /** The i-th identifier decides for a match with policy "or": it is the first to be in the resource, or unreadable. */
  predicate DecidesAt(c: Client, ids: seq<string>, item: JSON, i: nat)
    requires i < |ids|
  {
    && Shared(c, item, ids[i])
    && forall j | 0 <= j < i :: !Unreadable(c, item, ids[j])
  }

  predicate Unreadable(c: Client, item: JSON, id: string) {
    match ParsePath(id)
    case Some(p) => Identifies(item, id, p) && CannotTell(c, NestedField(item, p).value, p)
    case None => false
  }

  /** With policy "or": some identifier has the resource's value, none before it being unreadable in the resource. */
  lemma MatchesOr(c: Client, item: JSON)
    requires c.policy.Or?
    ensures Matches(c, item)
            <==> item.Obj? && exists i | 0 <= i < |c.identifiers| :: DecidesAt(c, c.identifiers, item, i)
  {
    SomeIdentifier(c, c.identifiers, item);
  }

  lemma {:induction false} SomeIdentifier(c: Client, ids: seq<string>, item: JSON)
    ensures AnyMatches(c, ids, item) == Some(true) <==> exists i | 0 <= i < |ids| :: DecidesAt(c, ids, item, i)
    decreases |ids|
  {
    if ids != [] {
      SomeIdentifier(c, ids[1..], item);
      FirstIdentifier(c, ids, item);
      if AnyMatches(c, ids, item) == Some(true) && !Shared(c, item, ids[0]) {
        var i :| 0 <= i < |ids[1..]| && DecidesAt(c, ids[1..], item, i);
        LaterDecides(c, ids, item, i);
      }
      if i :| 0 < i < |ids| && DecidesAt(c, ids, item, i) { LaterDecides(c, ids, item, i - 1); }
    }
  }

  lemma LaterDecides(c: Client, ids: seq<string>, item: JSON, i: nat)
    requires i + 1 < |ids|
    ensures DecidesAt(c, ids, item, i + 1) <==> DecidesAt(c, ids[1..], item, i) && !Unreadable(c, item, ids[0])
  {
    assert forall j | 0 <= j <= i :: ids[1..][j] == ids[j + 1];
    assert forall j | 0 < j <= i + 1 :: ids[j] == ids[1..][j - 1];
  }

  lemma FirstIdentifier(c: Client, ids: seq<string>, item: JSON)
    requires ids != []
    ensures DecidesAt(c, ids, item, 0) <==> Shared(c, item, ids[0])
    ensures AnyMatches(c, ids, item) == Some(true) <==>
              Shared(c, item, ids[0])
              || (!Unreadable(c, item, ids[0]) && AnyMatches(c, ids[1..], item) == Some(true))
  {
    match Identifier(ids[0])
    case Some(p) => if NestedField(item, p).Found? { ResourceHas(c, NestedField(item, p).value, p); }
    case None =>
  }

  // ----- lists in response bodies -----

  /** A body that is a list, or an object with at most one list in it. */
  predicate ListPage(body: JSON) {
    body.Arr? || (body.Obj? && forall j, k | j in body.fields && k in body.fields
                                 && body.fields[j].Arr? && body.fields[k].Arr? :: j == k)
  }

  ghost function ItemsOf(body: JSON): seq<JSON>
    requires ListPage(body)
  {
    if body.Arr? then body.items
    else if body.fields == map[] then []
    else if exists k :: k in body.fields && body.fields[k].Arr?
    then var k :| k in body.fields && body.fields[k].Arr?; body.fields[k].items
    else [body]
  }

  /** With several lists in an object, Go takes whichever it meets first. */
  method ExtractItemsFromResponse(body: JSON) returns (r: Option<seq<JSON>>)
    ensures r.Some? <==> body.Arr? || body.Obj?
    ensures ListPage(body) ==> r == Some(ItemsOf(body))
    ensures body.Obj? && r.Some? ==>
              (body.fields == map[] && r.value == [])
              || (exists k :: k in body.fields && body.fields[k].Arr? && r.value == body.fields[k].items)
              || (body.fields != map[] && r.value == [body] && forall k | k in body.fields :: !body.fields[k].Arr?)
  {
    match body {
      case Arr(items) => return Some(items);
      case Obj(fields) =>
        if fields == map[] { return Some([]); }
        var todo := fields.Keys;
        while todo != {}
          invariant todo <= fields.Keys
          invariant forall k | k in fields && k !in todo :: !fields[k].Arr?
          decreases todo
        {
          var k :| k in todo;
          if fields[k].Arr? { return Some(fields[k].items); }
          todo := todo - {k};
        }
        return Some([body]);
      case _ => return None;
    }
  }
}

module FindBy {
  import opened Options
  import opened Json
  import opened Matching

  datatype TokenPlace = Query | Header | BodyField | Unsupported

  /** continuationTokenPaginator. */
  class ContinuationTokenPaginator {
    var nextToken: string
    var isFirstCall: bool
    const requestIn: TokenPlace
    const responseIn: TokenPlace

    constructor (requestIn: TokenPlace, responseIn: TokenPlace)
      ensures this.requestIn == requestIn && this.responseIn == responseIn
      ensures nextToken == "" && isFirstCall
    {
      this.requestIn, this.responseIn := requestIn, responseIn;
      nextToken, isFirstCall := "", true;
    }

    method Init()
      modifies this
      ensures nextToken == "" && isFirstCall
    {
      nextToken, isFirstCall := "", true;
    }

    /** The token added to the request, if any; None is an error. */
    method UpdateRequest() returns (token: Option<Option<string>>)
      modifies this
      ensures nextToken == old(nextToken)
      ensures old(isFirstCall) || nextToken == "" ==> token == Some(None) && !isFirstCall
      ensures !old(isFirstCall) && nextToken != "" ==>
                !isFirstCall && token == if requestIn.Query? || requestIn.Header? then Some(Some(nextToken)) else None
    {
      if isFirstCall || nextToken == "" {
        isFirstCall := false;
        return Some(None);
      }
      match requestIn {
        case Query => return Some(Some(nextToken));
        case Header => return Some(Some(nextToken));
        case _ => return None;
      }
    }

    /** Reading the token from the body is declared but not implemented: it never finds one. */
    method ShouldContinue(header: string) returns (more: Option<bool>)
      modifies this
      ensures isFirstCall == old(isFirstCall)
      ensures responseIn.Header? ==> nextToken == header && more == Some(header != "")
      ensures responseIn.BodyField? ==> nextToken == "" && more == Some(false)
      ensures responseIn.Query? || responseIn.Unsupported? ==> more == None
    {
      var extracted := "";
      match responseIn {
        case Header => extracted := header;
        case BodyField =>
        case _ => return None;
      }
      nextToken := extracted;
      return Some(extracted != "");
    }
  }

  /** A page that holds nothing has the body Null. */
  datatype Reply = AnswersNotFound | CallFails | Page(body: JSON, nextToken: string)

  /** What the API answers to the k-th request, carrying a token or none. */
  type Api = (nat, Option<string>) -> Reply

  /** No page is an object with several lists in it. */
  ghost predicate Unambiguous(api: Api) {
    forall k: nat, token: Option<string> :: OneList(api, k, token)
  }

  predicate OneList(api: Api, k: nat, token: Option<string>) {
    var reply := api(k, token);
    reply.Page? && reply.body.Obj? ==> ListPage(reply.body)
  }

  datatype Tokens = Tokens(requestIn: TokenPlace, responseIn: TokenPlace)

  datatype Outcome = Item(item: JSON) | NotFound | Error

  /**
   * A request that brought no list, because it was answered "not found" or for another reason, or one that
   * brought these items and the token of the next page.
   */
  datatype Answer = Nothing(notFound: bool) | Listing(items: seq<JSON>, next: Option<string>)

  ghost function Ask(t: Tokens, api: Api, k: nat, token: Option<string>): Answer {
    if token.Some? && !t.requestIn.Query? && !t.requestIn.Header? then Nothing(false)
    else if !api(k, token).Page? then Nothing(api(k, token).AnswersNotFound?)
    else if !ListPage(api(k, token).body) then Nothing(false)
    else Listing(ItemsOf(api(k, token).body),
                 match t.responseIn
                 case Header => Some(api(k, token).nextToken)
                 case BodyField => Some("")
                 case _ => None)
  }

  ghost predicate Continues(a: Answer) { a.Listing? && a.next.Some? && a.next.value != "" }

  /** From the k-th request on the chain of tokens ends, for better or worse, at its n-th page. */
  ghost predicate Chain(t: Tokens, api: Api, k: nat, token: Option<string>, n: nat)
    decreases n
  {
    n > 0 && var a := Ask(t, api, k, token);
             if Continues(a) then Chain(t, api, k + 1, a.next, n - 1) else n == 1
  }

  /** All items of a chain, in order. */
  ghost function Concatenation(t: Tokens, api: Api, k: nat, token: Option<string>, n: nat): seq<JSON>
    requires Chain(t, api, k, token, n)
    decreases n
  {
    var a := Ask(t, api, k, token);
    if Continues(a) then a.items + Concatenation(t, api, k + 1, a.next, n - 1)
    else if a.Listing? then a.items
    else []
  }

  /** The chain ends with a list that names no further page, or with a request answered "not found". */
  ghost predicate EndsNotFound(t: Tokens, api: Api, k: nat, token: Option<string>, n: nat)
    requires Chain(t, api, k, token, n)
    decreases n
  {
    var a := Ask(t, api, k, token);
    if Continues(a) then EndsNotFound(t, api, k + 1, a.next, n - 1)
    else if a.Nothing? then a.notFound
    else a.next == Some("")
  }

  /** Searching page by page. */
  ghost function Search(c: Client, t: Tokens, api: Api, k: nat, token: Option<string>, n: nat): Outcome
    requires Chain(t, api, k, token, n)
    decreases n
  {
    var a := Ask(t, api, k, token);
    if a.Nothing? then (if a.notFound then NotFound else Error)
    else match FindItem(c, a.items)
      case Some(item) => Item(item)
      case None =>
        if Continues(a) then Search(c, t, api, k + 1, a.next, n - 1)
        else if a.next.None? then Error
        else NotFound
  }

  /**
   * Page by page is one flat list: nothing that a page holds is missed for what comes after it. Without a
   * match, "not found" is the answer when the pages end, and also when one of them is not found.
   */
  lemma {:induction false} SearchIsFlat(c: Client, t: Tokens, api: Api, k: nat, token: Option<string>, n: nat)
    requires Chain(t, api, k, token, n)
    ensures Search(c, t, api, k, token, n)
            == match FindItem(c, Concatenation(t, api, k, token, n))
               case Some(i) => Item(i)
               case None => if EndsNotFound(t, api, k, token, n) then NotFound else Error
    decreases n
  {
    var a := Ask(t, api, k, token);
    if Continues(a) {
      SearchIsFlat(c, t, api, k + 1, a.next, n - 1);
      FindInConcatenation(c, a.items, Concatenation(t, api, k + 1, a.next, n - 1));
    }
  }

  /** With the token declared in the body, a chain is its first page: nothing beyond it is ever searched. */
  lemma TokenInBodyStopsAtFirstPage(c: Client, t: Tokens, api: Api, n: nat)
    requires t.responseIn.BodyField? && Chain(t, api, 0, None, n)
    ensures n == 1
    ensures Search(c, t, api, 0, None, n)
            == var a := Ask(t, api, 0, None);
               if a.Nothing? then (if a.notFound then NotFound else Error)
               else if FindItem(c, a.items).Some? then Item(FindItem(c, a.items).value)
               else NotFound
  {
    assert !Continues(Ask(t, api, 0, None));
  }

  /** The token of the k-th request: none at first, then the token of the response before it. */
  ghost function TokenOf(t: Tokens, api: Api, k: nat): Option<string> {
    if k == 0 then None
    else
      var a := Ask(t, api, k - 1, TokenOf(t, api, k - 1));
      if a.Listing? then a.next else None
  }

  /** Each of the first n requests brought a list without a match, and the token of a further page. */
  ghost predicate Fruitless(c: Client, t: Tokens, api: Api, n: nat) {
    forall k: nat | k < n :: BarrenAt(c, t, api, k)
  }

  ghost predicate BarrenAt(c: Client, t: Tokens, api: Api, k: nat) {
    Barren(c, Ask(t, api, k, TokenOf(t, api, k)))
  }

  ghost predicate Barren(c: Client, a: Answer) { Continues(a) && FindItem(c, a.items) == None }

  /** What the search ends with at this answer. */
  ghost function Verdict(c: Client, a: Answer): Outcome {
    if a.Nothing? then (if a.notFound then NotFound else Error)
    else match FindItem(c, a.items)
      case Some(item) => Item(item)
      case None => if a.next.None? then Error else NotFound
  }

  /** The search has reached the k-th request of a chain of n, about to carry this token. */
  ghost predicate Searching(c: Client, t: Tokens, api: Api, n: nat, k: nat, token: Option<string>) {
    && k < n && token == TokenOf(t, api, k) && Fruitless(c, t, api, k)
    && Chain(t, api, 0, None, n) && Chain(t, api, k, token, n - k)
    && Search(c, t, api, k, token, n - k) == Search(c, t, api, 0, None, n)
  }

  lemma OneRequest(c: Client, t: Tokens, api: Api, n: nat, k: nat, token: Option<string>)
    requires Searching(c, t, api, n, k, token)
    ensures var a := Ask(t, api, k, token);
            if Barren(c, a) then Searching(c, t, api, n, k + 1, a.next)
            else Search(c, t, api, 0, None, n) == Verdict(c, a)
  {
  }

  datatype PageResult = Stop(outcome: Outcome) | Continue

  /** The paginator is about to send this token. */
  ghost predicate Carries(paginator: ContinuationTokenPaginator, token: Option<string>)
    reads paginator
  {
    if paginator.isFirstCall then token == None else paginator.nextToken != "" && token == Some(paginator.nextToken)
  }

  /** One request, the search of its page, and the decision to go on. */
  method TryPage(c: Client, api: Api, paginator: ContinuationTokenPaginator, k: nat, ghost at: Option<string>)
    returns (token: Option<string>, r: PageResult)
    requires Unambiguous(api) && Carries(paginator, at)
    modifies paginator
    ensures token == at
    ensures var a := Ask(Tokens(paginator.requestIn, paginator.responseIn), api, k, at);
            match r
            case Continue => Barren(c, a) && Carries(paginator, a.next)
            case Stop(o) => !Barren(c, a) && o == Verdict(c, a)
  {
    token := if paginator.isFirstCall then None else Some(paginator.nextToken);
    var sent := paginator.UpdateRequest();
    if sent.None? { return token, Stop(Error); }
    token := sent.value;
    assert OneList(api, k, token);
    var reply := api(k, token);
    if reply.AnswersNotFound? { return token, Stop(NotFound); }
    if reply.CallFails? { return token, Stop(Error); }
    var items := ExtractItemsFromResponse(reply.body);
    if items.None? { return token, Stop(Error); }
    var found := FindItemInList(c, items.value);
    if found.Some? { return token, Stop(Item(found.value)); }
    var more := paginator.ShouldContinue(reply.nextToken);
    if more.None? { return token, Stop(Error); }
    r := if more.value then Continue else Stop(NotFound);
  }

  /** One turn of the loop. */
  method Turn(
    c: Client, api: Api, paginator: ContinuationTokenPaginator, k: nat, ghost n: nat, ghost at: Option<string>)
    returns (token: Option<string>, r: PageResult, ghost next: Option<string>)
    requires Unambiguous(api) && Carries(paginator, at)
    requires Searching(c, Tokens(paginator.requestIn, paginator.responseIn), api, n, k, at)
    modifies paginator
    ensures token == at
    ensures var t := Tokens(paginator.requestIn, paginator.responseIn);
            match r
            case Continue => Searching(c, t, api, n, k + 1, next) && Carries(paginator, next)
            case Stop(o) => o == Search(c, t, api, 0, None, n)
  {
    ghost var t := Tokens(paginator.requestIn, paginator.responseIn);
    OneRequest(c, t, api, n, k, at);
    next := if Continues(Ask(t, api, k, at)) then Ask(t, api, k, at).next else None;
    token, r := TryPage(c, api, paginator, k, at);
  }

  /**
   * Paginated FindBy over a finite chain of pages. It stops at the page of the first match: no page
   * requested before the last one holds any. `sent` lists the tokens of the requests made.
   */
  method FindBy(c: Client, api: Api, paginator: ContinuationTokenPaginator, ghost n: nat)
    returns (r: Outcome, sent: seq<Option<string>>)
    requires Unambiguous(api)
    requires Chain(Tokens(paginator.requestIn, paginator.responseIn), api, 0, None, n)
    modifies paginator
    ensures var t := Tokens(paginator.requestIn, paginator.responseIn);
            && r == Search(c, t, api, 0, None, n)
            && 0 < |sent| <= n
            && (forall k {:trigger sent[k]} | 0 <= k < |sent| :: sent[k] == TokenOf(t, api, k))
            && Fruitless(c, t, api, |sent| - 1)
  {
    ghost var t := Tokens(paginator.requestIn, paginator.responseIn);
    paginator.Init();
    sent := [];
    ghost var at := None;
    while true
      invariant Searching(c, t, api, n, |sent|, at) && Carries(paginator, at)
      invariant forall k {:trigger sent[k]} | 0 <= k < |sent| :: sent[k] == TokenOf(t, api, k)
      decreases n - |sent|
    {
      var token, page;
      token, page, at := Turn(c, api, paginator, |sent|, n, at);
      sent := sent + [token];
      if page.Stop? { return page.outcome, sent; }
    }
  }

  // ----- without pagination -----

  /** CallFindBySingle: one request; unlike a page, an empty body counts as not found. */
  method CallFindBySingle(c: Client, reply: Reply) returns (r: Outcome)
    requires reply.Page? && reply.body.Obj? ==> ListPage(reply.body)
    ensures r.NotFound? <==> reply.AnswersNotFound?
                             || (reply.Page? && (reply.body.Null?
                                                 || (ListPage(reply.body) && FindItem(c, ItemsOf(reply.body)) == None)))
    ensures r.Item? <==> reply.Page? && ListPage(reply.body) && FindItem(c, ItemsOf(reply.body)).Some?
    ensures r.Item? ==> FindItem(c, ItemsOf(reply.body)) == Some(r.item)
  {
    if reply.AnswersNotFound? { return NotFound; }
    if reply.CallFails? { return Error; }
    if reply.body.Null? { return NotFound; }
    var items := ExtractItemsFromResponse(reply.body);
    if items.None? { return Error; }
    var found := FindItemInList(c, items.value);
    r := if found.Some? then Item(found.value) else NotFound;
  }

  /** It is the search of a single page, but for the empty body. */
  lemma SingleIsOnePage(c: Client, t: Tokens, api: Api)
    requires t.responseIn.BodyField? && Unambiguous(api)
    ensures Chain(t, api, 0, None, 1)
    ensures var reply, r := api(0, None), Search(c, t, api, 0, None, 1);
            && (r.NotFound? <==> reply.AnswersNotFound?
                                 || (reply.Page? && ListPage(reply.body) && FindItem(c, ItemsOf(reply.body)) == None))
            && (r.Item? <==> reply.Page? && ListPage(reply.body) && FindItem(c, ItemsOf(reply.body)).Some?)
  {
    assert OneList(api, 0, None);
  }
}
