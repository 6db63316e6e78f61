/** async.go: operation handles, status classification and the bounded poll loop. */
module Handles {
  import opened Options
  import opened Json
  import opened Segments
  import opened PathParsing
  import Unstructured

  /** strconv.FormatInt in base 10. */
  function IntText(n: int): (s: string)
    ensures s != ""
  {
    if n < 0 then "-" + IndexText(-n) else IndexText(n)
  }

  /** How a RestDefinition says where the operation handle is. */
  datatype OperationRef = OperationRef(source: Source, jq: Option<JSON -> Option<JSON>>)

  datatype Source = InBody(path: string) | InHeader(name: string) | Unsupported

  type Headers = map<string, string>

  /** `floatText` is strconv.FormatFloat in 'f' format, used for fractions only. */
  function ScalarToString(floatText: real -> string, v: JSON): (r: Option<string>)
    requires forall x :: floatText(x) != ""
    ensures r.Some? ==> r.value != ""
    ensures r.None? <==> v.Null? || v.Arr? || v.Obj? || v == Str("")
  {
    match v
    case Str(s) => if s == "" then None else Some(s)
    case Float(x) => Some(if x == x.Floor as real then IntText(x.Floor) else floatText(x))
    case Int(i) => Some(IntText(i))
    case Bool(b) => Some(if b then "true" else "false")
    case _ => None
  }

  function RawHandle(body: Option<JSON>, headers: Option<Headers>, source: Source): Option<JSON> {
    match source
    case InBody(path) =>
      (match ParsePath(path)
       case None => None
       case Some(segs) =>
         if segs == [] then None
         else match Unstructured.NestedField(if body.Some? then body.value else Null, segs)
              case Found(v) => Some(v)
              case _ => None)
    case InHeader(name) =>
      if headers.None? || name !in headers.value || headers.value[name] == "" then None
      else Some(Str(headers.value[name]))
    case Unsupported => None
  }

  /** A successful extraction always gives a non-empty handle, so a recorded one reads as in flight. */
  function ExtractOperationHandle(
    floatText: real -> string, body: Option<JSON>, headers: Option<Headers>, ref: OperationRef): (r: Option<string>)
    requires forall x :: floatText(x) != ""
    ensures r.Some? ==> r.value != ""
    ensures RawHandle(body, headers, ref.source).None? ==> r.None?
  {
    match RawHandle(body, headers, ref.source)
    case None => None
    case Some(raw) =>
      match ref.jq
      case None => ScalarToString(floatText, raw)
      case Some(program) =>
        match program(raw)
        case None => None
        case Some(out) => ScalarToString(floatText, out)
  }

  /** The digits of an integer, behind its sign. */
  lemma DecimalInteger(n: int)
    ensures n >= 0 ==> AllDigits(IntText(n)) && DigitsValue(IntText(n)) == n
    ensures n < 0 ==> IntText(n) == "-" + IntText(-n)
  {}

  /** From a body it is the value at the path, a text as it is and an integer in decimal. */
  lemma HandleInBody(floatText: real -> string, body: JSON, headers: Option<Headers>, path: string, segs: Path)
    requires forall x :: floatText(x) != ""
    requires segs != [] && ParsePath(path) == Some(segs)
    ensures var r := ExtractOperationHandle(floatText, Some(body), headers, OperationRef(InBody(path), None));
            match Unstructured.NestedField(body, segs)
            case Found(Str(s)) => r == if s == "" then None else Some(s)
            case Found(Int(n)) => r == Some(IntText(n))
            case Found(Bool(b)) => r == Some(if b then "true" else "false")
            case Found(Float(x)) => x == x.Floor as real ==> r == Some(IntText(x.Floor))
            case _ => r == None
  {}

  /** From the headers it is the one of that name. */
  lemma HandleInHeader(floatText: real -> string, body: Option<JSON>, headers: Headers, name: string)
    requires forall x :: floatText(x) != ""
    ensures ExtractOperationHandle(floatText, body, Some(headers), OperationRef(InHeader(name), None))
            == if name in headers && headers[name] != "" then Some(headers[name]) else None
  {}

  /** A program, if there is one, is given the raw value, and its output taken as if that were there. */
  lemma HandleThroughProgram(
    floatText: real -> string, body: Option<JSON>, headers: Headers, name: string, program: JSON -> Option<JSON>)
    requires (forall x :: floatText(x) != "") && name in headers && headers[name] != ""
    ensures var ref := OperationRef(InHeader(name), Some(program));
            var r := ExtractOperationHandle(floatText, body, Some(headers), ref);
            match program(Str(headers[name]))
            case Some(Str(s)) => s != "" ==> r == Some(s)
            case Some(_) => true
            case None => r == None
  {}
}

module Polling {
  import opened Options

  const SECOND: int := 1_000_000_000
  const DEFAULT_INTERVAL := SECOND
  const DEFAULT_MAX_ATTEMPTS := 10
  const MAX_INTERVAL := 60 * SECOND
  const MAX_ATTEMPTS_CAP := 120
  const MAX_TOTAL_TIMEOUT := 30 * 60 * SECOND
  const REQUEST_TIMEOUT := 30 * SECOND

  datatype Outcome = StillPending | Succeeded | FailedTerminally

  /** `fold` stands for the case folding of strings.EqualFold. */
  function ContainsFold(fold: string -> string, vals: seq<string>, s: string): bool {
    exists i | 0 <= i < |vals| :: fold(vals[i]) == fold(s)
  }

  /** A status listed both ways counts as a success. */
  function ClassifyStatus(fold: string -> string, success: seq<string>, failure: seq<string>, status: string): Outcome {
    if ContainsFold(fold, success, status) then Succeeded
    else if ContainsFold(fold, failure, status) then FailedTerminally
    else StillPending
  }

  // ----- clamping -----

  /** Two's-complement wrap-around of Go's 64-bit time.Duration. */
  function Wrap64(n: int): (r: int)
    ensures -0x8000_0000_0000_0000 <= r < 0x8000_0000_0000_0000
    decreases if -0x8000_0000_0000_0000 <= n < 0x8000_0000_0000_0000 then 0 else if n < 0 then -n else n
  {
    if n < -0x8000_0000_0000_0000 then Wrap64(n + 0x1_0000_0000_0000_0000)
    else if n >= 0x8000_0000_0000_0000 then Wrap64(n - 0x1_0000_0000_0000_0000)
    else n
  }

  lemma {:induction false} WrapsModulo(n: int)
    ensures Wrap64(n) == (n + 0x8000_0000_0000_0000) % 0x1_0000_0000_0000_0000 - 0x8000_0000_0000_0000
    decreases if -0x8000_0000_0000_0000 <= n < 0x8000_0000_0000_0000 then 0 else if n < 0 then -n else n
  {
    if n < -0x8000_0000_0000_0000 {
      WrapsModulo(n + 0x1_0000_0000_0000_0000);
    } else if n >= 0x8000_0000_0000_0000 {
      WrapsModulo(n - 0x1_0000_0000_0000_0000);
    }
  }

  datatype Config = Config(intervalSeconds: int, maxAttempts: int, timeoutSeconds: int)

  function Interval(cfg: Config): (r: int)
    ensures 0 < r <= MAX_INTERVAL
  {
    var d := Wrap64(cfg.intervalSeconds * SECOND);
    if d <= 0 then DEFAULT_INTERVAL else if d > MAX_INTERVAL then MAX_INTERVAL else d
  }

  function Attempts(cfg: Config): (r: nat)
    ensures 1 <= r <= MAX_ATTEMPTS_CAP
  {
    if cfg.maxAttempts <= 0 then DEFAULT_MAX_ATTEMPTS
    else if cfg.maxAttempts > MAX_ATTEMPTS_CAP then MAX_ATTEMPTS_CAP
    else cfg.maxAttempts
  }

  /** No timeout is configured, or one that wraps around to none. */
  predicate NoTimeout(cfg: Config) {
    Wrap64(cfg.timeoutSeconds * SECOND) <= 0
  }

  /** The time of `a` rounds of one wait and one poll each, and a wait. */
  function Rounds(a: nat, interval: int, bound: int): int {
    if a == 0 then interval else Rounds(a - 1, interval, bound) + interval + bound
  }

  lemma {:induction false} RoundsMultiply(a: nat, interval: int, bound: int)
    ensures Rounds(a, interval, bound) == a * (interval + bound) + interval
    decreases a
  {
    if a > 0 {
      RoundsMultiply(a - 1, interval, bound);
      assert a * (interval + bound) == (a - 1) * (interval + bound) + (interval + bound);
    }
  }

  lemma {:induction false} MoreRounds(a: nat, b: nat, interval: nat, bound: nat)
    requires a <= b
    ensures Rounds(a, interval, bound) <= Rounds(b, interval, bound)
    decreases b
  {
    if a < b { MoreRounds(a, b - 1, interval, bound); }
  }

  /** The budget derived from the attempt plan when no timeout is set. */
  function DerivedTotal(cfg: Config): int {
    Rounds(Attempts(cfg), Interval(cfg), REQUEST_TIMEOUT)
  }

  function Total(cfg: Config): (r: int)
    ensures 0 < r <= MAX_TOTAL_TIMEOUT
    ensures NoTimeout(cfg) && DerivedTotal(cfg) <= MAX_TOTAL_TIMEOUT ==> r == DerivedTotal(cfg)
  {
    var d := Wrap64(cfg.timeoutSeconds * SECOND);
    var total := if d <= 0 then Wrap64(DerivedTotal(cfg)) else d;
    assert d <= 0 ==> total == DerivedTotal(cfg) by { DerivedTotalFits(cfg); }
    assert d <= 0 ==> total > 0 by { DerivedTotalFits(cfg); }
    if total > MAX_TOTAL_TIMEOUT then MAX_TOTAL_TIMEOUT else total
  }

  /** The derived budget never wraps around. */
  lemma DerivedTotalFits(cfg: Config)
    ensures 0 < DerivedTotal(cfg) < 0x8000_0000_0000_0000
  {
    RoundsWithin(Attempts(cfg), Interval(cfg));
  }

  lemma {:induction false} RoundsWithin(a: nat, interval: nat)
    requires 0 < interval <= MAX_INTERVAL
    ensures 0 < Rounds(a, interval, REQUEST_TIMEOUT) <= a * (MAX_INTERVAL + REQUEST_TIMEOUT) + MAX_INTERVAL
    decreases a
  {
    if a > 0 { RoundsWithin(a - 1, interval); }
  }

  /** The interval as it is configured, within a minute; a second by default. */
  lemma ConfiguredInterval(cfg: Config)
    ensures 1 <= cfg.intervalSeconds <= 60 ==> Interval(cfg) == cfg.intervalSeconds * 1_000_000_000
    ensures 60 < cfg.intervalSeconds <= 9_223_372_036 ==> Interval(cfg) == 60_000_000_000
    ensures -9_223_372_036 <= cfg.intervalSeconds <= 0 ==> Interval(cfg) == 1_000_000_000
  {}

  /** The attempts as they are configured, up to 120; ten by default. */
  lemma ConfiguredAttempts(cfg: Config)
    ensures 1 <= cfg.maxAttempts <= 120 ==> Attempts(cfg) == cfg.maxAttempts
    ensures cfg.maxAttempts > 120 ==> Attempts(cfg) == 120
    ensures cfg.maxAttempts <= 0 ==> Attempts(cfg) == 10
  {}

  /** The timeout as it is configured, within half an hour; else the time of all attempts and requests. */
  lemma ConfiguredTotal(cfg: Config)
    ensures 1 <= cfg.timeoutSeconds <= 1800 ==> Total(cfg) == cfg.timeoutSeconds * 1_000_000_000
    ensures 1800 < cfg.timeoutSeconds <= 9_223_372_036 ==> Total(cfg) == 1_800_000_000_000
    ensures -9_223_372_036 <= cfg.timeoutSeconds <= 0 ==>
              var budget := Attempts(cfg) * (Interval(cfg) + 30_000_000_000) + Interval(cfg);
              Total(cfg) == if budget > 1_800_000_000_000 then 1_800_000_000_000 else budget
  {
    DerivedTotalFits(cfg);
    RoundsMultiply(Attempts(cfg), Interval(cfg), REQUEST_TIMEOUT);
  }

  /** A status counts as listed in any case; one that is listed both ways counts as a success. */
  lemma StatusClassified(fold: string -> string, success: seq<string>, failure: seq<string>, status: string)
    ensures ClassifyStatus(fold, success, failure, status) == Succeeded
            <==> exists s | s in success :: fold(s) == fold(status)
    ensures ClassifyStatus(fold, success, failure, status) == FailedTerminally
            <==> (exists s | s in failure :: fold(s) == fold(status))
                 && forall s | s in success :: fold(s) != fold(status)
  {
    assert forall i | 0 <= i < |success| :: success[i] in success;
    assert forall i | 0 <= i < |failure| :: failure[i] in failure;
  }

  // ----- the loop -----

  /** What one poll answers and how long it takes. */
  datatype Answer = Answer(reply: Reply, duration: nat)

  datatype Reply = PollError | Reports(status: string)

  /**
   * The surroundings of one call: the answer of each poll, and the instant the reconcile context is
   * cancelled, if it is. Time counts nanoseconds from the call.
   */
  datatype World = World(answer: nat -> Answer, cancelledAt: Option<nat>, fold: string -> string,
                         success: seq<string>, failure: seq<string>)
  {
    function Outcome(n: nat): Option<Outcome> {
      match answer(n).reply
      case PollError => None
      case Reports(s) => Some(ClassifyStatus(fold, success, failure, s))
    }

    /** The context is done: its own deadline has passed, or the reconcile was cancelled. */
    predicate Done(now: nat, total: int) {
      now >= total || (cancelledAt.Some? && now >= cancelledAt.value)
    }

    /** When poll n starts, every earlier poll having answered "still pending". */
    function StartOf(n: nat, interval: nat): nat {
      if n == 0 then 0 else StartOf(n - 1, interval) + answer(n - 1).duration + interval
    }

    /** Poll n is issued: every earlier status was pending and the context is not done when it starts. */
    ghost predicate Reaches(n: nat, interval: nat, total: int) {
      (forall k | 0 <= k < n :: Outcome(k) == Some(StillPending)) && !Done(StartOf(n, interval), total)
    }

    lemma LaterStart(m: nat, n: nat, interval: nat)
      requires m <= n
      ensures StartOf(m, interval) <= StartOf(n, interval)
      decreases n
    {
      if m < n { LaterStart(m, n - 1, interval); }
    }

    /** Nothing is issued after poll n when n starts too late or was not pending. */
    lemma NothingLater(n: nat, interval: nat, total: int)
      requires Done(StartOf(n, interval), total) || (n > 0 && Outcome(n - 1) != Some(StillPending))
      ensures forall m: nat | n <= m :: !Reaches(m, interval, total)
    {
      forall m: nat | n <= m ensures !Reaches(m, interval, total) { LaterStart(n, m, interval); }
    }
  }

  datatype Verdict = Success | Cancelled | PollFailed | OperationFailed | Exhausted

  /** Some poll within the plan is issued and gives outcome `o`. */
  ghost predicate Observes(cfg: Config, w: World, o: Option<Outcome>) {
    exists n: nat | n < Attempts(cfg) :: w.Reaches(n, Interval(cfg), Total(cfg)) && w.Outcome(n) == o
  }

  /** Success exactly when a success status is observed before any failure, poll error or cancellation. */
  method PollUntilTerminal(cfg: Config, w: World) returns (v: Verdict)
    ensures v == Success <==> Observes(cfg, w, Some(Succeeded))
    ensures v == OperationFailed <==> Observes(cfg, w, Some(FailedTerminally))
    ensures v == PollFailed <==> Observes(cfg, w, None)
    ensures v == Cancelled ==> exists n: nat | n < Attempts(cfg) :: w.Done(w.StartOf(n, Interval(cfg)), Total(cfg))
  {
    var interval, maxAttempts, total := Interval(cfg), Attempts(cfg), Total(cfg);
    var now: nat := 0;
    for attempt := 0 to maxAttempts
      invariant now == w.StartOf(attempt, interval)
      invariant forall k | 0 <= k < attempt :: w.Outcome(k) == Some(StillPending)
    {
      if w.Done(now, total) {
        w.NothingLater(attempt, interval, total);
        return Cancelled;
      }
      assert w.Reaches(attempt, interval, total);
      var answer := w.answer(attempt);
      if answer.reply.PollError? {
        w.NothingLater(attempt + 1, interval, total);
        return PollFailed;
      }
      var outcome := ClassifyStatus(w.fold, w.success, w.failure, answer.reply.status);
      if !outcome.StillPending? {
        w.NothingLater(attempt + 1, interval, total);
        return if outcome.Succeeded? then Success else OperationFailed;
      }
      now := now + answer.duration;
      if attempt < maxAttempts - 1 {
        // Waiting: the context may end first.
        if w.Done(now + interval, total) {
          w.NothingLater(attempt + 1, interval, total);
          return Cancelled;
        }
      }
      now := now + interval;
    }
    v := Exhausted;
  }

  /** Polls bounded by `bound` start no later than the plan allows. */
  lemma {:induction false} StartBound(w: World, n: nat, interval: nat, bound: nat)
    requires forall k: nat :: w.answer(k).duration <= bound
    ensures w.StartOf(n, interval) + interval <= Rounds(n, interval, bound)
    decreases n
  {
    if n > 0 { StartBound(w, n - 1, interval, bound); }
  }

  /** They end within the time of all the rounds. */
  lemma PollsInTime(w: World, n: nat, a: nat, interval: nat, bound: nat)
    requires n < a && interval > 0 && forall k: nat :: w.answer(k).duration <= bound
    ensures w.StartOf(n, interval) + w.answer(n).duration < Rounds(a, interval, bound)
  {
    StartBound(w, n, interval, bound);
    MoreRounds(n + 1, a, interval, bound);
  }

  /** With no timeout set and the derived budget under the cap, bounded polls never meet the deadline. */
  lemma DerivedBudgetSuffices(cfg: Config, w: World, n: nat)
    requires NoTimeout(cfg) && DerivedTotal(cfg) <= MAX_TOTAL_TIMEOUT
    requires forall k: nat :: w.answer(k).duration <= REQUEST_TIMEOUT
    requires w.cancelledAt.None? && n < Attempts(cfg)
    ensures !w.Done(w.StartOf(n, Interval(cfg)) + w.answer(n).duration, Total(cfg))
  {
    PollsInTime(w, n, Attempts(cfg), Interval(cfg), REQUEST_TIMEOUT);
  }

  /**
   * With no timeout set, polls bounded by the request timeout, and no cancellation: the first status that is not
   * pending, if it comes within the attempts, is the one observed.
   */
  lemma FirstVerdictIsSeen(cfg: Config, w: World, n: nat)
    requires NoTimeout(cfg) && DerivedTotal(cfg) <= MAX_TOTAL_TIMEOUT && w.cancelledAt.None?
    requires forall k: nat :: w.answer(k).duration <= 30_000_000_000
    requires n < Attempts(cfg) && w.answer(n).reply.Reports?
    requires forall k | 0 <= k < n :: w.answer(k).reply.Reports? && !Listed(w, w.answer(k).reply.status)
    ensures var status := w.answer(n).reply.status;
            && ((exists s | s in w.success :: w.fold(s) == w.fold(status)) ==> Observes(cfg, w, Some(Succeeded)))
            && ((exists s | s in w.failure :: w.fold(s) == w.fold(status))
                && (forall s | s in w.success :: w.fold(s) != w.fold(status)) ==>
                  Observes(cfg, w, Some(FailedTerminally)))
  {
    forall k | 0 <= k < n ensures w.Outcome(k) == Some(StillPending) {
      StatusClassified(w.fold, w.success, w.failure, w.answer(k).reply.status);
    }
    StatusClassified(w.fold, w.success, w.failure, w.answer(n).reply.status);
    DerivedBudgetSuffices(cfg, w, n);
    assert w.Reaches(n, Interval(cfg), Total(cfg));
  }

  /** The status is a success or a failure value, in any case. */
  predicate Listed(w: World, status: string) {
    exists s | s in w.success + w.failure :: w.fold(s) == w.fold(status)
  }

  /** If no attempt finds a listed status there is no success and no failure, however long it takes. */
  lemma NoVerdict(cfg: Config, w: World)
    requires forall k: nat | k < Attempts(cfg) ::
               w.answer(k).reply.Reports? ==> !Listed(w, w.answer(k).reply.status)
    ensures !Observes(cfg, w, Some(Succeeded)) && !Observes(cfg, w, Some(FailedTerminally))
  {
    forall k: nat | k < Attempts(cfg) ensures w.Outcome(k) == None || w.Outcome(k) == Some(StillPending) {
      if w.answer(k).reply.Reports? {
        StatusClassified(w.fold, w.success, w.failure, w.answer(k).reply.status);
      }
    }
  }
}
