/** What the limiter allows over every history of requests. */
module RateLimitRuns {
  import opened SharedTypes
  import opened RateLimit

  datatype Request = Request(role: Role, now: nat)

  function Counters(config: Config, history: seq<Request>): RateLimit.Counters {
    if history == [] then map[]
    else
      var last := history[|history| - 1];
      AfterConsume(config, Counters(config, history[..|history| - 1]), last.role, last.now)
  }

  /** The decision on the last request of a non-empty history. */
  function LastDecision(config: Config, history: seq<Request>): Decision
    requires history != []
  {
    var last := history[|history| - 1];
    DecisionAt(config, Counters(config, history[..|history| - 1]), last.role, last.now)
  }

  function WindowMs(config: Config, role: Role): int {
    config(role).windowSec * 1000
  }

  /** The aligned window of a request time. */
  function Window(config: Config, role: Role, now: nat): nat {
    WindowIndex(config(role).windowSec, now / 1000)
  }

  lemma WindowBounds(config: Config, role: Role, now: nat)
    ensures Window(config, role, now) * WindowMs(config, role) <= now
    ensures now < (Window(config, role, now) + 1) * WindowMs(config, role)
  {
    var w, s := config(role).windowSec, now / 1000;
    assert s / w * w <= s < (s / w + 1) * w;
    Thousandfold(s / w, w);
    Thousandfold(s / w + 1, w);
  }

  lemma Thousandfold(a: int, w: int)
    ensures a * (w * 1000) == a * w * 1000
  {
  }

  lemma InWindow(config: Config, role: Role, now: nat, w: nat)
    requires w * WindowMs(config, role) <= now < (w + 1) * WindowMs(config, role)
    ensures Window(config, role, now) == w
  {
    WindowBounds(config, role, now);
    var v, ms := Window(config, role, now), WindowMs(config, role);
    SameMultiple(v, w, ms, now);
  }

  lemma MultiplesAreOrdered(a: int, b: int, ms: int)
    requires a <= b && ms > 0
    ensures a * ms <= b * ms
  {
  }

  lemma SameMultiple(v: int, w: int, ms: int, now: int)
    requires ms > 0 && v * ms <= now < (v + 1) * ms && w * ms <= now < (w + 1) * ms
    ensures v == w
  {
    if v < w {
      MultiplesAreOrdered(v + 1, w, ms);
    } else if w < v {
      MultiplesAreOrdered(w + 1, v, ms);
    }
  }

  /** The request is one of the role's in that window. */
  predicate Matches(config: Config, r: Request, role: Role, w: nat) {
    r.role == role && Window(config, role, r.now) == w
  }

  function RequestsIn(config: Config, history: seq<Request>, role: Role, w: nat): nat {
    if history == [] then 0
    else
      RequestsIn(config, history[..|history| - 1], role, w)
      + if Matches(config, history[|history| - 1], role, w) then 1 else 0
  }

  function AllowedIn(config: Config, history: seq<Request>, role: Role, w: nat): nat {
    if history == [] then 0
    else
      AllowedIn(config, history[..|history| - 1], role, w)
      + if Matches(config, history[|history| - 1], role, w) && LastDecision(config, history).allowed then 1 else 0
  }

  function KeyOf(role: Role, w: nat): string {
    "ratelimit:" + RoleName(role) + ":" + Decimal(w)
  }

  /** Keys tell roles and windows apart. */
  lemma KeysAreDistinct(r1: Role, w1: nat, r2: Role, w2: nat)
    requires KeyOf(r1, w1) == KeyOf(r2, w2)
    ensures r1 == r2 && w1 == w2
  {
    var a, b := KeyOf(r1, w1), KeyOf(r2, w2);
    assert a[10] == RoleName(r1)[0] && b[10] == RoleName(r2)[0];
    assert r1 == r2;
    var n := |"ratelimit:" + RoleName(r1) + ":"|;
    assert Decimal(w1) == a[n..] && Decimal(w2) == b[n..];
    DecimalReadsBack(w1);
    DecimalReadsBack(w2);
  }

  /** When the role made its first request of the window. */
  function FirstAt(config: Config, history: seq<Request>, role: Role, w: nat): nat
    requires RequestsIn(config, history, role, w) > 0
  {
    var front := history[..|history| - 1];
    if RequestsIn(config, front, role, w) > 0 then FirstAt(config, front, role, w) else history[|history| - 1].now
  }

  lemma {:induction false} FirstIsInWindow(config: Config, history: seq<Request>, role: Role, w: nat)
    requires RequestsIn(config, history, role, w) > 0
    ensures Window(config, role, FirstAt(config, history, role, w)) == w
  {
    hide Window;
    var front := history[..|history| - 1];
    if RequestsIn(config, front, role, w) > 0 {
      FirstIsInWindow(config, front, role, w);
    }
  }

  /** The counter of a window has counted its requests and lives one window length from the first of them. */
  ghost predicate Counted(config: Config, history: seq<Request>, role: Role, w: nat) {
    var counters, n := Counters(config, history), RequestsIn(config, history, role, w);
    if n == 0 then KeyOf(role, w) !in counters
    else
      && KeyOf(role, w) in counters
      && counters[KeyOf(role, w)].count == n
      && counters[KeyOf(role, w)].expiresAt == FirstAt(config, history, role, w) + WindowMs(config, role)
  }

  /** One script evaluation keeps the counter of a window exact. */
  lemma CountStep(config: Config, front: seq<Request>, last: Request, role: Role, w: nat)
    requires Counted(config, front, role, w)
    ensures Counted(config, front + [last], role, w)
  {
    CountFacts(config, front, last, role, w);
    hide KeyOf, KeyAt, RequestsIn, Counters, FirstAt, Window;
    var v, ms := Window(config, last.role, last.now), WindowMs(config, role);
    if Matches(config, last, role, w) {
      WindowBounds(config, role, last.now);
      Successor(w, ms);
      if RequestsIn(config, front, role, w) > 0 {
        FirstIsInWindow(config, front, role, w);
        WindowBounds(config, role, FirstAt(config, front, role, w));
      }
    } else if KeyOf(role, w) == KeyOf(last.role, v) {
      KeysAreDistinct(role, w, last.role, v);
    }
  }

  /** What one more request changes. */
  lemma CountFacts(config: Config, front: seq<Request>, last: Request, role: Role, w: nat)
    ensures var history, key := front + [last], KeyOf(last.role, Window(config, last.role, last.now));
            && Counters(config, history)
               == AfterScript(Counters(config, front), key, config(last.role).windowSec * 1000, last.now)
            && RequestsIn(config, history, role, w)
               == RequestsIn(config, front, role, w) + (if Matches(config, last, role, w) then 1 else 0)
            && (RequestsIn(config, front, role, w) > 0 ==>
                 FirstAt(config, history, role, w) == FirstAt(config, front, role, w))
            && (RequestsIn(config, front, role, w) == 0 && RequestsIn(config, history, role, w) > 0 ==>
                 FirstAt(config, history, role, w) == last.now)
  {
    hide AfterScript;
    assert (front + [last])[..|front|] == front;
  }

  lemma Successor(w: int, ms: int)
    ensures (w + 1) * ms == w * ms + ms
  {
  }

  lemma {:induction false} CounterIsExact(config: Config, history: seq<Request>, role: Role, w: nat)
    ensures Counted(config, history, role, w)
  {
    if history != [] {
      var front, last := history[..|history| - 1], history[|history| - 1];
      CounterIsExact(config, front, role, w);
      CountStep(config, front, last, role, w);
      assert front + [last] == history;
    }
  }

  /** The decision on a request depends only on how many requests its role has made in its window: allowed up to the
      limit, and told how many are left. */
  lemma DecisionByCount(config: Config, history: seq<Request>)
    requires history != []
    ensures var last, d := history[|history| - 1], LastDecision(config, history);
            var n := RequestsIn(config, history, last.role, Window(config, last.role, last.now));
            var limit := config(last.role).limit;
            && (d.allowed <==> n <= limit)
            && d.limit == limit
            && d.remaining == (if n <= limit then limit - n else 0)
            && (d.allowed ==> d.retryAfterSec == 0)
  {
    var last := history[|history| - 1];
    var w := Window(config, last.role, last.now);
    var counter := DecisionReadsTheCounter(config, history);
    LastIsCounted(config, history);
    CounterIsExact(config, history, last.role, w);
    assert KeyAt(config, last.role, last.now) == KeyOf(last.role, w);
    hide KeyAt, Counters, FirstAt, Window, WindowMs, KeyOf, RequestsIn, LastDecision, Ceil1000;
  }

  /** Windows are aligned: window w of a role is the w-th stretch of its length since the epoch. */
  lemma WindowsAreAligned(config: Config, role: Role, now: nat, w: nat)
    ensures Window(config, role, now) == w <==>
      w * config(role).windowSec <= now / 1000 < (w + 1) * config(role).windowSec
  {
    var s, n := now / 1000, config(role).windowSec;
    assert s / n * n <= s < (s / n + 1) * n;
    if w * n <= s < (w + 1) * n {
      SameMultiple(s / n, w, n, s);
    }
  }

  /** In every aligned window a role is allowed exactly its first `limit` requests. */
  lemma {:induction false} AllowedPerWindow(config: Config, history: seq<Request>, role: Role, w: nat)
    ensures var n := RequestsIn(config, history, role, w);
            AllowedIn(config, history, role, w) == if n <= config(role).limit then n else config(role).limit
  {
    if history != [] {
      AllowedPerWindow(config, history[..|history| - 1], role, w);
      DecisionByCount(config, history);
    }
  }

  /** Allowed requests of a role in the half-open interval [from, from + window length). */
  function AllowedBetween(config: Config, history: seq<Request>, role: Role, from: nat): nat {
    if history == [] then 0
    else
      var last := history[|history| - 1];
      AllowedBetween(config, history[..|history| - 1], role, from)
      + if last.role == role && from <= last.now < from + WindowMs(config, role)
        && LastDecision(config, history).allowed
        then 1 else 0
  }

  lemma {:induction false} IntervalMeetsTwoWindows(config: Config, history: seq<Request>, role: Role, from: nat)
    ensures var w := Window(config, role, from);
            AllowedBetween(config, history, role, from)
              <= AllowedIn(config, history, role, w) + AllowedIn(config, history, role, w + 1)
  {
    if history != [] {
      var last := history[|history| - 1];
      var w, ms := Window(config, role, from), WindowMs(config, role);
      IntervalMeetsTwoWindows(config, history[..|history| - 1], role, from);
      if last.role == role && from <= last.now < from + ms {
        WindowBounds(config, role, from);
        assert (w + 1) * ms == w * ms + ms && (w + 1 + 1) * ms == (w + 1) * ms + ms;
        if last.now < (w + 1) * ms {
          InWindow(config, role, last.now, w);
        } else {
          InWindow(config, role, last.now, w + 1);
        }
      }
    }
  }

  /** In any interval of one window length a role is allowed at most twice its limit. */
  lemma BurstIsBounded(config: Config, history: seq<Request>, role: Role, from: nat)
    ensures AllowedBetween(config, history, role, from) <= 2 * config(role).limit
  {
    var w := Window(config, role, from);
    IntervalMeetsTwoWindows(config, history, role, from);
    AllowedPerWindow(config, history, role, w);
    AllowedPerWindow(config, history, role, w + 1);
  }

  lemma RoundedUp(ms: int)
    requires ms > 0
    ensures Ceil1000(ms) * 1000 >= ms && Ceil1000(ms) >= 1
  {
  }

  /** A denied client that waits out its Retry-After lands in a later window. */
  lemma WaitingReachesALaterWindow(config: Config, history: seq<Request>)
    requires history != [] && !LastDecision(config, history).allowed
    ensures var last := history[|history| - 1];
            var d := LastDecision(config, history);
            && d.retryAfterSec >= 1
            && Window(config, last.role, last.now + d.retryAfterSec * 1000) > Window(config, last.role, last.now)
  {
    var last := history[|history| - 1];
    var d := LastDecision(config, history);
    var w, ms := Window(config, last.role, last.now), WindowMs(config, last.role);
    var later := last.now + d.retryAfterSec * 1000;
    CounterIsExact(config, history, last.role, w);
    WindowBounds(config, last.role, last.now);
    WindowBounds(config, last.role, later);
    FirstIsInWindow(config, history, last.role, w);
    WindowBounds(config, last.role, FirstAt(config, history, last.role, w));
    Successor(w, ms);
    var ttl := Counters(config, history)[KeyOf(last.role, w)].expiresAt - last.now;
    assert KeyAt(config, last.role, last.now) == KeyOf(last.role, w);
    RoundedUp(ttl);
    assert later >= (w + 1) * ms;
    LaterMultiple(Window(config, last.role, later), w, ms, later);
  }

  lemma LaterMultiple(v: int, w: int, ms: int, later: int)
    requires ms > 0 && later < (v + 1) * ms && later >= (w + 1) * ms
    ensures v > w
  {
    if v <= w {
      MultiplesAreOrdered(v + 1, w + 1, ms);
    }
  }

  // ----- Retry-After and the time to the reset -----

  /** When an aligned window starts. */
  function StartOf(config: Config, role: Role, w: nat): int {
    w * WindowMs(config, role)
  }

  lemma StartBounds(config: Config, role: Role, now: nat)
    ensures var start := StartOf(config, role, Window(config, role, now));
            start <= now < start + WindowMs(config, role)
  {
    WindowBounds(config, role, now);
    Successor(Window(config, role, now), WindowMs(config, role));
  }

  /** Milliseconds until the aligned window of the last request ends. */
  function TimeToReset(config: Config, last: Request): int {
    StartOf(config, last.role, Window(config, last.role, last.now)) + WindowMs(config, last.role) - last.now
  }

  /** How far into its window the role made the first request of the window. */
  function Lateness(config: Config, history: seq<Request>, role: Role, w: nat): int
    requires RequestsIn(config, history, role, w) > 0
  {
    FirstAt(config, history, role, w) - StartOf(config, role, w)
  }

  lemma CeilingIff(ms: nat, extra: nat)
    ensures Ceil1000(ms + extra) == Ceil1000(ms) <==> extra <= Ceil1000(ms) * 1000 - ms || (ms == 0 && extra == 0)
  {
  }

  lemma LastIsCounted(config: Config, history: seq<Request>)
    requires history != []
    ensures var last := history[|history| - 1];
            RequestsIn(config, history, last.role, Window(config, last.role, last.now)) > 0
  {
  }

  /** The counter of the last request's window outlives the window by as much as its first request was late. */
  ghost predicate Outlives(config: Config, history: seq<Request>, last: Request, w: nat, late: int) {
    && RequestsIn(config, history, last.role, w) > 0 && late == Lateness(config, history, last.role, w)
    && late >= 0 && TimeToReset(config, last) > 0
    && KeyOf(last.role, w) in Counters(config, history)
    && Counters(config, history)[KeyOf(last.role, w)].expiresAt == last.now + TimeToReset(config, last) + late
  }

  lemma LifetimeIsShifted(config: Config, history: seq<Request>) returns (late: int)
    requires history != []
    ensures var last := history[|history| - 1];
            Outlives(config, history, last, Window(config, last.role, last.now), late)
  {
    var last := history[|history| - 1];
    var w := Window(config, last.role, last.now);
    LastIsCounted(config, history);
    late := Lateness(config, history, last.role, w);
    CounterIsExact(config, history, last.role, w);
    FirstIsInWindow(config, history, last.role, w);
    StartBounds(config, last.role, last.now);
    StartBounds(config, last.role, FirstAt(config, history, last.role, w));
    hide RequestsIn, Counters, FirstAt, Window, KeyOf, WindowMs, StartOf;
  }

  lemma DecisionReadsTheCounter(config: Config, history: seq<Request>) returns (counter: Counter)
    requires history != []
    ensures var last := history[|history| - 1];
            && KeyAt(config, last.role, last.now) in Counters(config, history)
            && counter == Counters(config, history)[KeyAt(config, last.role, last.now)]
            && LastDecision(config, history)
               == DecideRateLimit(counter.count, config(last.role), counter.expiresAt - last.now)
  {
    hide KeyAt, DecideRateLimit;
    var last := history[|history| - 1];
    counter := Counters(config, history)[KeyAt(config, last.role, last.now)];
  }

  lemma DenialTellsTtl(count: nat, rule: RateLimitRule, ttl: int)
    ensures !DecideRateLimit(count, rule, ttl).allowed && ttl > 0 ==>
      DecideRateLimit(count, rule, ttl).retryAfterSec == Ceil1000(ttl)
    ensures !DecideRateLimit(count, rule, ttl).allowed && ttl <= 0 ==>
      DecideRateLimit(count, rule, ttl).retryAfterSec == rule.windowSec
  {
    if ttl > 0 {
      RoundedUp(ttl);
    }
    hide Ceil1000;
  }

  /** A denied request is told the rest of its counter's lifetime: the time to the reset, later by as much as the
      window's first request was. So Retry-After is the time to the reset, in whole seconds, exactly when that
      lateness fits into the rounding. */
  lemma RetryAfterIsTimeToResetIff(config: Config, history: seq<Request>) returns (late: int)
    requires history != [] && !LastDecision(config, history).allowed
    ensures var last := history[|history| - 1];
            var retryAfter, reset := LastDecision(config, history).retryAfterSec, TimeToReset(config, last);
            && Outlives(config, history, last, Window(config, last.role, last.now), late)
            && retryAfter == Ceil1000(reset + late)
            && (retryAfter == Ceil1000(reset) <==> late <= Ceil1000(reset) * 1000 - reset)
  {
    late := LifetimeIsShifted(config, history);
    var last := history[|history| - 1];
    var counter := DecisionReadsTheCounter(config, history);
    DenialTellsTtl(counter.count, config(last.role), counter.expiresAt - last.now);
    assert KeyAt(config, last.role, last.now) == KeyOf(last.role, Window(config, last.role, last.now));
    hide KeyAt, Counters, FirstAt, Window, KeyOf, WindowMs, StartOf, TimeToReset, LastDecision, Lateness, RequestsIn,
      DecideRateLimit;
    CeilingIff(TimeToReset(config, last), late);
  }

  /** One request a minute: the first half a minute late, the second a second later. The window ends in 29 seconds;
      the client is told 59. */
  lemma LateFirstRequest(config: Config)
    requires config(Viewer) == RateLimitRule(1, 60)
    ensures var history := [Request(Viewer, 30_000), Request(Viewer, 31_000)];
            && !LastDecision(config, history).allowed && TimeToReset(config, history[1]) == 29_000
            && LastDecision(config, history).retryAfterSec == 59
  {
    var first, history := [Request(Viewer, 30_000)], [Request(Viewer, 30_000), Request(Viewer, 31_000)];
    assert history[..1] == first && first[..0] == [];
    assert RequestsIn(config, first, Viewer, 0) == 1 && RequestsIn(config, history, Viewer, 0) == 2;
    assert FirstAt(config, first, Viewer, 0) == 30_000;
    DecisionByCount(config, history);
    var late := RetryAfterIsTimeToResetIff(config, history);
  }
}
