/** What a dispatch does for every behaviour of the transports. */
module DispatchRuns {
  import opened SharedTypes
  import opened DispatchLogic
  import opened Dispatch

  // ----- one delivery -----

  /** k failed sends, each followed by its pause. */
  function FailedSends(policy: RetryPolicy, transport: ChannelType, channel: Channel, k: nat): Log {
    if k == 0 then []
    else
      FailedSends(policy, transport, channel, k - 1)
      + [Sent(transport, channel, false), Waited(BackoffDelayMs(k - 1, policy))]
  }

  /** The transport's answer to the send that follows k failed ones. */
  function Answer(setup: Setup, transport: ChannelType, channel: Channel, log: Log, k: nat): Outcome<string> {
    setup.oracle(log + FailedSends(setup.policy, transport, channel, k), transport, channel)
  }

  /** A delivery ends at the first send that succeeds, or with the last attempt the policy allows. */
  ghost predicate DeliveredExactly(setup: Setup, transport: ChannelType, channel: Channel, log: Log, after: Log,
      d: Delivery)
  {
    && 1 <= d.attempts <= setup.policy.maxAttempts
    && (forall j :: 0 <= j < d.attempts - 1 ==> Answer(setup, transport, channel, log, j).Fail?)
    && after == log + FailedSends(setup.policy, transport, channel, d.attempts - 1)
       + [Sent(transport, channel, d.delivered)]
    && (d.delivered <==> Answer(setup, transport, channel, log, d.attempts - 1).Pass?)
    && (d.delivered ==> d.error == None)
    && (!d.delivered ==>
      && d.attempts == setup.policy.maxAttempts
      && d.error == Some(Answer(setup, transport, channel, log, d.attempts - 1).error))
  }

  lemma {:induction false} DeliverFromIsExact(setup: Setup, transport: ChannelType, channel: Channel, via: bool,
      log: Log, i: nat, lastError: string)
    requires i < setup.policy.maxAttempts
    requires forall j :: 0 <= j < i ==> Answer(setup, transport, channel, log, j).Fail?
    ensures var (after, d) :=
      DeliverFrom(setup, transport, channel, via, log + FailedSends(setup.policy, transport, channel, i), i, lastError);
            DeliveredExactly(setup, transport, channel, log, after, d)
    decreases setup.policy.maxAttempts - i
  {
    var now := log + FailedSends(setup.policy, transport, channel, i);
    var answer := setup.oracle(now, transport, channel);
    assert answer == Answer(setup, transport, channel, log, i);
    if answer.Fail? {
      var failed := now + [Sent(transport, channel, false)];
      if i < setup.policy.maxAttempts - 1 {
        var waited := failed + [Waited(BackoffDelayMs(i, setup.policy))];
        assert waited == log + FailedSends(setup.policy, transport, channel, i + 1);
        DeliverFromIsExact(setup, transport, channel, via, log, i + 1, answer.error);
      } else {
        assert failed + [] == failed;
      }
    }
  }

  lemma DeliveryIsExact(setup: Setup, transport: ChannelType, channel: Channel, via: bool, log: Log)
    requires setup.policy.maxAttempts >= 1
    ensures var (after, d) := DeliveryOf(setup, transport, channel, via, log);
            DeliveredExactly(setup, transport, channel, log, after, d)
  {
    assert log + FailedSends(setup.policy, transport, channel, 0) == log;
    DeliverFromIsExact(setup, transport, channel, via, log, 0, "unknown error");
  }

  function Pauses(log: Log): seq<real> {
    if log == [] then []
    else
      Pauses(log[..|log| - 1]) + match log[|log| - 1] case Waited(ms) => [ms] case _ => []
  }

  function Sum(s: seq<real>): real {
    if s == [] then 0.0 else Sum(s[..|s| - 1]) + s[|s| - 1]
  }

  lemma PausesSnoc(log: Log, e: Event)
    ensures Pauses(log + [e]) == Pauses(log) + match e case Waited(ms) => [ms] case _ => []
  {
    assert (log + [e])[..|log|] == log;
  }

  lemma {:induction false} PausesOfFailedSends(policy: RetryPolicy, transport: ChannelType, channel: Channel, k: nat)
    ensures Pauses(FailedSends(policy, transport, channel, k)) == seq(k, (j: nat) => BackoffDelayMs(j, policy))
  {
    if k > 0 {
      PausesOfFailedSends(policy, transport, channel, k - 1);
      var before := FailedSends(policy, transport, channel, k - 1);
      var sent, pause := Sent(transport, channel, false), Waited(BackoffDelayMs(k - 1, policy));
      assert FailedSends(policy, transport, channel, k) == before + [sent] + [pause];
      PausesSnoc(before, sent);
      PausesSnoc(before + [sent], pause);
      hide Pauses, FailedSends, BackoffDelayMs;
      assert Pauses(before) + [] == Pauses(before);
    }
  }

  lemma {:induction false} SumIsBounded(s: seq<real>, m: real)
    requires forall i :: 0 <= i < |s| ==> s[i] <= m
    ensures Sum(s) <= |s| as real * m
  {
    if s != [] {
      SumIsBounded(s[..|s| - 1], m);
      hide Sum;
      Distribute(|s| - 1, m);
    }
  }

  lemma Distribute(k: nat, m: real)
    ensures (k + 1) as real * m == k as real * m + m
  {
  }

  lemma MoreIsMore(a: nat, b: nat, m: real)
    requires a <= b && m >= 0.0
    ensures a as real * m <= b as real * m
  {
  }

  /** Pauses that never get shorter, with the longest possible total. */
  ghost predicate Gentle(policy: RetryPolicy, p: seq<real>) {
    && (forall i, j :: 0 <= i < j < |p| ==> 0.0 <= p[i] <= p[j] <= policy.maxDelayMs)
    && Sum(p) <= (policy.maxAttempts - 1) as real * policy.maxDelayMs
  }

  lemma BackoffIsGentle(policy: RetryPolicy, k: nat)
    requires Sane(policy) && k <= policy.maxAttempts - 1
    ensures Gentle(policy, seq(k, (j: nat) => BackoffDelayMs(j, policy)))
  {
    hide BackoffDelayMs, Sum;
    var p := seq(k, (j: nat) => BackoffDelayMs(j, policy));
    PausesAreOrdered(policy, k);
    SumIsBounded(p, policy.maxDelayMs);
    MoreIsMore(k, policy.maxAttempts - 1, policy.maxDelayMs);
  }

  /** Within one delivery the pauses never get shorter and add up to at most (maxAttempts - 1) times the cap. */
  lemma PausesAreBounded(setup: Setup, transport: ChannelType, channel: Channel, via: bool, log: Log)
    requires Sane(setup.policy)
    ensures var (after, d) := DeliveryOf(setup, transport, channel, via, log);
            && |log| <= |after| && after[..|log|] == log
            && |Pauses(after[|log|..])| == d.attempts - 1
            && Gentle(setup.policy, Pauses(after[|log|..]))
  {
    var policy := setup.policy;
    var (after, d) := DeliveryOf(setup, transport, channel, via, log);
    DeliveryIsExact(setup, transport, channel, via, log);
    assert after
      == log + FailedSends(policy, transport, channel, d.attempts - 1) + [Sent(transport, channel, d.delivered)]
        && 1 <= d.attempts <= policy.maxAttempts && Sane(policy);
    hide *;
    var k := d.attempts - 1;
    var failed, last := FailedSends(policy, transport, channel, k), Sent(transport, channel, d.delivered);
    assert after[|log|..] == failed + [last];
    PausesSnoc(failed, last);
    PausesOfFailedSends(policy, transport, channel, k);
    BackoffIsGentle(policy, k);
    var p := seq(k, (j: nat) => BackoffDelayMs(j, policy));
    assert Pauses(failed + [last]) == p + [] == p;
  }

  lemma PausesAreOrdered(policy: RetryPolicy, k: nat)
    requires Sane(policy)
    ensures forall i: nat, j: nat :: i <= j < k ==>
      0.0 <= BackoffDelayMs(i, policy) <= BackoffDelayMs(j, policy) <= policy.maxDelayMs
  {
    hide BackoffDelayMs;
    forall i: nat, j: nat | i <= j < k
      ensures 0.0 <= BackoffDelayMs(i, policy) <= BackoffDelayMs(j, policy) <= policy.maxDelayMs
    {
      BackoffIsMonotone(i, j, policy);
      BackoffGrows(i, policy);
      BackoffGrows(j, policy);
    }
  }

  // ----- a whole dispatch -----

  predicate FailedInApp(d: Delivery) {
    d.channel == InApp && !d.delivered
  }

  predicate WantsFallback(d: Delivery) {
    d.channel != InApp && !d.delivered
  }

  function Wanting(results: seq<Delivery>): nat {
    if results == [] then 0
    else Wanting(results[..|results| - 1]) + if WantsFallback(results[|results| - 1]) then 1 else 0
  }

  predicate IsPrimary(setup: Setup, d: Delivery, target: Channel) {
    && d.channel == target.kind && d.target == target.target && !d.viaFallback
    && (if target.kind in setup.transports then 1 <= d.attempts <= setup.policy.maxAttempts
        else d.attempts == 0 && !d.delivered)
  }

  predicate IsFallback(setup: Setup, d: Delivery) {
    d.channel == InApp && d.target == None && d.viaFallback && 1 <= d.attempts <= setup.policy.maxAttempts
  }

  ghost predicate PrimaryShape(setup: Setup, targets: seq<Channel>, p: Progress) {
    && |p.results| == |targets|
    && (forall i :: 0 <= i < |targets| ==> IsPrimary(setup, p.results[i], targets[i]))
    && (p.inAppHealthy <==> forall i :: 0 <= i < |p.results| ==> !FailedInApp(p.results[i]))
  }

  lemma {:induction false} PrimaryResults(setup: Setup, log: Log, targets: seq<Channel>)
    requires setup.policy.maxAttempts >= 1
    ensures PrimaryShape(setup, targets, Primaries(setup, Progress(log, [], true), targets))
  {
    if targets != [] {
      var front, channel := targets[..|targets| - 1], targets[|targets| - 1];
      PrimaryResults(setup, log, front);
      var p := Primaries(setup, Progress(log, [], true), front);
      assert Primaries(setup, Progress(log, [], true), targets) == PrimaryStep(setup, p, channel);
      hide *;
      PrimaryStepAdds(setup, p, channel);
      PrimaryShapeGrows(setup, front, channel, p, PrimaryStep(setup, p, channel));
      assert front + [channel] == targets;
    }
  }

  lemma PrimaryShapeGrows(setup: Setup, front: seq<Channel>, channel: Channel, p: Progress, q: Progress)
    requires PrimaryShape(setup, front, p)
    requires |q.results| == |p.results| + 1 && q.results[..|p.results|] == p.results
    requires IsPrimary(setup, q.results[|p.results|], channel)
    requires q.inAppHealthy <==> p.inAppHealthy && !FailedInApp(q.results[|p.results|])
    ensures PrimaryShape(setup, front + [channel], q)
  {
    hide IsPrimary, FailedInApp;
    var n := |p.results|;
    assert forall i :: 0 <= i < n ==> q.results[i] == p.results[i];
  }

  lemma PrimaryStepAdds(setup: Setup, p: Progress, channel: Channel)
    requires setup.policy.maxAttempts >= 1
    ensures var q := PrimaryStep(setup, p, channel);
            && |q.results| == |p.results| + 1 && q.results[..|p.results|] == p.results
            && IsPrimary(setup, q.results[|p.results|], channel)
            && (q.inAppHealthy <==> p.inAppHealthy && !FailedInApp(q.results[|p.results|]))
  {
    DeliveryIsExact(setup, channel.kind, channel, false, p.log);
    hide DeliveryOf;
  }

  /** What the second phase adds to p: in-app deliveries until one fails, one for each failure that wants it. */
  ghost predicate FallbackShape(setup: Setup, p: Progress, q: Progress, wanting: nat) {
    var n := |p.results|;
    && |q.results| >= n && q.results[..n] == p.results
    && (forall i :: n <= i < |q.results| ==> IsFallback(setup, q.results[i]))
    && (forall i :: n <= i < |q.results| - 1 ==> q.results[i].delivered)
    && |q.results| - n <= wanting
    && (!p.inAppHealthy ==> !q.inAppHealthy && |q.results| == n)
    && (q.inAppHealthy ==> |q.results| == n + wanting && forall i :: n <= i < |q.results| ==> q.results[i].delivered)
    && (p.inAppHealthy && !q.inAppHealthy ==> |q.results| > n && !q.results[|q.results| - 1].delivered)
  }

  lemma {:induction false} FallbackResults(setup: Setup, p: Progress, failures: seq<Delivery>)
    requires setup.policy.maxAttempts >= 1
    requires forall d :: d in failures ==> !d.delivered
    ensures FallbackShape(setup, p, Fallbacks(setup, p, failures), Wanting(failures))
  {
    if failures != [] {
      var front, failed := failures[..|failures| - 1], failures[|failures| - 1];
      FallbackResults(setup, p, front);
      var q := Fallbacks(setup, p, front);
      assert Fallbacks(setup, p, failures) == FallbackStep(setup, q, failed);
      assert !failed.delivered;
      DeliveryIsExact(setup, InApp, IN_APP_CHANNEL, true, q.log);
      hide Fallbacks, DeliveryOf, DeliverFrom;
    }
  }

  lemma {:induction false} FailuresAreTheFailed(results: seq<Delivery>)
    requires forall d :: d in results ==> !d.viaFallback
    ensures forall d :: d in PrimaryFailures(results) ==> !d.delivered
    ensures Wanting(PrimaryFailures(results)) == Wanting(results)
  {
    if results != [] {
      var front, last := results[..|results| - 1], results[|results| - 1];
      FailuresAreTheFailed(front);
      assert !last.viaFallback;
      if !last.delivered {
        var f := PrimaryFailures(results);
        assert f[..|f| - 1] == PrimaryFailures(front);
      } else {
        assert PrimaryFailures(results) == PrimaryFailures(front) + [] == PrimaryFailures(front);
      }
    }
  }

  lemma {:induction false} NoneWantingIfDelivered(results: seq<Delivery>)
    requires AllDelivered(results)
    ensures Wanting(results) == 0
  {
    if results != [] {
      assert results[|results| - 1] in results;
      NoneWantingIfDelivered(results[..|results| - 1]);
    }
  }

  /** The report of a dispatch: one primary per distinct channel in first-named order, then the fallbacks. */
  ghost predicate ReportIsExact(setup: Setup, targets: seq<Channel>, r: seq<Delivery>) {
    var n := |targets|;
    && |r| >= n
    && (forall i :: 0 <= i < n ==> IsPrimary(setup, r[i], targets[i]))
    && (forall i :: n <= i < |r| ==> IsFallback(setup, r[i]))
    // nothing is sent as a fallback once in-app has failed
    && (forall i, j :: 0 <= i < j < |r| && r[j].viaFallback ==> !FailedInApp(r[i]))
    // until then every failed channel gets its one fallback
    && |r| - n <= Wanting(r[..n])
    && ((forall d :: d in r ==> !FailedInApp(d)) ==> |r| - n == Wanting(r[..n]))
    // a fallback does not make up for a failed channel
    && (AllDelivered(r) <==> AllDelivered(r[..n]))
  }

  lemma DispatchIsExact(setup: Setup, log: Log, channels: seq<Channel>)
    requires setup.policy.maxAttempts >= 1
    ensures ReportIsExact(setup, Targets(channels), Dispatched(setup, log, channels).results)
  {
    var targets := Targets(channels);
    var p := FirstPhase(setup, log, channels);
    var failures, q := PrimaryFailures(p.results), Dispatched(setup, log, channels);
    PrimaryResults(setup, log, targets);
    assert forall d :: d in p.results ==> !d.viaFallback;
    FailuresAreTheFailed(p.results);
    FallbackResults(setup, p, failures);
    assert q == Fallbacks(setup, p, failures);
    hide Dispatched, FirstPhase, Fallbacks, Primaries, PrimaryFailures, Targets;
    ShapesCombine(setup, targets, p, q);
  }

  lemma ShapesCombine(setup: Setup, targets: seq<Channel>, p: Progress, q: Progress)
    requires PrimaryShape(setup, targets, p)
    requires FallbackShape(setup, p, q, Wanting(p.results))
    ensures ReportIsExact(setup, targets, q.results)
  {
    var n, r := |targets|, q.results;
    assert r[..n] == p.results;
    assert forall i :: 0 <= i < n ==> r[i] == p.results[i];
    forall i, j | 0 <= i < j < |r| && r[j].viaFallback ensures !FailedInApp(r[i]) {
      assert j >= n;
      assert p.inAppHealthy;
      if i < n {
        assert r[i] in p.results;
      }
    }
    if forall d :: d in r ==> !FailedInApp(d) {
      assert forall d :: d in p.results ==> d in r;
      assert p.inAppHealthy;
      assert |r| > 0 ==> r[|r| - 1] in r;
      assert q.inAppHealthy;
    }
    if AllDelivered(p.results) {
      NoneWantingIfDelivered(p.results);
      assert r == p.results;
    }
    if AllDelivered(r) {
      assert forall d :: d in p.results ==> d in r;
    }
  }

  // ----- what the report says of the transports -----

  /** The result of sending to the channel from `before` on is what the transport answered; one that no transport is
      registered for is sent nothing. */
  ghost predicate ToldExactly(setup: Setup, transport: ChannelType, channel: Channel, via: bool, before: Log,
      after: Log, d: Delivery)
  {
    && d.channel == transport && d.target == channel.target && d.viaFallback == via
    && if via || transport in setup.transports then DeliveredExactly(setup, transport, channel, before, after, d)
       else after == before && d.attempts == 0 && !d.delivered
            && d.error == Some("no transport registered for channel \"" + TypeName(transport) + "\"")
  }

  /** What reporting the result adds to the log: a mark when it failed. */
  function Mark(d: Delivery): Log {
    if d.delivered then [] else [MarkedFailed(d.channel)]
  }

  /** The results tell, in order, what the transports answered when tried one after the other from `log` to `end`: first
      each target over its own transport, then in-app fallbacks. In between there is nothing but marks of failure. */
  ghost predicate Traced(setup: Setup, targets: seq<Channel>, log: Log, r: seq<Delivery>, end: Log) {
    if r == [] then end == log
    else
      var n := |r| - 1;
      var primary := n < |targets|;
      var transport := if primary then targets[n].kind else InApp;
      var channel := if primary then targets[n] else Channel(InApp, None);
      exists before, after ::
        && Traced(setup, targets, log, r[..n], before)
        && ToldExactly(setup, transport, channel, !primary, before, after, r[n])
        && end == after + Mark(r[n])
  }

  lemma TracedSnoc(setup: Setup, targets: seq<Channel>, log: Log, r: seq<Delivery>, before: Log, after: Log,
      d: Delivery)
    requires Traced(setup, targets, log, r, before)
    requires var primary := |r| < |targets|;
             ToldExactly(setup, if primary then targets[|r|].kind else InApp,
                         if primary then targets[|r|] else Channel(InApp, None), !primary, before, after, d)
    ensures Traced(setup, targets, log, r + [d], after + Mark(d))
  {
    hide ToldExactly;
    var longer := r + [d];
    assert longer != [] && |longer| - 1 == |r| && longer[..|r|] == r && longer[|r|] == d;
  }

  lemma PrimaryIsTold(setup: Setup, p: Progress, channel: Channel) returns (after: Log, d: Delivery)
    requires setup.policy.maxAttempts >= 1
    ensures ToldExactly(setup, channel.kind, channel, false, p.log, after, d)
    ensures var q := PrimaryStep(setup, p, channel); q.results == p.results + [d] && q.log == after + Mark(d)
  {
    hide DeliveryOf, DeliveredExactly;
    if channel.kind in setup.transports {
      var run := DeliveryOf(setup, channel.kind, channel, false, p.log);
      after, d := run.0, run.1;
      DeliveryIsExact(setup, channel.kind, channel, false, p.log);
    } else {
      after, d := p.log, Delivery(channel.kind, channel.target, false, 0, false, Some(NoTransport(channel.kind)));
    }
    assert after + [] == after;
    assert PrimaryStep(setup, p, channel) == Report(after, p.results, d, p.inAppHealthy);
  }

  /** The same trace, read for more targets than it has results. */
  lemma {:induction false} TracedForMore(setup: Setup, a: seq<Channel>, b: seq<Channel>, log: Log, r: seq<Delivery>,
      end: Log)
    requires Traced(setup, a, log, r, end) && |r| <= |a| <= |b| && a == b[..|a|]
    ensures Traced(setup, b, log, r, end)
  {
    hide ToldExactly;
    if r != [] {
      var n := |r| - 1;
      var before, after :| Traced(setup, a, log, r[..n], before)
        && ToldExactly(setup, a[n].kind, a[n], false, before, after, r[n]) && end == after + Mark(r[n]);
      TracedForMore(setup, a, b, log, r[..n], before);
      assert b[n] == a[n];
    }
  }

  lemma {:induction false} PrimariesAreTraced(setup: Setup, log: Log, targets: seq<Channel>)
    requires setup.policy.maxAttempts >= 1
    ensures var p := Primaries(setup, Progress(log, [], true), targets);
            |p.results| == |targets| && Traced(setup, targets, log, p.results, p.log)
  {
    hide ToldExactly, PrimaryStep, Mark;
    if targets != [] {
      var n := |targets| - 1;
      var front := targets[..n];
      PrimariesAreTraced(setup, log, front);
      var p := Primaries(setup, Progress(log, [], true), front);
      TracedForMore(setup, front, targets, log, p.results, p.log);
      var after, d := PrimaryIsTold(setup, p, targets[n]);
      hide Traced;
      TracedSnoc(setup, targets, log, p.results, p.log, after, d);
    }
  }

  lemma {:induction false} FallbacksAreTraced(setup: Setup, targets: seq<Channel>, log: Log, p: Progress,
      failures: seq<Delivery>)
    requires setup.policy.maxAttempts >= 1 && |p.results| >= |targets| && Traced(setup, targets, log, p.results, p.log)
    ensures var q := Fallbacks(setup, p, failures);
            |q.results| >= |targets| && Traced(setup, targets, log, q.results, q.log)
  {
    hide DeliveryOf, DeliveredExactly, Traced;
    if failures != [] {
      FallbacksAreTraced(setup, targets, log, p, failures[..|failures| - 1]);
      var q := Fallbacks(setup, p, failures[..|failures| - 1]);
      if ShouldFallbackToInApp(failures[|failures| - 1].channel, q.inAppHealthy) {
        var (after, d) := DeliveryOf(setup, InApp, IN_APP_CHANNEL, true, q.log);
        DeliveryIsExact(setup, InApp, IN_APP_CHANNEL, true, q.log);
        TracedSnoc(setup, targets, log, q.results, q.log, after, d);
        assert after + [] == after;
      }
    }
  }

  /** Every delivered flag, attempt count and error that a dispatch reports is the transports' own answer. */
  lemma DispatchIsTraced(setup: Setup, log: Log, channels: seq<Channel>)
    requires setup.policy.maxAttempts >= 1
    ensures var q := Dispatched(setup, log, channels); Traced(setup, Targets(channels), log, q.results, q.log)
  {
    hide Traced, Primaries, Fallbacks, Targets;
    var p := FirstPhase(setup, log, channels);
    PrimariesAreTraced(setup, log, Targets(channels));
    FallbacksAreTraced(setup, Targets(channels), log, p, PrimaryFailures(p.results));
  }

  // ----- accounting -----

  function Sends(log: Log): nat {
    if log == [] then 0 else Sends(log[..|log| - 1]) + if log[|log| - 1].Sent? then 1 else 0
  }

  function Marks(log: Log): seq<ChannelType> {
    if log == [] then []
    else Marks(log[..|log| - 1]) + if log[|log| - 1].MarkedFailed? then [log[|log| - 1].kind] else []
  }

  function Attempts(results: seq<Delivery>): nat {
    if results == [] then 0 else Attempts(results[..|results| - 1]) + results[|results| - 1].attempts
  }

  function FailedKinds(results: seq<Delivery>): seq<ChannelType> {
    if results == [] then []
    else
      var last := results[|results| - 1];
      FailedKinds(results[..|results| - 1]) + if last.delivered then [] else [last.channel]
  }

  lemma LogSnoc(log: Log, e: Event)
    ensures Sends(log + [e]) == Sends(log) + if e.Sent? then 1 else 0
    ensures Marks(log + [e]) == Marks(log) + if e.MarkedFailed? then [e.kind] else []
  {
    assert (log + [e])[..|log|] == log;
  }

  lemma {:induction false} FailedSendsAccounted(policy: RetryPolicy, transport: ChannelType, channel: Channel,
      log: Log, k: nat)
    ensures Sends(log + FailedSends(policy, transport, channel, k)) == Sends(log) + k
    ensures Marks(log + FailedSends(policy, transport, channel, k)) == Marks(log)
  {
    if k == 0 {
      assert log + [] == log;
    } else {
      FailedSendsAccounted(policy, transport, channel, log, k - 1);
      FailedSendAccounted(log, FailedSends(policy, transport, channel, k - 1), Sent(transport, channel, false),
        Waited(BackoffDelayMs(k - 1, policy)));
    }
  }

  lemma FailedSendAccounted(log: Log, before: Log, sent: Event, pause: Event)
    requires sent.Sent? && pause.Waited?
    ensures Sends(log + (before + [sent, pause])) == Sends(log + before) + 1
    ensures Marks(log + (before + [sent, pause])) == Marks(log + before)
  {
    hide *;
    LogSnoc(log + before, sent);
    LogSnoc(log + before + [sent], pause);
    assert log + before + [sent] + [pause] == log + (before + [sent, pause]);
    assert Marks(log + before) + [] + [] == Marks(log + before);
  }

  lemma DeliveryAccounted(setup: Setup, transport: ChannelType, channel: Channel, via: bool, log: Log)
    requires setup.policy.maxAttempts >= 1
    ensures var (after, d) := DeliveryOf(setup, transport, channel, via, log);
            Sends(after) == Sends(log) + d.attempts && Marks(after) == Marks(log)
  {
    hide DeliveryOf, FailedSends, Answer, Sends, Marks;
    var (after, d) := DeliveryOf(setup, transport, channel, via, log);
    DeliveryIsExact(setup, transport, channel, via, log);
    var failed, last :=
      log + FailedSends(setup.policy, transport, channel, d.attempts - 1), Sent(transport, channel, d.delivered);
    assert after == failed + [last] && d.attempts >= 1;
    FailedSendsAccounted(setup.policy, transport, channel, log, d.attempts - 1);
    LogSnoc(failed, last);
    assert Marks(failed) + [] == Marks(failed);
  }

  /** The log of p holds one send per reported attempt and one mark per reported failure, in order. */
  predicate Accounted(log: Log, p: Progress) {
    Sends(p.log) == Sends(log) + Attempts(p.results) && Marks(p.log) == Marks(log) + FailedKinds(p.results)
  }

  lemma ResultsSnoc(results: seq<Delivery>, d: Delivery)
    ensures Attempts(results + [d]) == Attempts(results) + d.attempts
    ensures FailedKinds(results + [d]) == FailedKinds(results) + if d.delivered then [] else [d.channel]
  {
    assert (results + [d])[..|results|] == results;
  }

  lemma ReportAccounted(log: Log, p: Progress, after: Log, d: Delivery)
    requires Accounted(log, p)
    requires Sends(after) == Sends(p.log) + d.attempts && Marks(after) == Marks(p.log)
    ensures Accounted(log, Report(after, p.results, d, p.inAppHealthy))
  {
    hide Attempts, FailedKinds, Sends, Marks;
    ResultsSnoc(p.results, d);
    LogSnoc(after, MarkedFailed(d.channel));
    var kinds := FailedKinds(p.results);
    assert kinds + [] == kinds && Marks(log) + kinds + [d.channel] == Marks(log) + (kinds + [d.channel]);
  }

  lemma {:induction false} PrimariesAccounted(setup: Setup, log: Log, p: Progress, targets: seq<Channel>)
    requires setup.policy.maxAttempts >= 1 && Accounted(log, p)
    ensures Accounted(log, Primaries(setup, p, targets))
  {
    hide Accounted, DeliveryOf;
    if targets != [] {
      var front, channel := targets[..|targets| - 1], targets[|targets| - 1];
      PrimariesAccounted(setup, log, p, front);
      var q := Primaries(setup, p, front);
      if channel.kind in setup.transports {
        var (after, d) := DeliveryOf(setup, channel.kind, channel, false, q.log);
        DeliveryAccounted(setup, channel.kind, channel, false, q.log);
        ReportAccounted(log, q, after, d);
      } else {
        ReportAccounted(log, q, q.log,
          Delivery(channel.kind, channel.target, false, 0, false, Some(NoTransport(channel.kind))));
      }
    }
  }

  lemma {:induction false} FallbacksAccounted(setup: Setup, log: Log, p: Progress, failures: seq<Delivery>)
    requires setup.policy.maxAttempts >= 1 && Accounted(log, p)
    ensures Accounted(log, Fallbacks(setup, p, failures))
  {
    hide Accounted, DeliveryOf;
    if failures != [] {
      FallbacksAccounted(setup, log, p, failures[..|failures| - 1]);
      var q := Fallbacks(setup, p, failures[..|failures| - 1]);
      var (after, d) := DeliveryOf(setup, InApp, IN_APP_CHANNEL, true, q.log);
      DeliveryAccounted(setup, InApp, IN_APP_CHANNEL, true, q.log);
      ReportAccounted(log, q, after, d);
    }
  }

  /** Every send is reported as an attempt and every failure, and nothing else, is recorded under its channel. */
  lemma DispatchAccounted(setup: Setup, log: Log, channels: seq<Channel>)
    requires setup.policy.maxAttempts >= 1
    ensures Accounted(log, Dispatched(setup, log, channels))
  {
    var start := Progress(log, [], true);
    assert Marks(log) + [] == Marks(log);
    PrimariesAccounted(setup, log, start, Targets(channels));
    FallbacksAccounted(setup, log, FirstPhase(setup, log, channels),
      PrimaryFailures(FirstPhase(setup, log, channels).results));
  }
}
