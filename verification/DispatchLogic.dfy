/** Decision logic of multi-channel dispatch: the retry policy, the backoff schedule, the fan-out set and the
    fallback rule. Delays are exact milliseconds. */
module DispatchLogic {
  import opened SharedTypes

  datatype ChannelType = InApp | Email | WhatsApp

  datatype Channel = Channel(kind: ChannelType, target: Option<string>)

  datatype RetryPolicy = RetryPolicy(maxAttempts: int, baseDelayMs: real, backoffFactor: real, maxDelayMs: real)

  datatype PartialPolicy = PartialPolicy(
    maxAttempts: Option<real>,
    baseDelayMs: Option<real>,
    backoffFactor: Option<real>,
    maxDelayMs: Option<real>
  )

  /** A policy that never skips a channel and never shrinks or negates a delay. */
  predicate Sane(policy: RetryPolicy) {
    policy.maxAttempts >= 1 && policy.baseDelayMs >= 0.0 && policy.backoffFactor >= 1.0 && policy.maxDelayMs >= 0.0
  }

  function GetOr<T>(value: Option<T>, default: T): T {
    if value.Some? then value.value else default
  }

  function AtLeast(bound: real, value: real): real {
    if value >= bound then value else bound
  }

  function ResolveRetryPolicy(partial: PartialPolicy): (policy: RetryPolicy)
    ensures Sane(policy)
  {
    var attempts := GetOr(partial.maxAttempts, 3.0).Floor;
    RetryPolicy(
      if attempts >= 1 then attempts else 1,
      AtLeast(0.0, GetOr(partial.baseDelayMs, 100.0)),
      AtLeast(1.0, GetOr(partial.backoffFactor, 2.0)),
      AtLeast(0.0, GetOr(partial.maxDelayMs, 5000.0)))
  }

  function AsPartial(policy: RetryPolicy): PartialPolicy {
    PartialPolicy(Some(policy.maxAttempts as real), Some(policy.baseDelayMs), Some(policy.backoffFactor),
      Some(policy.maxDelayMs))
  }

  /** Resolving changes a complete policy exactly when it is not sane. */
  lemma ResolvedIffSane(policy: RetryPolicy)
    ensures ResolveRetryPolicy(AsPartial(policy)) == policy <==> Sane(policy)
  {
    assert (policy.maxAttempts as real).Floor == policy.maxAttempts;
  }

  function Power(x: real, k: nat): real {
    if k == 0 then 1.0 else x * Power(x, k - 1)
  }

  function BackoffDelayMs(attemptIndex: int, policy: RetryPolicy): real {
    if attemptIndex < 0 then 0.0
    else
      var raw := policy.baseDelayMs * Power(policy.backoffFactor, attemptIndex);
      if raw <= policy.maxDelayMs then raw else policy.maxDelayMs
  }

  lemma GrowsByFactor(x: real, y: real)
    requires x >= 1.0 && y >= 0.0
    ensures x * y >= y
  {
  }

  lemma Nonnegative(x: real, y: real)
    requires x >= 0.0 && y >= 0.0
    ensures x * y >= 0.0
  {
  }

  lemma {:induction false} PowerIsPositive(x: real, k: nat)
    requires x >= 1.0
    ensures Power(x, k) >= 1.0
  {
    if k > 0 {
      PowerIsPositive(x, k - 1);
      GrowsByFactor(x, Power(x, k - 1));
    }
  }

  lemma RawGrows(base: real, factor: real, p: real, next: real)
    requires base >= 0.0 && factor >= 1.0 && p >= 0.0 && next == factor * p
    ensures 0.0 <= base * p <= base * next
  {
    Nonnegative(base, p);
    GrowsByFactor(factor, base * p);
    assert base * next == factor * (base * p);
  }

  /** Every delay is within [0, maxDelay] and no delay is shorter than the one before it. */
  lemma BackoffGrows(i: nat, policy: RetryPolicy)
    requires Sane(policy)
    ensures 0.0 <= BackoffDelayMs(i, policy) <= BackoffDelayMs(i + 1, policy) <= policy.maxDelayMs
  {
    var base, factor, p, next :=
      policy.baseDelayMs, policy.backoffFactor, Power(policy.backoffFactor, i), Power(policy.backoffFactor, i + 1);
    PowerIsPositive(factor, i);
    RawGrows(base, factor, p, next);
    hide Power;
  }

  lemma {:induction false} BackoffIsMonotone(i: nat, j: nat, policy: RetryPolicy)
    requires Sane(policy) && i <= j
    ensures BackoffDelayMs(i, policy) <= BackoffDelayMs(j, policy)
    decreases j
  {
    hide BackoffDelayMs;
    if i < j {
      BackoffIsMonotone(i, j - 1, policy);
      BackoffGrows(j - 1, policy);
    }
  }

  /** The first delay is the base delay, and each uncapped delay is backoffFactor times the one before; once the cap
      is reached it is the delay. */
  lemma BackoffIsGeometric(i: nat, policy: RetryPolicy)
    requires Sane(policy)
    ensures BackoffDelayMs(0, policy) == if policy.baseDelayMs <= policy.maxDelayMs then policy.baseDelayMs
                                         else policy.maxDelayMs
    ensures var delay, next := BackoffDelayMs(i, policy), BackoffDelayMs(i + 1, policy);
            next == if policy.backoffFactor * delay <= policy.maxDelayMs then policy.backoffFactor * delay
                    else policy.maxDelayMs
  {
    assert Power(policy.backoffFactor, 0) == 1.0;
    var factor, p := policy.backoffFactor, Power(policy.backoffFactor, i);
    assert Power(factor, i + 1) == factor * p;
    Reassociate(policy.baseDelayMs, factor, p);
    hide Power;
    if policy.baseDelayMs * p > policy.maxDelayMs {
      GrowsByFactor(factor, policy.maxDelayMs);
      Scales(factor, policy.maxDelayMs, policy.baseDelayMs * p);
    }
  }

  lemma Reassociate(base: real, factor: real, p: real)
    ensures base * (factor * p) == factor * (base * p)
  {
  }

  lemma Scales(factor: real, x: real, y: real)
    requires factor >= 1.0 && x <= y
    ensures factor * x <= factor * y
  {
  }

  /** What is given is kept where it is sane and else brought to the nearest sane value, attempts in whole numbers; what
      is not given is three attempts, 100 ms, doubling, up to five seconds. */
  lemma ResolvedFields(partial: PartialPolicy)
    ensures var policy := ResolveRetryPolicy(partial);
            && (match partial.maxAttempts
                case None => policy.maxAttempts == 3
                case Some(x) => if x < 1.0 then policy.maxAttempts == 1
                                else policy.maxAttempts as real <= x < (policy.maxAttempts + 1) as real)
            && policy.baseDelayMs == Resolved(partial.baseDelayMs, 100.0, 0.0)
            && policy.backoffFactor == Resolved(partial.backoffFactor, 2.0, 1.0)
            && policy.maxDelayMs == Resolved(partial.maxDelayMs, 5000.0, 0.0)
  {
  }

  ghost function Resolved(given: Option<real>, default: real, least: real): real {
    match given case None => default case Some(x) => if x < least then least else x
  }

  // ----- fan-out -----

  function TypeName(kind: ChannelType): string {
    match kind
    case InApp => "in_app"
    case Email => "email"
    case WhatsApp => "whatsapp"
  }

  function Key(channel: Channel): string {
    TypeName(channel.kind) + ['\0'] + GetOr(channel.target, "")
  }

  /** Same type and same target; a missing target is the empty one. */
  predicate SameDestination(a: Channel, b: Channel) {
    a.kind == b.kind && GetOr(a.target, "") == GetOr(b.target, "")
  }

  /** The channels are of one kind and have the same target, none counting as the empty one. */
  ghost predicate Alike(a: Channel, b: Channel) {
    a.kind == b.kind && (a.target == b.target || (a.target in {None, Some("")} && b.target in {None, Some("")}))
  }

  lemma KeyIdentifiesDestination(a: Channel, b: Channel)
    ensures Key(a) == Key(b) <==> SameDestination(a, b)
    ensures Key(a) == Key(b) <==> Alike(a, b)
  {
    if Key(a) == Key(b) {
      assert Key(a)[0] == TypeName(a.kind)[0] && Key(b)[0] == TypeName(b.kind)[0];
      assert a.kind == b.kind;
      var n := |TypeName(a.kind)| + 1;
      assert Key(a)[n..] == GetOr(a.target, "") && Key(b)[n..] == GetOr(b.target, "");
    }
  }

  predicate Repeats(channels: seq<Channel>, i: nat)
    requires i < |channels|
  {
    exists j :: 0 <= j < i && SameDestination(channels[j], channels[i])
  }

  /** The positions where a destination is named for the first time, in order. */
  function FirstPositions(channels: seq<Channel>, n: nat): (positions: seq<nat>)
    requires n <= |channels|
    ensures forall p :: p in positions ==> p < n
  {
    if n == 0 then []
    else FirstPositions(channels, n - 1) + if Repeats(channels, n - 1) then [] else [n - 1]
  }

  function Pick(channels: seq<Channel>, positions: seq<nat>): seq<Channel>
    requires forall p :: p in positions ==> p < |channels|
  {
    seq(|positions|, i requires 0 <= i < |positions| => assert positions[i] in positions; channels[positions[i]])
  }

  function Targets(channels: seq<Channel>): seq<Channel> {
    Pick(channels, FirstPositions(channels, |channels|))
  }

  lemma PickNext(channels: seq<Channel>, n: nat)
    requires n < |channels|
    ensures Pick(channels, FirstPositions(channels, n + 1))
         == Pick(channels, FirstPositions(channels, n)) + if Repeats(channels, n) then [] else [channels[n]]
  {
    var front := FirstPositions(channels, n);
    if !Repeats(channels, n) {
      assert FirstPositions(channels, n + 1) == front + [n];
      hide FirstPositions;
      assert Pick(channels, front + [n]) == Pick(channels, front) + [channels[n]];
    }
  }

  predicate SeenExactly(channels: seq<Channel>, n: nat, seen: set<string>)
    requires n <= |channels|
  {
    seen == set j | 0 <= j < n :: Key(channels[j])
  }

  method FanOutChannels(channels: seq<Channel>) returns (out: seq<Channel>)
    ensures out == Targets(channels)
  {
    var seen: set<string> := {};
    out := [];
    for n := 0 to |channels|
      invariant out == Pick(channels, FirstPositions(channels, n))
      invariant SeenExactly(channels, n, seen)
    {
      var key := Key(channels[n]);
      SeenIffRepeats(channels, n, seen);
      PickNext(channels, n);
      hide Pick, FirstPositions, Repeats, Key;
      if key in seen {
        continue;
      }
      seen := seen + {key};
      out := out + [channels[n]];
    }
  }

  lemma SeenIffRepeats(channels: seq<Channel>, n: nat, seen: set<string>)
    requires n < |channels|
    requires SeenExactly(channels, n, seen)
    ensures Key(channels[n]) in seen <==> Repeats(channels, n)
  {
    forall j | 0 <= j < n
      ensures Key(channels[j]) == Key(channels[n]) <==> SameDestination(channels[j], channels[n])
    {
      KeyIdentifiesDestination(channels[j], channels[n]);
    }
    hide Key, SameDestination;
  }

  lemma {:induction false} FirstPositionsAreExact(channels: seq<Channel>, n: nat)
    requires n <= |channels|
    ensures forall p: nat :: p < n ==> (p in FirstPositions(channels, n) <==> !Repeats(channels, p))
    ensures forall a, b :: 0 <= a < b < |FirstPositions(channels, n)| ==>
      FirstPositions(channels, n)[a] < FirstPositions(channels, n)[b]
  {
    hide Repeats;
    if n > 0 {
      FirstPositionsAreExact(channels, n - 1);
      var front := FirstPositions(channels, n - 1);
      assert forall a :: 0 <= a < |front| ==> front[a] in front;
    }
  }

  lemma {:induction false} FirstOfItsKind(channels: seq<Channel>, i: nat) returns (p: nat)
    requires i < |channels|
    ensures p <= i && SameDestination(channels[p], channels[i]) && !Repeats(channels, p)
  {
    p := i;
    if Repeats(channels, i) {
      var j :| 0 <= j < i && SameDestination(channels[j], channels[i]);
      p := FirstOfItsKind(channels, j);
    }
  }

  /** `out` takes the channels at these positions: in order, those that name a destination for the first time. */
  ghost predicate TakesFirst(channels: seq<Channel>, out: seq<Channel>, positions: seq<nat>) {
    && |positions| == |out|
    && (forall a, b :: 0 <= a < b < |positions| ==> positions[a] < positions[b])
    && (forall a :: 0 <= a < |out| ==> FirstNamed(channels, positions[a]) && out[a] == channels[positions[a]])
    && (forall p: nat :: FirstNamed(channels, p) ==> p in positions)
  }

  /** No channel before position p is like the one there. */
  ghost predicate FirstNamed(channels: seq<Channel>, p: nat) {
    p < |channels| && forall j :: 0 <= j < p ==> !Alike(channels[j], channels[p])
  }

  lemma FirstNamedIff(channels: seq<Channel>, p: nat)
    requires p < |channels|
    ensures FirstNamed(channels, p) <==> !Repeats(channels, p)
  {
    forall j | 0 <= j < p ensures Alike(channels[j], channels[p]) <==> SameDestination(channels[j], channels[p]) {
      KeyIdentifiesDestination(channels[j], channels[p]);
    }
    hide Alike, SameDestination;
  }

  /** The fan-out set names every configured destination exactly once, in the order and the form it was first named. */
  lemma FanOutIsExact(channels: seq<Channel>)
    ensures var out := Targets(channels);
            && (forall c :: c in channels ==> exists t :: t in out && Alike(c, t))
            && (forall a, b :: 0 <= a < b < |out| ==> !Alike(out[a], out[b]))
            && TakesFirst(channels, out, FirstPositions(channels, |channels|))
  {
    hide Alike, Repeats, FirstPositions, SameDestination, TakesFirst;
    var out, positions := Targets(channels), FirstPositions(channels, |channels|);
    FirstPositionsAreExact(channels, |channels|);
    TargetsTakeFirst(channels);
    forall c | c in channels ensures exists t :: t in out && Alike(c, t) {
      var i :| 0 <= i < |channels| && channels[i] == c;
      var p := FirstOfItsKind(channels, i);
      KeyIdentifiesDestination(channels[p], c);
      KeyIdentifiesDestination(c, channels[p]);
      var k :| 0 <= k < |positions| && positions[k] == p;
      assert out[k] in out && out[k] == channels[p];
    }
    FirstOnesDiffer(channels, out, positions);
  }

  lemma TargetsTakeFirst(channels: seq<Channel>)
    ensures TakesFirst(channels, Targets(channels), FirstPositions(channels, |channels|))
  {
    hide Alike, Repeats, FirstPositions;
    var positions := FirstPositions(channels, |channels|);
    FirstPositionsAreExact(channels, |channels|);
    forall p: nat | p < |channels| ensures FirstNamed(channels, p) <==> p in positions {
      FirstNamedIff(channels, p);
    }
    hide FirstNamed;
    assert forall a :: 0 <= a < |positions| ==> positions[a] in positions;
    assert forall p: nat :: FirstNamed(channels, p) ==> p < |channels| by {
      NamedInside(channels);
    }
  }

  lemma NamedInside(channels: seq<Channel>)
    ensures forall p: nat :: FirstNamed(channels, p) ==> p < |channels|
  {
  }

  lemma FirstOnesDiffer(channels: seq<Channel>, out: seq<Channel>, positions: seq<nat>)
    requires TakesFirst(channels, out, positions)
    ensures forall a, b :: 0 <= a < b < |out| ==> !Alike(out[a], out[b])
  {
    hide Alike;
    forall a, b | 0 <= a < b < |out| ensures !Alike(out[a], out[b]) {
      assert FirstNamed(channels, positions[b]) && positions[a] < positions[b];
    }
  }

  function ShouldFallbackToInApp(failed: ChannelType, inAppHealthy: bool): bool {
    if failed == InApp then false else inAppHealthy
  }
}
