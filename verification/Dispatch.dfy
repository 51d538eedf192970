/** The dispatch orchestrator: deliver with retries, then fall back to the in-app channel. What a transport
    does is an arbitrary function of everything that happened before. */
module Dispatch {
  import opened SharedTypes
  import opened DispatchLogic

  datatype Event =
    | Sent(transport: ChannelType, channel: Channel, ok: bool)
    | Waited(ms: real)
    | MarkedFailed(kind: ChannelType)

  type Log = seq<Event>

  type Oracle = (Log, ChannelType, Channel) -> Outcome<string>

  datatype Setup = Setup(oracle: Oracle, transports: set<ChannelType>, policy: RetryPolicy)

  datatype Delivery = Delivery(
    channel: ChannelType,
    target: Option<string>,
    delivered: bool,
    attempts: nat,
    viaFallback: bool,
    error: Option<string>
  )

  /** Where a dispatch stands: what happened, what was reported, whether in-app is still trusted. */
  datatype Progress = Progress(log: Log, results: seq<Delivery>, inAppHealthy: bool)

  // ----- what the methods below compute -----

  /** A delivery that has failed i times already, the last time with lastError. */
  function DeliverFrom(setup: Setup, transport: ChannelType, channel: Channel, via: bool, log: Log, i: nat,
      lastError: string)
    : (run: (Log, Delivery))
    ensures run.1.channel == transport && run.1.target == channel.target && run.1.viaFallback == via
    decreases setup.policy.maxAttempts - i
  {
    if i >= setup.policy.maxAttempts then (log, Delivery(transport, channel.target, false, i, via, Some(lastError)))
    else
      match setup.oracle(log, transport, channel)
      case Pass => (log + [Sent(transport, channel, true)], Delivery(transport, channel.target, true, i + 1, via, None))
      case Fail(error) =>
        var pause := if i == setup.policy.maxAttempts - 1 then [] else [Waited(BackoffDelayMs(i, setup.policy))];
        DeliverFrom(setup, transport, channel, via, log + [Sent(transport, channel, false)] + pause, i + 1, error)
  }

  function DeliveryOf(setup: Setup, transport: ChannelType, channel: Channel, via: bool, log: Log)
    : (run: (Log, Delivery))
    ensures run.1.channel == transport && run.1.target == channel.target && run.1.viaFallback == via
  {
    DeliverFrom(setup, transport, channel, via, log, 0, "unknown error")
  }

  /** Report a result; a failure is also recorded under its channel. */
  function Report(log: Log, results: seq<Delivery>, result: Delivery, healthy: bool): Progress {
    Progress(
      if result.delivered then log else log + [MarkedFailed(result.channel)],
      results + [result],
      healthy && (result.delivered || result.channel != InApp))
  }

  function PrimaryStep(setup: Setup, p: Progress, channel: Channel): Progress {
    if channel.kind in setup.transports then
      var (log, result) := DeliveryOf(setup, channel.kind, channel, false, p.log);
      Report(log, p.results, result, p.inAppHealthy)
    else
      Report(p.log, p.results,
        Delivery(channel.kind, channel.target, false, 0, false, Some(NoTransport(channel.kind))), p.inAppHealthy)
  }

  function NoTransport(kind: ChannelType): string {
    "no transport registered for channel \"" + TypeName(kind) + "\""
  }

  function Primaries(setup: Setup, start: Progress, targets: seq<Channel>): Progress {
    if targets == [] then start
    else PrimaryStep(setup, Primaries(setup, start, targets[..|targets| - 1]), targets[|targets| - 1])
  }

  lemma PrimariesNext(setup: Setup, start: Progress, targets: seq<Channel>, n: nat)
    requires n < |targets|
    ensures Primaries(setup, start, targets[..n + 1])
         == PrimaryStep(setup, Primaries(setup, start, targets[..n]), targets[n])
  {
    assert targets[..n + 1][..n] == targets[..n];
  }

  const IN_APP_CHANNEL := Channel(InApp, None)

  function FallbackStep(setup: Setup, p: Progress, failed: Delivery): Progress {
    if !ShouldFallbackToInApp(failed.channel, p.inAppHealthy) then p
    else
      var (log, result) := DeliveryOf(setup, InApp, IN_APP_CHANNEL, true, p.log);
      Report(log, p.results, result, p.inAppHealthy)
  }

  function Fallbacks(setup: Setup, start: Progress, failures: seq<Delivery>): Progress {
    if failures == [] then start
    else FallbackStep(setup, Fallbacks(setup, start, failures[..|failures| - 1]), failures[|failures| - 1])
  }

  lemma FallbacksNext(setup: Setup, start: Progress, failures: seq<Delivery>, n: nat)
    requires n < |failures|
    ensures Fallbacks(setup, start, failures[..n + 1])
         == FallbackStep(setup, Fallbacks(setup, start, failures[..n]), failures[n])
  {
    assert failures[..n + 1][..n] == failures[..n];
  }

  function PrimaryFailures(results: seq<Delivery>): seq<Delivery> {
    if results == [] then []
    else
      var last := results[|results| - 1];
      PrimaryFailures(results[..|results| - 1]) + if !last.delivered && !last.viaFallback then [last] else []
  }

  function FirstPhase(setup: Setup, log: Log, channels: seq<Channel>): Progress {
    Primaries(setup, Progress(log, [], true), Targets(channels))
  }

  function Dispatched(setup: Setup, log: Log, channels: seq<Channel>): Progress {
    var p := FirstPhase(setup, log, channels);
    Fallbacks(setup, p, PrimaryFailures(p.results))
  }

  predicate AllDelivered(results: seq<Delivery>) {
    forall r :: r in results ==> r.delivered
  }

  // ----- the service -----

  /** Everything outside the service: the transports, the sleep, the failure recorder. */
  class Outside {
    const oracle: Oracle
    var log: Log

    constructor (oracle: Oracle)
      ensures this.oracle == oracle && log == []
    {
      this.oracle := oracle;
      log := [];
    }

    method Send(transport: ChannelType, channel: Channel) returns (outcome: Outcome<string>)
      modifies this
      ensures outcome == oracle(old(log), transport, channel)
      ensures log == old(log) + [Sent(transport, channel, outcome.Pass?)]
    {
      outcome := oracle(log, transport, channel);
      log := log + [Sent(transport, channel, outcome.Pass?)];
    }

    method Sleep(ms: real)
      modifies this
      ensures log == old(log) + [Waited(ms)]
    {
      log := log + [Waited(ms)];
    }

    method RecordFailure(channel: ChannelType)
      modifies this
      ensures log == old(log) + [MarkedFailed(channel)]
    {
      log := log + [MarkedFailed(channel)];
    }
  }

  class DispatchService {
    const outside: Outside
    const transports: set<ChannelType>
    const policy: RetryPolicy

    /** The in-app transport is always there; the other two register under the type they declare. */
    constructor (outside: Outside, email: ChannelType, whatsapp: ChannelType, policy: RetryPolicy)
      ensures this.outside == outside && transports == {InApp, email, whatsapp} && this.policy == policy
    {
      this.outside := outside;
      this.transports := {InApp, email, whatsapp};
      this.policy := policy;
    }

    function ToSetup(): Setup {
      Setup(outside.oracle, transports, policy)
    }

    method Deliver(transport: ChannelType, channel: Channel, viaFallback: bool) returns (result: Delivery)
      modifies outside
      ensures (outside.log, result) == DeliveryOf(ToSetup(), transport, channel, viaFallback, old(outside.log))
    {
      var attempts: nat, lastError := 0, "unknown error";
      ghost var setup, start := ToSetup(), outside.log;
      for i := 0 to if policy.maxAttempts > 0 then policy.maxAttempts else 0
        invariant attempts == i
        invariant DeliverFrom(setup, transport, channel, viaFallback, outside.log, i, lastError)
               == DeliverFrom(setup, transport, channel, viaFallback, start, 0, "unknown error")
      {
        ghost var before := outside.log;
        attempts := attempts + 1;
        var outcome := outside.Send(transport, channel);
        match outcome {
          case Pass =>
            return Delivery(transport, channel.target, true, attempts, viaFallback, None);
          case Fail(error) =>
            lastError := error;
            if i != policy.maxAttempts - 1 {
              outside.Sleep(BackoffDelayMs(i, policy));
            } else {
              assert outside.log == before + [Sent(transport, channel, false)] + [];
            }
        }
      }
      result := Delivery(transport, channel.target, false, attempts, viaFallback, Some(lastError));
    }

    method Dispatch(channels: seq<Channel>) returns (results: seq<Delivery>, allDelivered: bool)
      modifies outside
      ensures results == Dispatched(ToSetup(), old(outside.log), channels).results
      ensures outside.log == Dispatched(ToSetup(), old(outside.log), channels).log
      ensures allDelivered == AllDelivered(results)
    {
      ghost var setup, start := ToSetup(), Progress(outside.log, [], true);
      var targets := FanOutChannels(channels);
      results := [];
      var inAppHealthy := true;
      for n := 0 to |targets|
        invariant Progress(outside.log, results, inAppHealthy) == Primaries(setup, start, targets[..n])
      {
        hide DeliveryOf, DeliverFrom, Dispatched, NoTransport, Primaries, Fallbacks, FallbackStep;
        var channel := targets[n];
        PrimariesNext(setup, start, targets, n);
        var result: Delivery;
        if channel.kind in transports {
          result := Deliver(channel.kind, channel, false);
        } else {
          result := Delivery(channel.kind, channel.target, false, 0, false, Some(NoTransport(channel.kind)));
        }
        results := results + [result];
        if !result.delivered {
          outside.RecordFailure(channel.kind);
          if channel.kind == InApp {
            inAppHealthy := false;
          }
        }
      }
      assert targets[..|targets|] == targets;
      ghost var middle := Progress(outside.log, results, inAppHealthy);
      var failures := PrimaryFailures(results);
      for n := 0 to |failures|
        invariant Progress(outside.log, results, inAppHealthy) == Fallbacks(setup, middle, failures[..n])
      {
        hide DeliveryOf, DeliverFrom, Dispatched, Primaries, PrimaryStep, Fallbacks, PrimaryFailures;
        var failed := failures[n];
        FallbacksNext(setup, middle, failures, n);
        if !ShouldFallbackToInApp(failed.channel, inAppHealthy) {
          continue;
        }
        var fallback := Deliver(InApp, IN_APP_CHANNEL, true);
        results := results + [fallback];
        if !fallback.delivered {
          inAppHealthy := false;
          outside.RecordFailure(InApp);
        }
      }
      assert failures[..|failures|] == failures;
      allDelivered := forall r :: r in results ==> r.delivered;
    }
  }
}
