/** The batching persister: samples are buffered, and drained to the store by a chain of flushes that run
    one after the other. Asynchronous continuations are separate steps, in any order the chain allows. */
module Persister {
  import opened SharedTypes
  import opened TelemetryBounds

  datatype PersistDecision = Accepted | RejectedBounds | RejectedNonMonotonic

  /** A batch handed to the store, and whether its insert succeeded. */
  datatype Batch = Batch(samples: seq<Sample>, stored: bool)

  /** How a link of the flush chain ended. A link is skipped when the link before it was rejected. */
  datatype LinkEnd = Drained | Skipped

  /** One call of `flush`: how many samples had been accepted when it was called. */
  datatype State = State(
    pending: seq<Sample>,
    last: map<string, int>,
    accepted: seq<Sample>,
    marks: seq<nat>,
    ends: seq<LinkEnd>,
    chainRejected: bool,
    inFlight: Option<seq<Sample>>,
    settled: seq<Batch>,
    persistedCount: nat,
    rejectedBounds: nat,
    rejectedOrder: nat)

  const START := State([], map[], [], [], [], false, None, [], 0, 0, 0)

  /** Steps of the program and of the event loop. `handlerThrows` is what the error handler does when called. */
  datatype Step =
    | Offer(sample: Sample)
    | Flush
    | RunNextLink(handlerThrows: bool)
    | InsertSucceeds
    | InsertFails(handlerThrows: bool)

  function AfterFlush(s: State): State {
    s.(marks := s.marks + [|s.accepted|])
  }

  function Decide(s: State, sample: Sample): PersistDecision {
    if !IsWithinBounds(sample) then RejectedBounds
    else if !WouldAccept(s.last, sample) then RejectedNonMonotonic
    else Accepted
  }

  function AfterOffer(s: State, sample: Sample, batchSize: int): State {
    match Decide(s, sample)
    case RejectedBounds => s.(rejectedBounds := s.rejectedBounds + 1)
    case RejectedNonMonotonic => s.(rejectedOrder := s.rejectedOrder + 1)
    case Accepted =>
      var t := s.(pending := s.pending + [sample], accepted := s.accepted + [sample],
                  last := s.last[sample.droneId := sample.ts.value]);
      if |t.pending| >= batchSize then AfterFlush(t) else t
  }

  /** A link can run when the previous one has settled. */
  predicate LinkReady(s: State) {
    s.inFlight.None? && |s.ends| < |s.marks|
  }

  function AfterRunNextLink(s: State, handlerThrows: bool): State {
    if !LinkReady(s) then s
    else if s.chainRejected then s.(ends := s.ends + [Skipped], chainRejected := handlerThrows)
    else if s.pending == [] then s.(ends := s.ends + [Drained])
    else s.(inFlight := Some(s.pending), pending := [])
  }

  function AfterInsert(s: State, stored: bool, handlerThrows: bool): State {
    match s.inFlight
    case None => s
    case Some(batch) =>
      s.(inFlight := None,
         settled := s.settled + [Batch(batch, stored)],
         ends := s.ends + [Drained],
         persistedCount := s.persistedCount + (if stored then |batch| else 0),
         chainRejected := !stored && handlerThrows)
  }

  function After(s: State, step: Step, batchSize: int): State {
    match step
    case Offer(sample) => AfterOffer(s, sample, batchSize)
    case Flush => AfterFlush(s)
    case RunNextLink(throws) => AfterRunNextLink(s, throws)
    case InsertSucceeds => AfterInsert(s, true, false)
    case InsertFails(throws) => AfterInsert(s, false, throws)
  }

  class BatchingPersister {
    const batchSize: int
    const gate: MonotonicTimestampGate
    var pending: seq<Sample>
    /** The flush chain: links created and settled, whether the last settled one was rejected, and the
        batch whose insert is awaited. */
    var links: nat
    var settledLinks: nat
    var chainRejected: bool
    var inFlight: Option<seq<Sample>>
    var timerSet: bool
    var persistedCount: nat
    var rejectedBounds: nat
    var rejectedOrder: nat

    ghost var accepted: seq<Sample>
    ghost var marks: seq<nat>
    ghost var ends: seq<LinkEnd>
    ghost var settled: seq<Batch>

    constructor (batchSize: Option<int>, flushIntervalMs: Option<int>)
      ensures Valid() && View() == START && fresh(gate)
      ensures this.batchSize == match batchSize case Some(n) => n case None => 50
      ensures timerSet <==> flushIntervalMs.Some? && flushIntervalMs.value > 0
    {
      this.batchSize := match batchSize case Some(n) => n case None => 50;
      gate := new MonotonicTimestampGate();
      pending, links, settledLinks, chainRejected, inFlight := [], 0, 0, false, None;
      timerSet := flushIntervalMs.Some? && flushIntervalMs.value > 0;
      persistedCount, rejectedBounds, rejectedOrder := 0, 0, 0;
      accepted, marks, ends, settled := [], [], [], [];
    }

    ghost predicate Valid()
      reads this
    {
      links == |marks| && settledLinks == |ends|
    }

    ghost function View(): State
      reads this, gate
    {
      State(pending, gate.lastMillisByDrone, accepted, marks, ends, chainRejected, inFlight, settled,
            persistedCount, rejectedBounds, rejectedOrder)
    }

    /** Also what the interval timer does. */
    method Flush()
      requires Valid()
      modifies this
      ensures Valid() && View() == AfterFlush(old(View())) && timerSet == old(timerSet)
    {
      links := links + 1;
      marks := marks + [|accepted|];
    }

    method Offer(sample: Sample) returns (decision: PersistDecision)
      requires Valid()
      modifies this, gate
      ensures Valid() && View() == AfterOffer(old(View()), sample, batchSize)
      ensures decision == Decide(old(View()), sample)
    {
      if !IsWithinBounds(sample) {
        rejectedBounds := rejectedBounds + 1;
        return RejectedBounds;
      }
      var ok := gate.Accept(sample);
      if !ok {
        rejectedOrder := rejectedOrder + 1;
        return RejectedNonMonotonic;
      }
      pending := pending + [sample];
      accepted := accepted + [sample];
      if |pending| >= batchSize {
        Flush();
      }
      return Accepted;
    }

    /** The continuation of the next link: the drain, or the error handler when the previous link was rejected. */
    method RunNextLink(handlerThrows: bool)
      requires Valid() && LinkReady(View())
      modifies this
      ensures Valid() && View() == AfterRunNextLink(old(View()), handlerThrows)
    {
      if chainRejected {
        settledLinks, ends := settledLinks + 1, ends + [Skipped];
        chainRejected := handlerThrows;
        return;
      }
      if |pending| == 0 {
        settledLinks, ends := settledLinks + 1, ends + [Drained];
        return;
      }
      var batch := pending;
      pending := [];
      inFlight := Some(batch);
    }

    method InsertSucceeded()
      requires Valid() && inFlight.Some?
      modifies this
      ensures Valid() && View() == AfterInsert(old(View()), true, false)
    {
      persistedCount := persistedCount + |inFlight.value|;
      settled := settled + [Batch(inFlight.value, true)];
      inFlight := None;
      settledLinks, ends := settledLinks + 1, ends + [Drained];
      chainRejected := false;
    }

    method InsertFailed(handlerThrows: bool)
      requires Valid() && inFlight.Some?
      modifies this
      ensures Valid() && View() == AfterInsert(old(View()), false, handlerThrows)
    {
      settled := settled + [Batch(inFlight.value, false)];
      inFlight := None;
      settledLinks, ends := settledLinks + 1, ends + [Drained];
      chainRejected := handlerThrows;
    }

    method Stop()
      requires Valid()
      modifies this
      ensures Valid() && View() == AfterFlush(old(View())) && !timerSet
    {
      if timerSet {
        timerSet := false;
      }
      Flush();
    }
  }
}
