/** What holds of the persister under every interleaving of offers, flushes and insert outcomes. */
module PersisterRuns {
  import opened SharedTypes
  import opened TelemetryBounds
  import opened Persister

  /** Every call and every continuation of the persister is such a step. */
  method Perform(p: BatchingPersister, step: Step)
    requires p.Valid()
    modifies p, p.gate
    ensures p.Valid() && p.View() == After(old(p.View()), step, p.batchSize)
  {
    match step {
      case Offer(sample) =>
        var _ := p.Offer(sample);
      case Flush =>
        p.Flush();
      case RunNextLink(throws) =>
        if p.inFlight.None? && p.settledLinks < p.links {
          p.RunNextLink(throws);
        }
      case InsertSucceeds =>
        if p.inFlight.Some? {
          p.InsertSucceeded();
        }
      case InsertFails(throws) =>
        if p.inFlight.Some? {
          p.InsertFailed(throws);
        }
    }
  }

  function Run(steps: seq<Step>, batchSize: int): State {
    if steps == [] then START
    else After(Run(steps[..|steps| - 1], batchSize), steps[|steps| - 1], batchSize)
  }

  /** The samples of all settled batches, in order. */
  function AllSettled(batches: seq<Batch>): seq<Sample> {
    if batches == [] then [] else AllSettled(batches[..|batches| - 1]) + batches[|batches| - 1].samples
  }

  /** The samples of the successfully inserted batches, in order. */
  function Stored(batches: seq<Batch>): seq<Sample> {
    if batches == [] then []
    else
      var last := batches[|batches| - 1];
      Stored(batches[..|batches| - 1]) + if last.stored then last.samples else []
  }

  function Awaited(s: State): seq<Sample> {
    match s.inFlight case Some(batch) => batch case None => []
  }

  /** The flush call k has got what it waits for: all samples accepted before it are in settled batches. */
  ghost predicate Covered(s: State, k: nat)
    requires k < |s.marks|
  {
    s.marks[k] <= |AllSettled(s.settled)|
  }

  ghost predicate Invariant(s: State) {
    ContentsInvariant(s) && ChainInvariant(s) && StoreInvariant(s)
  }

  /** Nothing accepted is lost or reordered, and only admissible samples are accepted. */
  ghost predicate ContentsInvariant(s: State) {
    && s.accepted == AllSettled(s.settled) + Awaited(s) + s.pending
    && Increasing(s.accepted) && LastTimes(s.accepted, s.last)
    && forall x :: x in s.accepted ==> IsWithinBounds(x)
  }

  /** What the drained links have achieved, and what the running one will. */
  ghost predicate ChainInvariant(s: State) {
    && |s.ends| <= |s.marks|
    && (forall k :: 0 <= k < |s.marks| ==> s.marks[k] <= |s.accepted|)
    && (s.inFlight.Some? ==> |s.ends| < |s.marks| && s.inFlight.value != [] && !s.chainRejected
                             && s.marks[|s.ends|] <= |AllSettled(s.settled)| + |s.inFlight.value|)
    && (forall k :: 0 <= k < |s.ends| && s.ends[k] == Drained ==> Covered(s, k))
  }

  /** What has reached the store. */
  ghost predicate StoreInvariant(s: State) {
    && s.persistedCount == |Stored(s.settled)|
    && Increasing(Stored(s.settled) + Awaited(s) + s.pending)
  }

  lemma SettledSnoc(batches: seq<Batch>, b: Batch)
    ensures AllSettled(batches + [b]) == AllSettled(batches) + b.samples
    ensures Stored(batches + [b]) == Stored(batches) + if b.stored then b.samples else []
  {
    assert (batches + [b])[..|batches|] == batches;
  }

  lemma OfferKeeps(s: State, sample: Sample, batchSize: int)
    requires Invariant(s)
    ensures Invariant(AfterOffer(s, sample, batchSize))
  {
    if Decide(s, sample) == Accepted {
      var t := s.(pending := s.pending + [sample], accepted := s.accepted + [sample],
                  last := s.last[sample.droneId := sample.ts.value]);
      AcceptKeeps(s, sample, t);
      FlushKeeps(t);
    }
  }

  lemma AcceptKeeps(s: State, sample: Sample, t: State)
    requires Invariant(s) && Decide(s, sample) == Accepted
    requires t == s.(pending := s.pending + [sample], accepted := s.accepted + [sample],
                     last := s.last[sample.droneId := sample.ts.value])
    ensures Invariant(t)
  {
    GateIsExact(s.accepted, s.last, sample);
    StoredKeepsIncreasing(s, sample);
    hide Increasing, LastTimes, IsWithinBounds, WouldAccept;
    assert AllSettled(s.settled) + Awaited(s) + (s.pending + [sample]) == s.accepted + [sample];
    assert Stored(s.settled) + Awaited(s) + (s.pending + [sample])
        == Stored(s.settled) + Awaited(s) + s.pending + [sample];
  }

  /** A sample that is new for the accepted list is new for the shorter list of stored and waiting samples. */
  lemma StoredKeepsIncreasing(s: State, sample: Sample)
    requires Invariant(s) && WouldAccept(s.last, sample)
    ensures Increasing(Stored(s.settled) + Awaited(s) + s.pending + [sample])
  {
    var before := Stored(s.settled) + Awaited(s) + s.pending;
    StoredAmongSettled(s.settled);
    forall x | x in before ensures x in s.accepted {
    }
    forall i | 0 <= i < |before| && before[i].droneId == sample.droneId
      ensures before[i].ts.Some? && before[i].ts.value < sample.ts.value
    {
      assert before[i] in s.accepted;
    }
  }

  lemma {:induction false} StoredAmongSettled(batches: seq<Batch>)
    ensures forall x :: x in Stored(batches) ==> x in AllSettled(batches)
  {
    if batches != [] {
      StoredAmongSettled(batches[..|batches| - 1]);
    }
  }

  lemma RunNextLinkKeeps(s: State, throws: bool)
    requires Invariant(s)
    ensures Invariant(AfterRunNextLink(s, throws))
  {
    hide Increasing, LastTimes, IsWithinBounds;
    if LinkReady(s) && !s.chainRejected && s.pending != [] {
      assert AllSettled(s.settled) + [] + s.pending == AllSettled(s.settled) + s.pending + [];
      assert Stored(s.settled) + [] + s.pending == Stored(s.settled) + s.pending + [];
    }
  }

  lemma InsertKeeps(s: State, stored: bool, throws: bool)
    requires Invariant(s)
    ensures Invariant(AfterInsert(s, stored, throws))
  {
    if s.inFlight.Some? {
      SettledSnoc(s.settled, Batch(s.inFlight.value, stored));
      InsertKeepsContents(s, stored, throws);
      InsertKeepsStore(s, stored, throws);
    }
  }

  lemma InsertKeepsContents(s: State, stored: bool, throws: bool)
    requires ContentsInvariant(s) && s.inFlight.Some?
    ensures ContentsInvariant(AfterInsert(s, stored, throws))
  {
    hide Increasing, LastTimes, IsWithinBounds, AllSettled;
    var batch := s.inFlight.value;
    SettledSnoc(s.settled, Batch(batch, stored));
    assert AllSettled(s.settled) + batch + s.pending == AllSettled(s.settled + [Batch(batch, stored)]) + [] + s.pending;
  }

  lemma InsertKeepsStore(s: State, stored: bool, throws: bool)
    requires StoreInvariant(s) && s.inFlight.Some?
    ensures StoreInvariant(AfterInsert(s, stored, throws))
  {
    var batch, before := s.inFlight.value, Stored(s.settled);
    SettledSnoc(s.settled, Batch(batch, stored));
    assert Increasing(before + batch + s.pending);
    IncreasingWithoutMiddle(before, batch, s.pending);
    hide Increasing, Stored, AllSettled;
    if stored {
      assert (before + batch) + [] + s.pending == before + batch + s.pending;
    } else {
      assert before + [] == before && before + [] + s.pending == before + s.pending;
    }
  }

  /** The invariant holds after every sequence of steps. */
  lemma {:induction false} InvariantHolds(steps: seq<Step>, batchSize: int)
    ensures Invariant(Run(steps, batchSize))
  {
    hide Invariant, After;
    if steps == [] {
      StartIsGood();
    } else {
      var front := steps[..|steps| - 1];
      InvariantHolds(front, batchSize);
      StepKeeps(Run(front, batchSize), steps[|steps| - 1], batchSize);
    }
  }

  lemma StartIsGood()
    ensures Invariant(START)
  {
    assert AllSettled([]) == [] && Stored([]) == [] && Awaited(START) == [];
  }

  lemma FlushKeeps(s: State)
    requires Invariant(s)
    ensures Invariant(AfterFlush(s))
  {
  }

  lemma StepKeeps(s: State, step: Step, batchSize: int)
    requires Invariant(s)
    ensures Invariant(After(s, step, batchSize))
  {
    hide Invariant;
    match step
    case Offer(sample) => OfferKeeps(s, sample, batchSize);
    case Flush => FlushKeeps(s);
    case RunNextLink(throws) => RunNextLinkKeeps(s, throws);
    case InsertSucceeds => InsertKeeps(s, true, false);
    case InsertFails(throws) => InsertKeeps(s, false, throws);
  }

  /** Accepted samples are the settled batches in order, then the batch in flight, then the buffer. */
  lemma NothingLostOrReordered(steps: seq<Step>, batchSize: int)
    ensures var s := Run(steps, batchSize); s.accepted == AllSettled(s.settled) + Awaited(s) + s.pending
  {
    InvariantHolds(steps, batchSize);
  }

  /** The percentages of the sample are numbers from 0 to 100. */
  ghost predicate InRange(x: Sample) {
    && x.remainingPct.Finite? && 0.0 <= x.remainingPct.value <= 100.0
    && x.rcSignalStrength.Finite? && 0.0 <= x.rcSignalStrength.value <= 100.0
  }

  /** The sample is later than all those accepted of its drone. */
  ghost predicate Newer(accepted: seq<Sample>, x: Sample) {
    x.ts.Some? && forall y :: y in accepted && y.droneId == x.droneId ==> y.ts.Some? && y.ts.value < x.ts.value
  }

  /** After every run, a sample is accepted exactly when it is in range and newer than all accepted before of its drone,
      and counted as rejected for the first of these otherwise. An accepted sample is buffered, and a flush is queued
      exactly when the buffer has reached the batch size. */
  lemma OfferIsExact(steps: seq<Step>, batchSize: int, x: Sample)
    ensures OfferedExactly(Run(steps, batchSize), Run(steps + [Offer(x)], batchSize), batchSize, x)
  {
    hide *;
    InvariantHolds(steps, batchSize);
    RunSnoc(steps, Offer(x), batchSize);
    AcceptedHaveLastTimes(Run(steps, batchSize));
    OfferStep(Run(steps, batchSize), batchSize, x);
  }

  ghost predicate OfferedExactly(s: State, t: State, batchSize: int, x: Sample) {
    if !InRange(x) then Decide(s, x) == RejectedBounds && t == s.(rejectedBounds := s.rejectedBounds + 1)
    else if !Newer(s.accepted, x) then
      Decide(s, x) == RejectedNonMonotonic && t == s.(rejectedOrder := s.rejectedOrder + 1)
    else
      && Decide(s, x) == Accepted
      && t == s.(pending := s.pending + [x], accepted := s.accepted + [x], last := t.last,
                marks := s.marks + if |s.pending| + 1 >= batchSize then [|s.accepted| + 1] else [])
  }

  lemma AcceptedHaveLastTimes(s: State)
    requires Invariant(s)
    ensures LastTimes(s.accepted, s.last)
  {
    hide LastTimes;
  }

  lemma OfferStep(s: State, batchSize: int, x: Sample)
    requires LastTimes(s.accepted, s.last)
    ensures OfferedExactly(s, After(s, Offer(x), batchSize), batchSize, x)
  {
    hide LastTimes, WouldAccept, Newer;
    NewerIffAccepted(s.accepted, s.last, x);
    assert s.marks + [] == s.marks;
  }

  lemma NewerIffAccepted(accepted: seq<Sample>, last: map<string, int>, x: Sample)
    requires LastTimes(accepted, last)
    ensures WouldAccept(last, x) <==> Newer(accepted, x)
  {
    if x.droneId in last {
      assert SampledAt(accepted, x.droneId, last[x.droneId]);
    }
  }

  /** What reaches the store is in range, strictly increasing in time per drone, and correctly counted. */
  lemma StoredSamplesAreGood(steps: seq<Step>, batchSize: int)
    ensures var s := Run(steps, batchSize);
            && Increasing(Stored(s.settled))
            && (forall x :: x in Stored(s.settled) ==> InRange(x))
            && s.persistedCount == |Stored(s.settled)|
  {
    InvariantHolds(steps, batchSize);
    var s := Run(steps, batchSize);
    StoredAmongSettled(s.settled);
    IncreasingWithoutMiddle(Stored(s.settled), Awaited(s), s.pending);
  }

  /** A flush whose drain was run has settled only after every sample accepted before the call was handed to
      the store and answered for. */
  lemma DrainedFlushIsComplete(steps: seq<Step>, batchSize: int, k: nat)
    requires k < |Run(steps, batchSize).ends| && Run(steps, batchSize).ends[k] == Drained
    ensures |Run(steps, batchSize).ends| <= |Run(steps, batchSize).marks| && Covered(Run(steps, batchSize), k)
  {
    InvariantHolds(steps, batchSize);
  }

  // ----- when a flush has written everything -----

  /** One of the batches that begin before sample m was not stored. */
  predicate LostBefore(batches: seq<Batch>, m: nat) {
    if batches == [] then false
    else
      var front, last := batches[..|batches| - 1], batches[|batches| - 1];
      LostBefore(front, m) || (!last.stored && |AllSettled(front)| < m)
  }

  /** The insert of a batch that begins before the m-th accepted sample failed during the run. */
  predicate InsertFailedBefore(steps: seq<Step>, batchSize: int, m: nat) {
    if steps == [] then false
    else
      var front, last := steps[..|steps| - 1], steps[|steps| - 1];
      var s := Run(front, batchSize);
      || InsertFailedBefore(front, batchSize, m)
      || (last.InsertFails? && s.inFlight.Some? && |AllSettled(s.settled)| < m)
  }

  lemma {:induction false} LossesAreFailedInserts(steps: seq<Step>, batchSize: int, m: nat)
    ensures LostBefore(Run(steps, batchSize).settled, m) <==> InsertFailedBefore(steps, batchSize, m)
    ensures forall b :: b in Run(steps, batchSize).settled ==> b.samples != []
  {
    if steps != [] {
      var front, last := steps[..|steps| - 1], steps[|steps| - 1];
      LossesAreFailedInserts(front, batchSize, m);
      InvariantHolds(front, batchSize);
      LossStep(Run(front, batchSize), last, batchSize, m);
    }
  }

  lemma LossStep(s: State, step: Step, batchSize: int, m: nat)
    requires s.inFlight.Some? ==> s.inFlight.value != []
    requires forall b :: b in s.settled ==> b.samples != []
    ensures var t := After(s, step, batchSize);
            && (LostBefore(t.settled, m) <==>
                LostBefore(s.settled, m) || (step.InsertFails? && s.inFlight.Some? && |AllSettled(s.settled)| < m))
            && (forall b :: b in t.settled ==> b.samples != [])
  {
    SettledByStep(s, step, batchSize);
    hide AllSettled, LostBefore, After;
    if s.inFlight.Some? {
      LostBySnoc(s.settled, Batch(s.inFlight.value, step.InsertSucceeds?), m);
    }
  }

  /** Only an answered insert settles a batch. */
  lemma SettledByStep(s: State, step: Step, batchSize: int)
    ensures After(s, step, batchSize).settled
         == if s.inFlight.Some? && (step.InsertSucceeds? || step.InsertFails?)
            then s.settled + [Batch(s.inFlight.value, step.InsertSucceeds?)]
            else s.settled
  {
    hide Decide;
  }

  lemma LostBySnoc(batches: seq<Batch>, batch: Batch, m: nat)
    ensures LostBefore(batches + [batch], m) <==>
      LostBefore(batches, m) || (!batch.stored && |AllSettled(batches)| < m)
  {
    hide AllSettled;
    assert (batches + [batch])[..|batches|] == batches;
  }

  lemma AcceptedAreDifferent(samples: seq<Sample>)
    requires Increasing(samples)
    ensures forall i, j :: 0 <= i < j < |samples| ==> samples[i] != samples[j]
  {
  }

  lemma {:induction false} LossesBeginInside(batches: seq<Batch>, m: nat)
    requires (forall b :: b in batches ==> b.samples != []) && m >= |AllSettled(batches)|
    ensures LostBefore(batches, m) <==> LostBefore(batches, |AllSettled(batches)|)
  {
    if batches != [] {
      var front, last := batches[..|batches| - 1], batches[|batches| - 1];
      assert last in batches;
      LossesBeginInside(front, m);
      LossesBeginInside(front, |AllSettled(batches)|);
    }
  }

  /** The first m of the samples in settled batches are all stored exactly when no batch that begins before them
      is lost. */
  lemma {:induction false} StoredIffNothingLost(batches: seq<Batch>, m: nat)
    requires forall i, j :: 0 <= i < j < |AllSettled(batches)| ==> AllSettled(batches)[i] != AllSettled(batches)[j]
    requires (forall b :: b in batches ==> b.samples != []) && m <= |AllSettled(batches)|
    ensures (forall i :: 0 <= i < m ==> AllSettled(batches)[i] in Stored(batches)) <==> !LostBefore(batches, m)
  {
    if batches != [] {
      var front, last := batches[..|batches| - 1], batches[|batches| - 1];
      var a, all := AllSettled(front), AllSettled(batches);
      assert all == a + last.samples && forall i :: 0 <= i < |a| ==> a[i] == all[i];
      StoredAmongSettled(front);
      var inner := if m <= |a| then m else |a|;
      StoredIffNothingLost(front, inner);
      LossesBeginInside(front, if m <= |a| then |a| else m);
      hide LostBefore, AllSettled;
      assert forall i :: 0 <= i < |a| ==> (all[i] in Stored(batches) <==> a[i] in Stored(front)) by {
        assert forall k :: 0 <= k < |last.samples| ==> last.samples[k] == all[|a| + k];
      }
      if m > |a| {
        assert all[|a|] == last.samples[0];
        if !last.stored {
          assert all[|a|] !in Stored(batches) by {
            assert forall i :: 0 <= i < |a| ==> a[i] != all[|a|];
          }
        }
      }
    }
  }

  /** The flush call k has got what its documentation says: everything accepted before it has been written. */
  ghost predicate Written(s: State, k: nat)
    requires k < |s.marks| && s.marks[k] <= |s.accepted|
  {
    forall i :: 0 <= i < s.marks[k] ==> s.accepted[i] in Stored(s.settled)
  }

  /** A drained flush has settled with everything written that was accepted before the call, exactly when no insert
      has failed of a batch that begins before the call's samples end. */
  lemma DrainedFlushIsWrittenIff(steps: seq<Step>, batchSize: int, k: nat)
    requires k < |Run(steps, batchSize).ends| && Run(steps, batchSize).ends[k] == Drained
    ensures var s := Run(steps, batchSize);
            && |s.ends| <= |s.marks| && s.marks[k] <= |s.accepted|
            && (Written(s, k) <==> !InsertFailedBefore(steps, batchSize, s.marks[k]))
  {
    var s := Run(steps, batchSize);
    InvariantHolds(steps, batchSize);
    AcceptedAreDifferent(s.accepted);
    LossesAreFailedInserts(steps, batchSize, s.marks[k]);
    var all := AllSettled(s.settled);
    hide Run, InsertFailedBefore, LostBefore, Stored, AllSettled, Increasing, IsWithinBounds, LastTimes;
    assert s.accepted == all + Awaited(s) + s.pending;
    assert forall i :: 0 <= i < |all| ==> all[i] == s.accepted[i];
    StoredIffNothingLost(s.settled, s.marks[k]);
  }

  /** One batch whose insert fails: the flush settles, and its sample is not in the store. */
  lemma FailedInsertLosesItsBatch()
    ensures var a := Sample("d", Some(1), Finite(50.0), Finite(50.0));
            var s := Run([Offer(a), Flush, RunNextLink(false), InsertFails(false)], 50);
            s.ends == [Drained] && s.marks == [1] && s.accepted == [a] && Stored(s.settled) == []
  {
    var a := Sample("d", Some(1), Finite(50.0), Finite(50.0));
    var q1 := [] + [Offer(a)];
    var q2 := q1 + [Flush];
    var q3 := q2 + [RunNextLink(false)];
    RunSnoc([], Offer(a), 50);
    RunSnoc(q1, Flush, 50);
    RunSnoc(q2, RunNextLink(false), 50);
    RunSnoc(q3, InsertFails(false), 50);
    SettledSnoc([], Batch([a], false));
    assert q3 + [InsertFails(false)] == [Offer(a), Flush, RunNextLink(false), InsertFails(false)];
  }

  // ----- when a flush is skipped -----

  ghost predicate HandlerNeverThrows(steps: seq<Step>) {
    forall i :: 0 <= i < |steps| ==> (steps[i].InsertFails? || steps[i].RunNextLink?) ==> !steps[i].handlerThrows
  }

  /** With an error handler that never throws, no flush is skipped. */
  lemma {:induction false} NoFlushSkipped(steps: seq<Step>, batchSize: int)
    requires HandlerNeverThrows(steps)
    ensures var s := Run(steps, batchSize);
            !s.chainRejected && forall k :: 0 <= k < |s.ends| ==> s.ends[k] == Drained
  {
    hide After;
    if steps != [] {
      var front, last := steps[..|steps| - 1], steps[|steps| - 1];
      NoFlushSkipped(front, batchSize);
      NoSkipStep(Run(front, batchSize), last, batchSize);
    }
  }

  lemma NoSkipStep(s: State, step: Step, batchSize: int)
    requires !s.chainRejected && forall k :: 0 <= k < |s.ends| ==> s.ends[k] == Drained
    requires (step.InsertFails? || step.RunNextLink?) ==> !step.handlerThrows
    ensures var t := After(s, step, batchSize);
            !t.chainRejected && forall k :: 0 <= k < |t.ends| ==> t.ends[k] == Drained
  {
    hide Decide;
  }

  /** A settled flush leaves nothing behind that was accepted before the call, for handlers that never throw. */
  lemma SettledFlushIsComplete(steps: seq<Step>, batchSize: int, k: nat)
    requires HandlerNeverThrows(steps) && k < |Run(steps, batchSize).ends|
    ensures |Run(steps, batchSize).ends| <= |Run(steps, batchSize).marks| && Covered(Run(steps, batchSize), k)
  {
    NoFlushSkipped(steps, batchSize);
    DrainedFlushIsComplete(steps, batchSize, k);
  }

  /** The chain is left rejected by an error handler that throws, whether called for a failed insert or for the
      rejection before; any other link that settles leaves it resolved. */
  lemma ChainIsRejectedIff(steps: seq<Step>, step: Step, batchSize: int)
    ensures var s, t := Run(steps, batchSize), Run(steps + [step], batchSize);
            t.chainRejected <==>
              if |t.ends| == |s.ends| then s.chainRejected
              else
                match step
                case InsertFails(throws) => throws
                case RunNextLink(throws) => s.chainRejected && throws
                case _ => false
  {
    RunSnoc(steps, step, batchSize);
    hide Run, Decide;
  }

  /** A link that runs and is not skipped takes the whole buffer along, or settles at once when it is empty. */
  lemma LinkTakesTheBuffer(steps: seq<Step>, throws: bool, batchSize: int)
    requires LinkReady(Run(steps, batchSize)) && !Run(steps, batchSize).chainRejected
    ensures var s, t := Run(steps, batchSize), Run(steps + [RunNextLink(throws)], batchSize);
            && t.pending == [] && t.settled == s.settled
            && t.inFlight == (if s.pending == [] then None else Some(s.pending))
            && t.ends == (if s.pending == [] then s.ends + [Drained] else s.ends)
  {
    RunSnoc(steps, RunNextLink(throws), batchSize);
    hide Run;
  }

  /** Exactly when the next flush settles without its work done: the link before it was rejected, and some
      sample accepted before the call is still in the buffer. */
  lemma NextFlushIncompleteIff(steps: seq<Step>, batchSize: int, throws: bool)
    requires LinkReady(Run(steps, batchSize))
    ensures var s := Run(steps, batchSize);
            var t := AfterRunNextLink(s, throws);
            var k := |s.ends|;
            (|t.ends| > k && !Covered(t, k)) <==> (s.chainRejected && s.marks[k] > |s.accepted| - |s.pending|)
  {
    InvariantHolds(steps, batchSize);
  }

  /** A throwing handler makes the next flush settle with its sample still in the buffer. */
  lemma ThrowingHandlerLosesAFlush()
    ensures var a := Sample("d", Some(1), Finite(50.0), Finite(50.0));
            var b := Sample("d", Some(2), Finite(50.0), Finite(50.0));
            var s := Run([Offer(a), Flush, RunNextLink(false), InsertFails(true),
                          Offer(b), Flush, RunNextLink(false)], 50);
            |s.ends| == |s.marks| == 2 && !Covered(s, 1) && s.pending == [b] && !s.chainRejected
  {
    var a := Sample("d", Some(1), Finite(50.0), Finite(50.0));
    var b := Sample("d", Some(2), Finite(50.0), Finite(50.0));
    var s1 := State([a], map["d" := 1], [a], [1], [], false, None, [], 0, 0, 0);
    var s2 := s1.(pending := [], ends := [Drained], chainRejected := true, settled := [Batch([a], false)]);
    var s3 := s2.(pending := [b], last := map["d" := 2], accepted := [a, b], marks := [1, 2]);
    var half := [Offer(a), Flush, RunNextLink(false), InsertFails(true)];
    hide Run, After, AllSettled;
    FailedWithThrow(a, s1, s2);
    var q5 := half + [Offer(b)];
    var q6 := q5 + [Flush];
    RunSnoc(half, Offer(b), 50);
    RunSnoc(q5, Flush, 50);
    RunSnoc(q6, RunNextLink(false), 50);
    OfferAfterThrow(a, b, s2, s3);
    SkippedAfterThrow(a, b, s3);
    assert q6 + [RunNextLink(false)]
        == [Offer(a), Flush, RunNextLink(false), InsertFails(true), Offer(b), Flush, RunNextLink(false)];
  }

  lemma OfferAfterThrow(a: Sample, b: Sample, s2: State, s3: State)
    requires b == Sample("d", Some(2), Finite(50.0), Finite(50.0))
    requires s2 == State([], map["d" := 1], [a], [1], [Drained], true, None, [Batch([a], false)], 0, 0, 0)
    requires s3 == s2.(pending := [b], last := map["d" := 2], accepted := [a, b], marks := [1, 2])
    ensures After(After(s2, Offer(b), 50), Flush, 50) == s3
  {
    assert s2.last["d" := 2] == map["d" := 2];
  }

  lemma SkippedAfterThrow(a: Sample, b: Sample, s3: State)
    requires s3 == State([b], map["d" := 2], [a, b], [1, 2], [Drained], true, None, [Batch([a], false)], 0, 0, 0)
    ensures var s := After(s3, RunNextLink(false), 50);
            |s.ends| == |s.marks| == 2 && !Covered(s, 1) && s.pending == [b] && !s.chainRejected
  {
    SettledSnoc([], Batch([a], false));
    assert [] + [Batch([a], false)] == [Batch([a], false)];
  }

  lemma FailedWithThrow(a: Sample, s1: State, s2: State)
    requires a == Sample("d", Some(1), Finite(50.0), Finite(50.0))
    requires s1 == State([a], map["d" := 1], [a], [1], [], false, None, [], 0, 0, 0)
    requires s2 == s1.(pending := [], ends := [Drained], chainRejected := true, settled := [Batch([a], false)])
    ensures Run([Offer(a), Flush, RunNextLink(false), InsertFails(true)], 50) == s2
  {
    assert Run([], 50) == START;
    hide Run, After;
    var q1 := [] + [Offer(a)];
    var q2 := q1 + [Flush];
    var q3 := q2 + [RunNextLink(false)];
    var s0 := s1.(marks := []);
    var waiting := s1.(pending := [], inFlight := Some([a]));
    RunSnoc([], Offer(a), 50);
    RunSnoc(q1, Flush, 50);
    RunSnoc(q2, RunNextLink(false), 50);
    RunSnoc(q3, InsertFails(true), 50);
    FirstOffer(a, s0);
    FirstFlush(a, s0, s1);
    FirstLink(a, s1, waiting);
    FirstFailure(a, waiting, s2);
    assert q3 + [InsertFails(true)] == [Offer(a), Flush, RunNextLink(false), InsertFails(true)];
  }

  lemma FirstOffer(a: Sample, s0: State)
    requires a == Sample("d", Some(1), Finite(50.0), Finite(50.0))
    requires s0 == State([a], map["d" := 1], [a], [], [], false, None, [], 0, 0, 0)
    ensures After(START, Offer(a), 50) == s0
  {
    assert START.last["d" := 1] == map["d" := 1];
  }

  lemma FirstFlush(a: Sample, s0: State, s1: State)
    requires s0 == State([a], map["d" := 1], [a], [], [], false, None, [], 0, 0, 0) && s1 == s0.(marks := [1])
    ensures After(s0, Flush, 50) == s1
  {
  }

  lemma FirstLink(a: Sample, s1: State, waiting: State)
    requires s1 == State([a], map["d" := 1], [a], [1], [], false, None, [], 0, 0, 0)
    requires waiting == s1.(pending := [], inFlight := Some([a]))
    ensures After(s1, RunNextLink(false), 50) == waiting
  {
  }

  lemma FirstFailure(a: Sample, waiting: State, s2: State)
    requires waiting == State([], map["d" := 1], [a], [1], [], false, Some([a]), [], 0, 0, 0)
    requires s2 == State([], map["d" := 1], [a], [1], [Drained], true, None, [Batch([a], false)], 0, 0, 0)
    ensures After(waiting, InsertFails(true), 50) == s2
  {
  }

  lemma RunSnoc(steps: seq<Step>, step: Step, batchSize: int)
    ensures Run(steps + [step], batchSize) == After(Run(steps, batchSize), step, batchSize)
  {
    assert (steps + [step])[..|steps|] == steps;
  }
}
