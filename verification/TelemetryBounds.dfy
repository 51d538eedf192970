/** Admission rules for telemetry samples: bounded percentages and strictly increasing time per drone. */
module TelemetryBounds {
  import opened SharedTypes

  /** A floating-point number: finite, or NaN or infinite. */
  datatype Number = Finite(value: real) | NonFinite

  /** `ts` is the timestamp in epoch milliseconds, None when it does not parse. */
  datatype Sample = Sample(droneId: string, ts: Option<int>, remainingPct: Number, rcSignalStrength: Number)

  predicate IsPercentInRange(value: Number) {
    value.Finite? && 0.0 <= value.value <= 100.0
  }

  predicate IsWithinBounds(sample: Sample) {
    IsPercentInRange(sample.remainingPct) && IsPercentInRange(sample.rcSignalStrength)
  }

  /** The decision of the gate, given the last accepted time of every drone. */
  predicate WouldAccept(last: map<string, int>, sample: Sample) {
    sample.ts.Some? && (sample.droneId in last ==> sample.ts.value > last[sample.droneId])
  }

  class MonotonicTimestampGate {
    var lastMillisByDrone: map<string, int>

    constructor ()
      ensures lastMillisByDrone == map[]
    {
      lastMillisByDrone := map[];
    }

    method Accept(sample: Sample) returns (accepted: bool)
      modifies this
      ensures accepted == WouldAccept(old(lastMillisByDrone), sample)
      ensures lastMillisByDrone ==
        if accepted then old(lastMillisByDrone)[sample.droneId := sample.ts.value] else old(lastMillisByDrone)
    {
      if sample.ts.None? {
        return false;
      }
      var ms := sample.ts.value;
      if sample.droneId in lastMillisByDrone && ms <= lastMillisByDrone[sample.droneId] {
        return false;
      }
      lastMillisByDrone := lastMillisByDrone[sample.droneId := ms];
      return true;
    }
  }

  // ----- what the gate guarantees of the samples it lets through -----

  /** Every sample parses, and each drone's times strictly increase along the list. */
  ghost predicate Increasing(samples: seq<Sample>) {
    && (forall i :: 0 <= i < |samples| ==> samples[i].ts.Some?)
    && (forall i, j :: 0 <= i < j < |samples| && samples[i].droneId == samples[j].droneId ==>
          samples[i].ts.value < samples[j].ts.value)
  }

  /** `last` is the time of each drone's most recent sample in the list. */
  ghost predicate LastTimes(samples: seq<Sample>, last: map<string, int>) {
    && (forall s :: s in samples ==> s.ts.Some? && s.droneId in last && s.ts.value <= last[s.droneId])
    && (forall d :: d in last ==> SampledAt(samples, d, last[d]))
  }

  ghost predicate SampledAt(samples: seq<Sample>, droneId: string, ms: int) {
    exists s :: s in samples && s.droneId == droneId && s.ts == Some(ms)
  }

  /** The gate accepts exactly the samples that keep the list increasing. */
  lemma GateIsExact(samples: seq<Sample>, last: map<string, int>, s: Sample)
    requires Increasing(samples) && LastTimes(samples, last)
    ensures WouldAccept(last, s) <==> Increasing(samples + [s])
    ensures WouldAccept(last, s) ==> LastTimes(samples + [s], last[s.droneId := s.ts.value])
  {
    var longer := samples + [s];
    if WouldAccept(last, s) {
      forall i, j | 0 <= i < j < |longer| && longer[i].droneId == longer[j].droneId
        ensures longer[i].ts.value < longer[j].ts.value
      {
        assert longer[i] in samples;
      }
      var newer := last[s.droneId := s.ts.value];
      forall d | d in newer ensures SampledAt(longer, d, newer[d]) {
        if d == s.droneId {
          assert s in longer;
        } else {
          assert SampledAt(samples, d, last[d]);
          var x :| x in samples && x.droneId == d && x.ts == Some(last[d]);
          assert x in longer;
        }
      }
    }
    if Increasing(longer) {
      assert longer[|samples|] == s;
      if s.droneId in last {
        assert SampledAt(samples, s.droneId, last[s.droneId]);
        var x :| x in samples && x.droneId == s.droneId && x.ts == Some(last[s.droneId]);
        var i :| 0 <= i < |samples| && samples[i] == x;
        assert longer[i] == x;
      }
    }
  }

  /** Leaving out a middle part keeps a list increasing. */
  lemma IncreasingWithoutMiddle(a: seq<Sample>, b: seq<Sample>, c: seq<Sample>)
    requires Increasing(a + b + c)
    ensures Increasing(a + c) && Increasing(a) && Increasing(a + b)
  {
    var whole := a + b + c;
    forall i | 0 <= i < |a + c| ensures (a + c)[i] == whole[if i < |a| then i else i + |b|] {
    }
    assert forall i :: 0 <= i < |a + b| ==> (a + b)[i] == whole[i];
    assert forall i :: 0 <= i < |a| ==> a[i] == whole[i];
    forall i, j | 0 <= i < j < |a + c| && (a + c)[i].droneId == (a + c)[j].droneId
      ensures (a + c)[i].ts.value < (a + c)[j].ts.value
    {
      var k, l := if i < |a| then i else i + |b|, if j < |a| then j else j + |b|;
      assert whole[k] == (a + c)[i] && whole[l] == (a + c)[j];
    }
  }
}
