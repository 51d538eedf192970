/** Validation of a mission's waypoints: ranges and a contiguous sequence. */
module WaypointValidation {
  import opened SharedTypes
  import opened Sorting

  datatype WaypointError =
    | LatError(index: nat)
    | LonError(index: nat)
    | AltitudeError(index: nat)
    | SpeedError(index: nat)
    | GimbalError(index: nat)
    | LoiterError(index: nat)
    | SequenceError

  predicate InInclusive(value: real, min: real, max: real) {
    min <= value <= max
  }

  ghost predicate WaypointOk(wp: Waypoint, maxAltitude: real) {
    && -90.0 <= wp.lat <= 90.0
    && -180.0 <= wp.lon <= 180.0
    && 0.0 < wp.altitude <= maxAltitude
    && 0.0 < wp.speed
    && -90.0 <= wp.gimbalAngle <= 90.0
    && 0.0 <= wp.loiterTime
  }

  /** The seq values are 0 to n - 1, each once. */
  ghost predicate Contiguous(waypoints: seq<Waypoint>) {
    && (forall i :: 0 <= i < |waypoints| ==> 0 <= waypoints[i].seq_ < |waypoints|)
    && DistinctSeqs(waypoints)
  }

  ghost predicate DistinctSeqs(waypoints: seq<Waypoint>) {
    forall i, j :: 0 <= i < j < |waypoints| ==> waypoints[i].seq_ != waypoints[j].seq_
  }

  ghost predicate ValidWaypoints(waypoints: seq<Waypoint>, maxAltitude: real) {
    && (forall i :: 0 <= i < |waypoints| ==> WaypointOk(waypoints[i], maxAltitude))
    && Contiguous(waypoints)
  }

  predicate NumberBefore(a: int, b: int) {
    a < b
  }

  function Seqs(waypoints: seq<Waypoint>): (s: seq<int>)
    ensures |s| == |waypoints| && forall i :: 0 <= i < |s| ==> s[i] == waypoints[i].seq_
  {
    seq(|waypoints|, i requires 0 <= i < |waypoints| => waypoints[i].seq_)
  }

  predicate EveryAtItsIndex(s: seq<int>) {
    forall i :: 0 <= i < |s| ==> s[i] == i
  }

  /** A sorted list of different numbers below its length counts 0, 1, 2, ... */
  lemma {:induction false} SortedBelowLength(s: seq<int>, i: nat)
    requires Sorted(s, NumberBefore) && forall j, k :: 0 <= j < k < |s| ==> s[j] != s[k]
    requires forall j :: 0 <= j < |s| ==> 0 <= s[j] < |s|
    requires i < |s|
    ensures s[i] >= i
  {
    if i > 0 {
      SortedBelowLength(s, i - 1);
      assert !NumberBefore(s[i], s[i - 1]);
    }
  }

  lemma {:induction false} SortedAboveBound(s: seq<int>, i: nat)
    requires Sorted(s, NumberBefore) && forall j, k :: 0 <= j < k < |s| ==> s[j] != s[k]
    requires forall j :: 0 <= j < |s| ==> 0 <= s[j] < |s|
    requires i < |s|
    ensures s[i] <= i
    decreases |s| - i
  {
    if i < |s| - 1 {
      SortedAboveBound(s, i + 1);
      assert !NumberBefore(s[i + 1], s[i]);
    }
  }

  /** The sort-and-compare test accepts exactly the contiguous sequences. */
  lemma SequenceTestIsExact(waypoints: seq<Waypoint>)
    ensures EveryAtItsIndex(Sort(Seqs(waypoints), NumberBefore)) <==> Contiguous(waypoints)
  {
    var given := Seqs(waypoints);
    var s := Sort(given, NumberBefore);
    SameMembers(given, s);
    assert WeakOrder(NumberBefore);
    SortSorts(given, NumberBefore);
    if EveryAtItsIndex(s) {
      KeysStayDistinct(s, given, (x: int) => x);
      forall i | 0 <= i < |waypoints| ensures 0 <= waypoints[i].seq_ < |waypoints| {
        assert given[i] in s;
      }
      forall i, j | 0 <= i < j < |waypoints| ensures waypoints[i].seq_ != waypoints[j].seq_ {
        assert given[i] != given[j];
      }
    }
    if Contiguous(waypoints) {
      KeysStayDistinct(given, s, (x: int) => x);
      forall j | 0 <= j < |s| ensures 0 <= s[j] < |s| {
        assert s[j] in given;
      }
      forall i | 0 <= i < |s| ensures s[i] == i {
        SortedBelowLength(s, i);
        SortedAboveBound(s, i);
      }
    }
  }

  method ValidateSequence(waypoints: seq<Waypoint>) returns (errors: seq<WaypointError>)
    ensures errors == if Contiguous(waypoints) then [] else [SequenceError]
  {
    var sorted := Sort(Seqs(waypoints), NumberBefore);
    SequenceTestIsExact(waypoints);
    if !EveryAtItsIndex(sorted) {
      return [SequenceError];
    }
    return [];
  }

  /** The error names a field of one of the first n waypoints that is out of its range. */
  ghost predicate Justified(waypoints: seq<Waypoint>, maxAltitude: real, n: nat, e: WaypointError)
    requires n <= |waypoints|
  {
    match e
    case LatError(i) => i < n && !(-90.0 <= waypoints[i].lat <= 90.0)
    case LonError(i) => i < n && !(-180.0 <= waypoints[i].lon <= 180.0)
    case AltitudeError(i) => i < n && !(0.0 < waypoints[i].altitude <= maxAltitude)
    case SpeedError(i) => i < n && waypoints[i].speed <= 0.0
    case GimbalError(i) => i < n && !(-90.0 <= waypoints[i].gimbalAngle <= 90.0)
    case LoiterError(i) => i < n && waypoints[i].loiterTime < 0.0
    case SequenceError => false
  }

  lemma NoneIffAllOk(waypoints: seq<Waypoint>, maxAltitude: real, errors: seq<WaypointError>)
    requires forall e :: e in errors <==> Justified(waypoints, maxAltitude, |waypoints|, e)
    ensures errors == [] <==> forall i :: 0 <= i < |waypoints| ==> WaypointOk(waypoints[i], maxAltitude)
  {
    if errors != [] {
      assert Justified(waypoints, maxAltitude, |waypoints|, errors[0]);
    } else {
      forall i | 0 <= i < |waypoints| ensures WaypointOk(waypoints[i], maxAltitude) {
        assert !Justified(waypoints, maxAltitude, |waypoints|, LatError(i));
        assert !Justified(waypoints, maxAltitude, |waypoints|, LonError(i));
        assert !Justified(waypoints, maxAltitude, |waypoints|, AltitudeError(i));
        assert !Justified(waypoints, maxAltitude, |waypoints|, SpeedError(i));
        assert !Justified(waypoints, maxAltitude, |waypoints|, GimbalError(i));
        assert !Justified(waypoints, maxAltitude, |waypoints|, LoiterError(i));
      }
    }
  }

  /** Exactly the offending fields are reported, and the sequence when it is not contiguous. */
  method ValidateWaypoints(waypoints: seq<Waypoint>, maxAltitude: real) returns (errors: seq<WaypointError>)
    ensures errors == [] <==> ValidWaypoints(waypoints, maxAltitude)
    ensures SequenceError in errors <==> !Contiguous(waypoints)
    ensures forall e :: e != SequenceError ==> (e in errors <==> Justified(waypoints, maxAltitude, |waypoints|, e))
  {
    hide Contiguous;
    errors := [];
    for index := 0 to |waypoints|
      invariant forall e :: e in errors <==> Justified(waypoints, maxAltitude, index, e)
    {
      var wp := waypoints[index];
      if !InInclusive(wp.lat, -90.0, 90.0) {
        errors := errors + [LatError(index)];
      }
      if !InInclusive(wp.lon, -180.0, 180.0) {
        errors := errors + [LonError(index)];
      }
      if !(wp.altitude > 0.0 && wp.altitude <= maxAltitude) {
        errors := errors + [AltitudeError(index)];
      }
      if !(wp.speed > 0.0) {
        errors := errors + [SpeedError(index)];
      }
      if !InInclusive(wp.gimbalAngle, -90.0, 90.0) {
        errors := errors + [GimbalError(index)];
      }
      if !(wp.loiterTime >= 0.0) {
        errors := errors + [LoiterError(index)];
      }
    }
    var sequence := ValidateSequence(waypoints);
    NoneIffAllOk(waypoints, maxAltitude, errors);
    errors := errors + sequence;
  }
}
