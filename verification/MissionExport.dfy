/** From a validated mission to its MAVLink items and bytes. */
module MissionExport {
  import opened SharedTypes
  import opened Sorting
  import opened WaypointValidation
  import opened MavlinkCodec
  import MavlinkRoundTrip

  /** Rounding a value to the nearest 32-bit float, as a bit pattern. */
  type Quantizer = real -> Word

  datatype ExportError = NoWaypoints | NotEncodable

  const MAV_CMD_NAV_WAYPOINT := 16
  const MAV_CMD_NAV_TAKEOFF := 22
  const MAV_FRAME_GLOBAL_RELATIVE_ALT_INT := 6
  const DEFAULT_SYSTEM_ID := 1
  const DEFAULT_COMPONENT_ID := 1
  const GEO_SCALE := 10_000_000.0

  /** Rounds halves up, as the runtime's Math.round does. */
  function EncodeDegrees(deg: real): int {
    (deg * GEO_SCALE + 0.5).Floor
  }

  predicate SeqBefore(a: Waypoint, b: Waypoint) {
    a.seq_ < b.seq_
  }

  function SortedWaypoints(waypoints: seq<Waypoint>): (r: seq<Waypoint>)
    ensures |r| == |waypoints| && multiset(r) == multiset(waypoints)
  {
    Sort(waypoints, SeqBefore)
  }

  function MakeHomeItem(first: Waypoint, f32: Quantizer): MissionItem {
    MissionItem(
      0, MAV_FRAME_GLOBAL_RELATIVE_ALT_INT, MAV_CMD_NAV_TAKEOFF, 1, 1, 0, 0, 0, 0,
      EncodeDegrees(first.lat), EncodeDegrees(first.lon), f32(first.altitude),
      DEFAULT_SYSTEM_ID, DEFAULT_COMPONENT_ID, 0)
  }

  function MakeWaypointItem(wp: Waypoint, seq_: int, f32: Quantizer): MissionItem {
    MissionItem(
      seq_, MAV_FRAME_GLOBAL_RELATIVE_ALT_INT, MAV_CMD_NAV_WAYPOINT, 0, 1,
      f32(wp.loiterTime), 0, 0, f32(wp.gimbalAngle),
      EncodeDegrees(wp.lat), EncodeDegrees(wp.lon), f32(wp.altitude),
      DEFAULT_SYSTEM_ID, DEFAULT_COMPONENT_ID, 0)
  }

  function WaypointItems(waypoints: seq<Waypoint>, f32: Quantizer): (items: seq<MissionItem>)
    ensures |items| == |waypoints|
    ensures forall i :: 0 <= i < |items| ==> items[i] == MakeWaypointItem(waypoints[i], i + 1, f32)
  {
    if waypoints == [] then []
    else
      var n := |waypoints| - 1;
      WaypointItems(waypoints[..n], f32) + [MakeWaypointItem(waypoints[n], n + 1, f32)]
  }

  /** The item list as a function of the waypoints. */
  function Items(waypoints: seq<Waypoint>, f32: Quantizer): (items: seq<MissionItem>)
    requires waypoints != []
    ensures |items| == |waypoints| + 1
  {
    var sorted := SortedWaypoints(waypoints);
    [MakeHomeItem(sorted[0], f32)] + WaypointItems(sorted, f32)
  }

  method BuildMissionItems(waypoints: seq<Waypoint>, f32: Quantizer) returns (r: Result<seq<MissionItem>, ExportError>)
    ensures r == if waypoints == [] then Err(NoWaypoints) else Ok(Items(waypoints, f32))
  {
    hide SortedWaypoints, MakeWaypointItem, MakeHomeItem;
    var sorted := SortedWaypoints(waypoints);
    if |sorted| == 0 {
      return Err(NoWaypoints);
    }
    var items := [];
    items := items + [MakeHomeItem(sorted[0], f32)];
    for index := 0 to |sorted|
      invariant items == [MakeHomeItem(sorted[0], f32)] + WaypointItems(sorted[..index], f32)
    {
      assert sorted[..index + 1][..index] == sorted[..index];
      items := items + [MakeWaypointItem(sorted[index], index + 1, f32)];
    }
    assert sorted[..|sorted|] == sorted;
    return Ok(items);
  }

  datatype MavlinkFormat = Json | Binary

  /** The items, and their bytes in the binary format. */
  method ExportMavlink(waypoints: seq<Waypoint>, format: MavlinkFormat, f32: Quantizer)
    returns (r: Result<(seq<MissionItem>, Option<array<Byte>>), ExportError>)
    ensures waypoints == [] ==> r == Err(NoWaypoints)
    ensures waypoints != [] ==> (r.Ok? <==> format == Json || Encodable(Items(waypoints, f32)))
    ensures r.Ok? ==> r.value.0 == Items(waypoints, f32) && (r.value.1.Some? <==> format == Binary)
    ensures r.Ok? && format == Binary ==> r.value.1.value[..] == Encoded(r.value.0)
  {
    var built := BuildMissionItems(waypoints, f32);
    match built {
      case Err(e) => return Err(e);
      case Ok(items) =>
        if format != Binary {
          return Ok((items, None));
        }
        var encoded := EncodeBinary(items);
        match encoded {
          case Err(_) => return Err(NotEncodable);
          case Ok(bytes) => return Ok((items, Some(bytes)));
        }
    }
  }

  // ----- what the item list is for a valid mission -----

  lemma CoordinatesFit(deg: real)
    requires -180.0 <= deg <= 180.0
    ensures FitsI32(EncodeDegrees(deg))
  {
    assert -1_800_000_000.0 <= deg * GEO_SCALE <= 1_800_000_000.0;
  }

  /** Sorting a contiguous sequence puts every waypoint at the index it names. */
  lemma SortedByIndex(waypoints: seq<Waypoint>)
    requires Contiguous(waypoints)
    ensures forall i :: 0 <= i < |waypoints| ==>
      SortedWaypoints(waypoints)[i] in waypoints && SortedWaypoints(waypoints)[i].seq_ == i
  {
    var sorted := SortedWaypoints(waypoints);
    SameMembers(waypoints, sorted);
    assert WeakOrder(SeqBefore);
    SortSorts(waypoints, SeqBefore);
    KeysStayDistinct(waypoints, sorted, (wp: Waypoint) => wp.seq_);
    var s := Seqs(sorted);
    forall j | 0 <= j < |s| ensures 0 <= s[j] < |s| {
      assert sorted[j] in waypoints;
    }
    forall i, j | 0 <= i < j < |s| ensures s[i] != s[j] && !NumberBefore(s[j], s[i]) {
      assert !SeqBefore(sorted[j], sorted[i]);
    }
    forall i | 0 <= i < |sorted| ensures sorted[i] in waypoints && sorted[i].seq_ == i {
      SortedBelowLength(s, i);
      SortedAboveBound(s, i);
    }
  }

  lemma SortedAt(waypoints: seq<Waypoint>, wp: Waypoint)
    requires Contiguous(waypoints) && wp in waypoints
    ensures 0 <= wp.seq_ < |waypoints| && SortedWaypoints(waypoints)[wp.seq_] == wp
  {
    hide Contiguous, SortedWaypoints;
    SortedByIndex(waypoints);
    var sorted := SortedWaypoints(waypoints);
    SameMembers(waypoints, sorted);
    var i :| 0 <= i < |sorted| && sorted[i] == wp;
  }

  /** The number of ten-millionths of a degree next to the angle, the higher one from halfway between two. */
  ghost predicate Scaled(v: int, deg: real) {
    -0.5 < v as real - deg * 10_000_000.0 <= 0.5
  }

  /** What every item says of the place it goes to, and of itself. */
  ghost predicate GoesTo(item: MissionItem, wp: Waypoint, seq_: int, f32: Quantizer) {
    && item.seq_ == seq_ && item.frame == 6 && item.autocontinue == 1 && item.missionType == 0
    && item.targetSystem == 1 && item.targetComponent == 1
    && Scaled(item.x, wp.lat) && Scaled(item.y, wp.lon) && item.z == f32(wp.altitude)
  }

  /** The item is the takeoff at the waypoint. */
  ghost predicate TakesOffAt(item: MissionItem, wp: Waypoint, f32: Quantizer) {
    && GoesTo(item, wp, 0, f32) && item.command == 22 && item.current == 1
    && item.param1 == 0 && item.param2 == 0 && item.param3 == 0 && item.param4 == 0
  }

  /** The item flies to the waypoint, waits there, and points the gimbal. */
  ghost predicate FliesTo(item: MissionItem, wp: Waypoint, seq_: int, f32: Quantizer) {
    && GoesTo(item, wp, seq_, f32) && item.command == 16 && item.current == 0
    && item.param1 == f32(wp.loiterTime) && item.param2 == 0 && item.param3 == 0 && item.param4 == f32(wp.gimbalAngle)
  }

  lemma EncodedIsScaled(deg: real)
    ensures Scaled(EncodeDegrees(deg), deg)
  {
  }

  /** Item 0 is the takeoff at the waypoint of seq 0, and item k + 1 flies to the waypoint of seq k. */
  lemma ItemsOfValidMission(waypoints: seq<Waypoint>, f32: Quantizer, wp: Waypoint)
    requires Contiguous(waypoints) && wp in waypoints
    ensures var items := Items(waypoints, f32);
            && |items| == |waypoints| + 1
            && 0 <= wp.seq_ < |waypoints|
            && FliesTo(items[wp.seq_ + 1], wp, wp.seq_ + 1, f32)
            && (wp.seq_ == 0 ==> TakesOffAt(items[0], wp, f32))
  {
    SortedAt(waypoints, wp);
    EncodedIsScaled(wp.lat);
    EncodedIsScaled(wp.lon);
    hide Contiguous, SortedWaypoints, EncodeDegrees, Scaled;
  }

  lemma WaypointItemFits(wp: Waypoint, maxAltitude: real, seq_: int, f32: Quantizer)
    requires WaypointOk(wp, maxAltitude) && FitsU16(seq_)
    ensures Fits(MakeWaypointItem(wp, seq_, f32)) && Fits(MakeHomeItem(wp, f32))
  {
    CoordinatesFit(wp.lat);
    CoordinatesFit(wp.lon);
  }

  lemma ItemFits(waypoints: seq<Waypoint>, maxAltitude: real, f32: Quantizer, k: nat)
    requires ValidWaypoints(waypoints, maxAltitude) && 0 < |waypoints| <= 65534 && k <= |waypoints|
    ensures Fits(Items(waypoints, f32)[k])
  {
    SortedByIndex(waypoints);
    var wp := SortedWaypoints(waypoints)[if k == 0 then 0 else k - 1];
    var i :| 0 <= i < |waypoints| && waypoints[i] == wp;
    WaypointItemFits(wp, maxAltitude, k, f32);
    ItemsOfValidMission(waypoints, f32, wp);
  }

  /** A valid non-empty mission can be exported exactly when it has at most 65534 waypoints. */
  lemma ValidMissionExportsIff(waypoints: seq<Waypoint>, maxAltitude: real, f32: Quantizer)
    requires waypoints != [] && ValidWaypoints(waypoints, maxAltitude)
    ensures Encodable(Items(waypoints, f32)) <==> |waypoints| <= 65534
  {
    hide ValidWaypoints, Fits;
    var items := Items(waypoints, f32);
    if |waypoints| <= 65534 {
      forall item | item in items ensures Fits(item) {
        var k :| 0 <= k < |items| && items[k] == item;
        ItemFits(waypoints, maxAltitude, f32, k);
      }
    }
  }

  /** Listing the waypoints of a valid mission in another order changes neither its items nor its bytes. */
  lemma OrderOfWaypointsIsIrrelevant(a: seq<Waypoint>, b: seq<Waypoint>, f32: Quantizer)
    requires a != [] && Contiguous(a) && multiset(a) == multiset(b)
    ensures b != [] && Items(a, f32) == Items(b, f32)
  {
    assert |multiset(a)| == |a| && |multiset(b)| == |b|;
    assert WeakOrder(SeqBefore);
    SortSorts(a, SeqBefore);
    SortSorts(b, SeqBefore);
    SameMembers(a, SortedWaypoints(a));
    forall x, y | x in a && y in a && x != y ensures x.seq_ != y.seq_ {
      var i :| 0 <= i < |a| && a[i] == x;
      var j :| 0 <= j < |a| && a[j] == y;
    }
    SortedListingUnique(SortedWaypoints(a), SortedWaypoints(b), SeqBefore);
  }

  /** The exported bytes of a valid mission parse back to its items. */
  lemma ExportRoundTrip(waypoints: seq<Waypoint>, maxAltitude: real, f32: Quantizer)
    requires 1 <= |waypoints| <= 65534 && ValidWaypoints(waypoints, maxAltitude)
    ensures Encodable(Items(waypoints, f32)) && Parsed(Encoded(Items(waypoints, f32))) == Ok(Items(waypoints, f32))
  {
    ValidMissionExportsIff(waypoints, maxAltitude, f32);
    MavlinkRoundTrip.RoundTrip(Items(waypoints, f32));
  }
}
