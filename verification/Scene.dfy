/** Scene events from stitched tracks: people entering zones, stopped vehicles, gatherings. Whether a zone
    covers a point is a parameter; coordinates and times are exact. */
module Scene {
  import opened SharedTypes
  import opened Sorting

  datatype TrackPoint = TrackPoint(ts: real, x: real, y: real)

  datatype SceneTrack = SceneTrack(id: string, cls: string, points: seq<TrackPoint>)

  type Polygon = seq<(real, real)>

  datatype Zone = Zone(id: string, polygon: Polygon)

  datatype Kind = GroupGathering | PersonEnteredZone | VehicleStopped

  datatype SceneEvent = SceneEvent(kind: Kind, zoneId: string, trackIds: seq<string>, ts: real)

  datatype Settings = Settings(
    covers: (Polygon, real, real) -> bool,
    moveEps: real,
    stoppedSeconds: real,
    groupThreshold: int
  )

  /** Taking the maximum of nothing. */
  datatype SceneError = MaxOfNothing

  const PERSON_CLASS := "person"
  const VEHICLE_CLASS := "vehicle"

  // ----- orders -----

  predicate PointBefore(a: TrackPoint, b: TrackPoint) {
    a.ts < b.ts || (a.ts == b.ts && (a.x < b.x || (a.x == b.x && a.y < b.y)))
  }

  predicate IdsBefore(a: seq<string>, b: seq<string>) {
    if b == [] then false
    else if a == [] then true
    else if a[0] != b[0] then StringBefore(a[0], b[0])
    else IdsBefore(a[1..], b[1..])
  }

  function Rank(kind: Kind): nat {
    match kind
    case GroupGathering => 0
    case PersonEnteredZone => 1
    case VehicleStopped => 2
  }

  /** Kinds in the alphabetical order of their names, then zone, time and participants. */
  predicate EventBefore(a: SceneEvent, b: SceneEvent) {
    if a.kind != b.kind then Rank(a.kind) < Rank(b.kind)
    else if a.zoneId != b.zoneId then StringBefore(a.zoneId, b.zoneId)
    else if a.ts != b.ts then a.ts < b.ts
    else IdsBefore(a.trackIds, b.trackIds)
  }

  // ----- histories -----

  function OrderedPoints(points: seq<TrackPoint>): seq<TrackPoint> {
    Sort(points, PointBefore)
  }

  /** The history filed under an id: that of the last track listed with it. */
  function HistoryOf(tracks: seq<SceneTrack>, id: string): seq<TrackPoint> {
    if tracks == [] then []
    else
      var last := tracks[|tracks| - 1];
      if last.id == id then OrderedPoints(last.points) else HistoryOf(tracks[..|tracks| - 1], id)
  }

  function Inside(s: Settings, zone: Zone, p: TrackPoint): bool {
    s.covers(zone.polygon, p.x, p.y)
  }

  /** The straight-line distance between the points is below eps. */
  predicate SlowStep(prev: TrackPoint, cur: TrackPoint, eps: real) {
    eps > 0.0 && (prev.x - cur.x) * (prev.x - cur.x) + (prev.y - cur.y) * (prev.y - cur.y) < eps * eps
  }

  /** The steps from position k to the end are all slow. */
  predicate SlowFrom(points: seq<TrackPoint>, eps: real, k: nat) {
    forall j :: k < j < |points| ==> SlowStep(points[j - 1], points[j], eps)
  }

  function RunStart(points: seq<TrackPoint>, eps: real, k: nat): (start: nat)
    requires k < |points|
    ensures start <= k
  {
    if k > 0 && SlowStep(points[k - 1], points[k], eps) then RunStart(points, eps, k - 1) else k
  }

  function TrailingSpan(points: seq<TrackPoint>, eps: real): real {
    if points == [] then 0.0 else points[|points| - 1].ts - points[RunStart(points, eps, |points| - 1)].ts
  }

  method TrailingStationarySpan(points: seq<TrackPoint>, moveEps: real) returns (span: real)
    ensures span == TrailingSpan(points, moveEps)
  {
    if |points| < 2 {
      return 0.0;
    }
    var latest := points[|points| - 1];
    var earliest := latest.ts;
    var k := |points| - 1;
    while k > 0
      invariant 0 <= k < |points|
      invariant earliest == points[k].ts
      invariant RunStart(points, moveEps, |points| - 1) == RunStart(points, moveEps, k)
    {
      if !SlowStep(points[k - 1], points[k], moveEps) {
        break;
      }
      earliest := points[k - 1].ts;
      k := k - 1;
    }
    span := latest.ts - earliest;
  }

  // ----- what the classifier computes -----

  function PairEvents(s: Settings, track: SceneTrack, pts: seq<TrackPoint>, zone: Zone): seq<SceneEvent>
    requires pts != []
  {
    var latest := pts[|pts| - 1];
    if track.cls == PERSON_CLASS then
      if |pts| >= 2 && Inside(s, zone, latest) && !Inside(s, zone, pts[|pts| - 2])
      then [SceneEvent(PersonEnteredZone, zone.id, [track.id], latest.ts)] else []
    else if track.cls == VEHICLE_CLASS && Inside(s, zone, latest) && TrailingSpan(pts, s.moveEps) > s.stoppedSeconds
    then [SceneEvent(VehicleStopped, zone.id, [track.id], latest.ts)] else []
  }

  datatype Occupant = Occupant(id: string, ts: real)

  function PairOccupants(s: Settings, track: SceneTrack, pts: seq<TrackPoint>, zone: Zone): seq<Occupant>
    requires pts != []
  {
    var latest := pts[|pts| - 1];
    if track.cls == PERSON_CLASS && Inside(s, zone, latest) then [Occupant(track.id, latest.ts)] else []
  }

  function RowEvents(s: Settings, track: SceneTrack, pts: seq<TrackPoint>, zones: seq<Zone>): seq<SceneEvent>
    requires pts != []
  {
    if zones == [] then []
    else RowEvents(s, track, pts, zones[..|zones| - 1]) + PairEvents(s, track, pts, zones[|zones| - 1])
  }

  function RowOccupants(s: Settings, track: SceneTrack, pts: seq<TrackPoint>, zones: seq<Zone>, id: string)
    : seq<Occupant>
    requires pts != []
  {
    if zones == [] then []
    else
      var zone := zones[|zones| - 1];
      RowOccupants(s, track, pts, zones[..|zones| - 1], id)
      + if zone.id == id then PairOccupants(s, track, pts, zone) else []
  }

  /** The events of the first n tracks. */
  function TrackEvents(s: Settings, tracks: seq<SceneTrack>, zones: seq<Zone>, n: nat): seq<SceneEvent>
    requires n <= |tracks|
  {
    if n == 0 then []
    else
      var pts := HistoryOf(tracks, tracks[n - 1].id);
      TrackEvents(s, tracks, zones, n - 1) + if pts == [] then [] else RowEvents(s, tracks[n - 1], pts, zones)
  }

  /** Who the first n tracks put into the zones called id. */
  function Occupants(s: Settings, tracks: seq<SceneTrack>, zones: seq<Zone>, n: nat, id: string): seq<Occupant>
    requires n <= |tracks|
  {
    if n == 0 then []
    else
      var pts := HistoryOf(tracks, tracks[n - 1].id);
      Occupants(s, tracks, zones, n - 1, id) + if pts == [] then [] else RowOccupants(s, tracks[n - 1], pts, zones, id)
  }

  function DistinctIds(members: seq<Occupant>): seq<string> {
    if members == [] then []
    else
      var front, last := DistinctIds(members[..|members| - 1]), members[|members| - 1].id;
      if last in front then front else front + [last]
  }

  function SortedIds(members: seq<Occupant>): seq<string> {
    Sort(DistinctIds(members), StringBefore)
  }

  function LatestTs(members: seq<Occupant>): real
    requires members != []
  {
    var last := members[|members| - 1].ts;
    if |members| == 1 then last
    else
      var front := LatestTs(members[..|members| - 1]);
      if last > front then last else front
  }

  function GroupEvents(s: Settings, tracks: seq<SceneTrack>, zones: seq<Zone>, n: nat): seq<SceneEvent>
    requires n <= |zones|
  {
    if n == 0 then []
    else
      var id := zones[n - 1].id;
      var members := Occupants(s, tracks, zones, |tracks|, id);
      GroupEvents(s, tracks, zones, n - 1)
      + if members != [] && |SortedIds(members)| > s.groupThreshold
        then [SceneEvent(GroupGathering, id, SortedIds(members), LatestTs(members))] else []
  }

  /** A negative threshold makes an empty zone a gathering of nobody. */
  predicate NobodyGathers(s: Settings, tracks: seq<SceneTrack>, zones: seq<Zone>, n: nat)
    requires n <= |zones|
  {
    s.groupThreshold < 0 && exists k :: 0 <= k < n && Occupants(s, tracks, zones, |tracks|, zones[k].id) == []
  }

  function Listed(s: Settings, tracks: seq<SceneTrack>, zones: seq<Zone>): seq<SceneEvent> {
    TrackEvents(s, tracks, zones, |tracks|) + GroupEvents(s, tracks, zones, |zones|)
  }

  function Classified(s: Settings, tracks: seq<SceneTrack>, zones: seq<Zone>): Result<seq<SceneEvent>, SceneError> {
    if NobodyGathers(s, tracks, zones, |zones|) then Err(MaxOfNothing)
    else Ok(Sort(Listed(s, tracks, zones), EventBefore))
  }

  // ----- the classifier -----

  lemma NextHistory(tracks: seq<SceneTrack>, n: nat, id: string)
    requires n < |tracks|
    ensures HistoryOf(tracks[..n + 1], id)
         == if tracks[n].id == id then OrderedPoints(tracks[n].points) else HistoryOf(tracks[..n], id)
  {
    assert tracks[..n + 1][..n] == tracks[..n];
  }

  lemma NextRow(s: Settings, track: SceneTrack, pts: seq<TrackPoint>, zones: seq<Zone>, n: nat, id: string)
    requires pts != [] && n < |zones|
    ensures RowEvents(s, track, pts, zones[..n + 1])
      == RowEvents(s, track, pts, zones[..n]) + PairEvents(s, track, pts, zones[n])
    ensures RowOccupants(s, track, pts, zones[..n + 1], id)
         == RowOccupants(s, track, pts, zones[..n], id)
            + if zones[n].id == id then PairOccupants(s, track, pts, zones[n]) else []
  {
    assert zones[..n + 1][..n] == zones[..n];
  }

  ghost predicate Filed(tracks: seq<SceneTrack>, n: nat, ordered: map<string, seq<TrackPoint>>)
    requires n <= |tracks|
  {
    && (forall k :: 0 <= k < n ==> tracks[k].id in ordered)
    && (forall id :: id in ordered ==> ordered[id] == HistoryOf(tracks[..n], id))
  }

  method FileHistories(tracks: seq<SceneTrack>) returns (ordered: map<string, seq<TrackPoint>>)
    ensures forall k :: 0 <= k < |tracks| ==>
      tracks[k].id in ordered && ordered[tracks[k].id] == HistoryOf(tracks, tracks[k].id)
  {
    ordered := map[];
    for n := 0 to |tracks|
      invariant Filed(tracks, n, ordered)
    {
      forall id ensures HistoryOf(tracks[..n + 1], id)
        == if tracks[n].id == id then OrderedPoints(tracks[n].points) else HistoryOf(tracks[..n], id)
      {
        NextHistory(tracks, n, id);
      }
      hide HistoryOf, OrderedPoints;
      ordered := ordered[tracks[n].id := OrderedPoints(tracks[n].points)];
    }
    assert tracks[..|tracks|] == tracks;
  }

  ghost predicate HasKeys(zones: seq<Zone>, occupancy: map<string, seq<Occupant>>) {
    forall k :: 0 <= k < |zones| ==> zones[k].id in occupancy
  }

  /** The first n tracks have been entered. */
  ghost predicate Occupied(s: Settings, tracks: seq<SceneTrack>, zones: seq<Zone>, n: nat,
      occupancy: map<string, seq<Occupant>>)
    requires n <= |tracks|
  {
    HasKeys(zones, occupancy) && forall id :: id in occupancy ==> occupancy[id] == Occupants(s, tracks, zones, n, id)
  }

  /** The first n tracks have been entered, and track n into the first m zones. */
  ghost predicate PartlyOccupied(s: Settings, tracks: seq<SceneTrack>, zones: seq<Zone>, n: nat, pts: seq<TrackPoint>,
                                 m: nat, occupancy: map<string, seq<Occupant>>)
    requires n < |tracks| && pts != [] && m <= |zones|
  {
    && HasKeys(zones, occupancy)
    && forall id :: id in occupancy ==>
      occupancy[id] == Occupants(s, tracks, zones, n, id) + RowOccupants(s, tracks[n], pts, zones[..m], id)
  }

  lemma EnterZone(s: Settings, tracks: seq<SceneTrack>, zones: seq<Zone>, n: nat, pts: seq<TrackPoint>, m: nat,
                  before: map<string, seq<Occupant>>, after: map<string, seq<Occupant>>)
    requires n < |tracks| && pts != [] && m < |zones|
    requires PartlyOccupied(s, tracks, zones, n, pts, m, before)
    requires zones[m].id in before
    requires after == if PairOccupants(s, tracks[n], pts, zones[m]) == [] then before
                      else before[zones[m].id := before[zones[m].id] + PairOccupants(s, tracks[n], pts, zones[m])]
    ensures PartlyOccupied(s, tracks, zones, n, pts, m + 1, after)
  {
    var entered := PairOccupants(s, tracks[n], pts, zones[m]);
    forall id | id in after
      ensures after[id] == Occupants(s, tracks, zones, n, id) + RowOccupants(s, tracks[n], pts, zones[..m + 1], id)
    {
      NextRow(s, tracks[n], pts, zones, m, id);
      assert before[id] == Occupants(s, tracks, zones, n, id) + RowOccupants(s, tracks[n], pts, zones[..m], id);
      hide *;
      Regroup(Occupants(s, tracks, zones, n, id), RowOccupants(s, tracks[n], pts, zones[..m], id), entered);
    }
    hide Occupants, RowOccupants, PairOccupants;
  }

  lemma Regroup<T>(a: seq<T>, b: seq<T>, c: seq<T>)
    ensures a + b + c == a + (b + c) && b + [] == b
  {
  }

  lemma AllZonesEntered(s: Settings, tracks: seq<SceneTrack>, zones: seq<Zone>, n: nat, pts: seq<TrackPoint>,
                        occupancy: map<string, seq<Occupant>>)
    requires n < |tracks| && pts != [] && pts == HistoryOf(tracks, tracks[n].id)
    ensures Occupied(s, tracks, zones, n, occupancy) ==> PartlyOccupied(s, tracks, zones, n, pts, 0, occupancy)
    ensures PartlyOccupied(s, tracks, zones, n, pts, |zones|, occupancy) ==>
      Occupied(s, tracks, zones, n + 1, occupancy)
  {
    assert zones[..|zones|] == zones && zones[..0] == [];
    forall id
      ensures Occupants(s, tracks, zones, n, id) + RowOccupants(s, tracks[n], pts, [], id)
        == Occupants(s, tracks, zones, n, id)
      ensures Occupants(s, tracks, zones, n, id) + RowOccupants(s, tracks[n], pts, zones, id)
        == Occupants(s, tracks, zones, n + 1, id)
    {
    }
    hide Occupants, RowOccupants, HistoryOf;
  }

  lemma NobodyEntered(s: Settings, tracks: seq<SceneTrack>, zones: seq<Zone>, n: nat,
      occupancy: map<string, seq<Occupant>>)
    requires n < |tracks| && HistoryOf(tracks, tracks[n].id) == [] && Occupied(s, tracks, zones, n, occupancy)
    ensures Occupied(s, tracks, zones, n + 1, occupancy)
    ensures TrackEvents(s, tracks, zones, n + 1) == TrackEvents(s, tracks, zones, n)
  {
    forall id ensures Occupants(s, tracks, zones, n + 1, id) == Occupants(s, tracks, zones, n, id) {
      assert Occupants(s, tracks, zones, n, id) + [] == Occupants(s, tracks, zones, n, id);
    }
    assert TrackEvents(s, tracks, zones, n) + [] == TrackEvents(s, tracks, zones, n);
    hide Occupants, HistoryOf;
  }

  lemma NextZone(s: Settings, tracks: seq<SceneTrack>, zones: seq<Zone>, n: nat)
    requires n < |zones|
    ensures var id := zones[n].id;
            var members := Occupants(s, tracks, zones, |tracks|, id);
            && (NobodyGathers(s, tracks, zones, n + 1) <==>
                 NobodyGathers(s, tracks, zones, n) || (s.groupThreshold < 0 && members == []))
            && (members != [] && |SortedIds(members)| > s.groupThreshold ==>
                 GroupEvents(s, tracks, zones, n + 1)
                 == GroupEvents(s, tracks, zones, n)
                   + [SceneEvent(GroupGathering, id, SortedIds(members), LatestTs(members))])
            && (members == [] || |SortedIds(members)| <= s.groupThreshold ==>
                 GroupEvents(s, tracks, zones, n + 1) == GroupEvents(s, tracks, zones, n))
  {
    hide Occupants, SortedIds, LatestTs;
  }

  lemma FirstNobody(s: Settings, tracks: seq<SceneTrack>, zones: seq<Zone>, n: nat)
    requires n < |zones| && s.groupThreshold < 0 && Occupants(s, tracks, zones, |tracks|, zones[n].id) == []
    ensures Classified(s, tracks, zones) == Err(MaxOfNothing)
  {
    hide Occupants;
  }

  lemma DistinctIsEmptyIff(members: seq<Occupant>)
    ensures SortedIds(members) == [] <==> members == []
  {
    if members != [] {
      assert DistinctIds(members) != [];
    }
  }

  function ZoneIds(zones: seq<Zone>): set<string> {
    set k | 0 <= k < |zones| :: zones[k].id
  }

  function EmptyOccupancy(zones: seq<Zone>): map<string, seq<Occupant>> {
    map id | id in ZoneIds(zones) :: []
  }

  lemma NothingEntered(s: Settings, tracks: seq<SceneTrack>, zones: seq<Zone>)
    ensures Occupied(s, tracks, zones, 0, EmptyOccupancy(zones))
    ensures TrackEvents(s, tracks, zones, 0) == []
  {
  }

  /** One track against one zone. */
  method VisitZone(s: Settings, track: SceneTrack, pts: seq<TrackPoint>, zone: Zone,
      occupied: map<string, seq<Occupant>>)
    returns (events: seq<SceneEvent>, occupancy: map<string, seq<Occupant>>)
    requires pts != [] && zone.id in occupied
    ensures events == PairEvents(s, track, pts, zone)
    ensures occupancy == if PairOccupants(s, track, pts, zone) == [] then occupied
                         else occupied[zone.id := occupied[zone.id] + PairOccupants(s, track, pts, zone)]
  {
    hide TrailingSpan, Inside;
    var latest := pts[|pts| - 1];
    events, occupancy := [], occupied;
    var latestInside := Inside(s, zone, latest);
    if track.cls == PERSON_CLASS {
      if |pts| >= 2 && latestInside && !Inside(s, zone, pts[|pts| - 2]) {
        events := [SceneEvent(PersonEnteredZone, zone.id, [track.id], latest.ts)];
      }
      if latestInside {
        occupancy := occupancy[zone.id := occupancy[zone.id] + [Occupant(track.id, latest.ts)]];
      }
    } else if track.cls == VEHICLE_CLASS {
      if latestInside {
        var span := TrailingStationarySpan(pts, s.moveEps);
        if span > s.stoppedSeconds {
          events := [SceneEvent(VehicleStopped, zone.id, [track.id], latest.ts)];
        }
      }
    }
  }

  /** One track against every zone. */
  method VisitZones(s: Settings, tracks: seq<SceneTrack>, zones: seq<Zone>, n: nat, pts: seq<TrackPoint>,
                    occupied: map<string, seq<Occupant>>)
    returns (events: seq<SceneEvent>, occupancy: map<string, seq<Occupant>>)
    requires n < |tracks| && pts != [] && pts == HistoryOf(tracks, tracks[n].id)
    requires Occupied(s, tracks, zones, n, occupied)
    ensures events == RowEvents(s, tracks[n], pts, zones)
    ensures Occupied(s, tracks, zones, n + 1, occupancy)
  {
    events, occupancy := [], occupied;
    AllZonesEntered(s, tracks, zones, n, pts, occupancy);
    hide HistoryOf, Occupied, PairEvents, PairOccupants;
    for m := 0 to |zones|
      invariant events == RowEvents(s, tracks[n], pts, zones[..m])
      invariant PartlyOccupied(s, tracks, zones, n, pts, m, occupancy)
    {
      assert zones[m].id in occupancy;
      NextRow(s, tracks[n], pts, zones, m, "");
      hide RowEvents, PartlyOccupied;
      ghost var before := occupancy;
      var found: seq<SceneEvent>;
      found, occupancy := VisitZone(s, tracks[n], pts, zones[m], occupancy);
      events := events + found;
      EnterZone(s, tracks, zones, n, pts, m, before, occupancy);
    }
    assert zones[..|zones|] == zones;
    AllZonesEntered(s, tracks, zones, n, pts, occupancy);
  }

  lemma NextTrack(s: Settings, tracks: seq<SceneTrack>, zones: seq<Zone>, n: nat)
    requires n < |tracks| && HistoryOf(tracks, tracks[n].id) != []
    ensures TrackEvents(s, tracks, zones, n + 1)
         == TrackEvents(s, tracks, zones, n) + RowEvents(s, tracks[n], HistoryOf(tracks, tracks[n].id), zones)
  {
  }

  /** Every track against every zone. */
  method VisitTracks(s: Settings, tracks: seq<SceneTrack>, zones: seq<Zone>)
    returns (events: seq<SceneEvent>, occupancy: map<string, seq<Occupant>>)
    ensures events == TrackEvents(s, tracks, zones, |tracks|)
    ensures Occupied(s, tracks, zones, |tracks|, occupancy)
  {
    var ordered := FileHistories(tracks);
    events, occupancy := [], EmptyOccupancy(zones);
    NothingEntered(s, tracks, zones);
    hide *;
    for n := 0 to |tracks|
      invariant events == TrackEvents(s, tracks, zones, n)
      invariant Occupied(s, tracks, zones, n, occupancy)
    {
      var pts := ordered[tracks[n].id];
      if pts == [] {
        NobodyEntered(s, tracks, zones, n, occupancy);
        continue;
      }
      NextTrack(s, tracks, zones, n);
      var found: seq<SceneEvent>;
      found, occupancy := VisitZones(s, tracks, zones, n, pts, occupancy);
      events := events + found;
    }
  }

  method ClassifySceneEvents(s: Settings, tracks: seq<SceneTrack>, zones: seq<Zone>)
    returns (r: Result<seq<SceneEvent>, SceneError>)
    ensures r == Classified(s, tracks, zones)
  {
    var events, occupancy := VisitTracks(s, tracks, zones);
    hide SortedIds, LatestTs, TrackEvents, Occupants, EventBefore;
    assert forall n :: 0 <= n < |zones| ==>
      zones[n].id in occupancy && occupancy[zones[n].id] == Occupants(s, tracks, zones, |tracks|, zones[n].id);
    hide Occupied, HasKeys;
    for n := 0 to |zones|
      invariant events == TrackEvents(s, tracks, zones, |tracks|) + GroupEvents(s, tracks, zones, n)
      invariant !NobodyGathers(s, tracks, zones, n)
    {
      var members := occupancy[zones[n].id];
      var distinct := SortedIds(members);
      DistinctIsEmptyIff(members);
      NextZone(s, tracks, zones, n);
      hide GroupEvents, NobodyGathers;
      if |distinct| > s.groupThreshold {
        if members == [] {
          FirstNobody(s, tracks, zones, n);
          return Err(MaxOfNothing);
        }
        events := events + [SceneEvent(GroupGathering, zones[n].id, distinct, LatestTs(members))];
      }
    }
    r := Ok(Sort(events, EventBefore));
  }
}
