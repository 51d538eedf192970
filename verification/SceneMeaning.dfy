/** The classified events, said without the loops: exactly the declared ones, whatever the listing order. */
module SceneMeaning {
  import opened SharedTypes
  import opened Sorting
  import opened Scene
  import opened SceneOrder

  // ----- stopped vehicles -----

  lemma SlowAt(points: seq<TrackPoint>, eps: real, j: nat, k: nat)
    requires j < k < |points| && SlowFrom(points, eps, j)
    ensures SlowStep(points[k - 1], points[k], eps)
  {
    hide SlowStep;
  }

  /** RunStart is where the longest slow run that ends at the latest sample begins. */
  lemma {:induction false} RunStartIsLongest(points: seq<TrackPoint>, eps: real, k: nat)
    requires k < |points| && SlowFrom(points, eps, k)
    ensures SlowFrom(points, eps, RunStart(points, eps, k))
    ensures forall j: nat :: j < |points| && SlowFrom(points, eps, j) ==> RunStart(points, eps, k) <= j
  {
    hide SlowStep;
    if k > 0 && SlowStep(points[k - 1], points[k], eps) {
      RunStartIsLongest(points, eps, k - 1);
    } else {
      forall j: nat | j < |points| && SlowFrom(points, eps, j) ensures k <= j {
        if j < k {
          SlowAt(points, eps, j, k);
        }
      }
    }
  }

  predicate InTimeOrder(pts: seq<TrackPoint>) {
    forall i, j :: 0 <= i < j < |pts| ==> pts[i].ts <= pts[j].ts
  }

  /** The straight-line distance between the two points is below d. */
  ghost predicate Near(p: TrackPoint, q: TrackPoint, d: real) {
    d > 0.0 && (p.x - q.x) * (p.x - q.x) + (p.y - q.y) * (p.y - q.y) < d * d
  }

  /** From sample k on, no step goes as far as d. */
  ghost predicate StandsFrom(pts: seq<TrackPoint>, d: real, k: nat) {
    forall j :: k < j < |pts| ==> Near(pts[j - 1], pts[j], d)
  }

  /** The vehicle has stood for longer than that up to the latest sample. */
  ghost predicate StoodLongerThan(pts: seq<TrackPoint>, d: real, seconds: real) {
    exists k: nat :: k < |pts| && StandsFrom(pts, d, k) && pts[|pts| - 1].ts - pts[k].ts > seconds
  }

  lemma SlowIsStanding(pts: seq<TrackPoint>, eps: real, k: nat)
    ensures SlowFrom(pts, eps, k) <==> StandsFrom(pts, eps, k)
  {
    forall j | k < j < |pts| ensures SlowStep(pts[j - 1], pts[j], eps) <==> Near(pts[j - 1], pts[j], eps) {
    }
    hide SlowStep, Near;
  }

  lemma SpanExceedsIff(pts: seq<TrackPoint>, eps: real, seconds: real)
    requires pts != [] && InTimeOrder(pts)
    ensures TrailingSpan(pts, eps) > seconds <==> StoodLongerThan(pts, eps, seconds)
  {
    RunStartIsLongest(pts, eps, |pts| - 1);
    forall k: nat | k < |pts| ensures SlowFrom(pts, eps, k) <==> StandsFrom(pts, eps, k) {
      SlowIsStanding(pts, eps, k);
    }
    hide SlowStep, SlowFrom, StandsFrom, RunStart;
  }

  // ----- the declared events -----

  /** The zone covers the place of the sample. */
  ghost predicate Within(s: Settings, zone: Zone, p: TrackPoint) {
    s.covers(zone.polygon, p.x, p.y)
  }

  ghost predicate Entered(s: Settings, pts: seq<TrackPoint>, zone: Zone) {
    |pts| >= 2 && Within(s, zone, pts[|pts| - 1]) && !Within(s, zone, pts[|pts| - 2])
  }

  ghost predicate Stopped(s: Settings, pts: seq<TrackPoint>, zone: Zone) {
    |pts| >= 1 && Within(s, zone, pts[|pts| - 1]) && StoodLongerThan(pts, s.moveEps, s.stoppedSeconds)
  }

  ghost predicate Names(e: SceneEvent, kind: Kind, track: SceneTrack, pts: seq<TrackPoint>, zone: Zone) {
    |pts| >= 1 && e == SceneEvent(kind, zone.id, [track.id], pts[|pts| - 1].ts)
  }

  ghost predicate DeclaredPair(s: Settings, track: SceneTrack, pts: seq<TrackPoint>, zone: Zone, e: SceneEvent) {
    || (track.cls == "person" && Entered(s, pts, zone) && Names(e, PersonEnteredZone, track, pts, zone))
    || (track.cls == "vehicle" && Stopped(s, pts, zone) && Names(e, VehicleStopped, track, pts, zone))
  }

  ghost predicate DeclaredSomewhere(s: Settings, track: SceneTrack, pts: seq<TrackPoint>, zones: seq<Zone>,
      e: SceneEvent)
  {
    exists z :: z in zones && DeclaredPair(s, track, pts, z, e)
  }

  /** A person track puts this occupant into a zone called id. */
  ghost predicate Present(s: Settings, tracks: seq<SceneTrack>, zones: seq<Zone>, id: string, o: Occupant) {
    exists k :: 0 <= k < |tracks| && PresentSomewhere(s, tracks[k], HistoryOf(tracks, tracks[k].id), zones, id, o)
  }

  ghost predicate PresentSomewhere(s: Settings, track: SceneTrack, pts: seq<TrackPoint>, zones: seq<Zone>, id: string,
      o: Occupant)
  {
    exists z :: z in zones && z.id == id && PresentIn(s, track, pts, z, o)
  }

  ghost predicate PresentIn(s: Settings, track: SceneTrack, pts: seq<TrackPoint>, zone: Zone, o: Occupant) {
    |pts| >= 1 && track.cls == "person" && Within(s, zone, pts[|pts| - 1])
      && o == Occupant(track.id, pts[|pts| - 1].ts)
  }

  ghost predicate Ascending(ids: seq<string>) {
    Sorted(ids, StringBefore) && NoRepeats(ids)
  }

  /** The event lists, in ascending order, everyone present, more than the threshold, at the latest of their times. */
  ghost predicate Gathering(present: iset<Occupant>, threshold: int, e: SceneEvent) {
    && Ascending(e.trackIds)
    && (forall id :: id in e.trackIds <==> exists o :: o in present && o.id == id)
    && |e.trackIds| > threshold
    && (exists o :: o in present && o.ts == e.ts)
    && (forall o :: o in present ==> o.ts <= e.ts)
  }

  ghost function Everyone(s: Settings, tracks: seq<SceneTrack>, zones: seq<Zone>, id: string): iset<Occupant> {
    iset o | Present(s, tracks, zones, id, o)
  }

  ghost predicate GathersAt(s: Settings, tracks: seq<SceneTrack>, zones: seq<Zone>, zone: Zone, e: SceneEvent) {
    e.zoneId == zone.id && Gathering(Everyone(s, tracks, zones, zone.id), s.groupThreshold, e)
  }

  ghost predicate Declared(s: Settings, tracks: seq<SceneTrack>, zones: seq<Zone>, e: SceneEvent) {
    || (exists k :: 0 <= k < |tracks| && DeclaredSomewhere(s, tracks[k], HistoryOf(tracks, tracks[k].id), zones, e))
    || (e.kind == GroupGathering && exists k :: 0 <= k < |zones| && GathersAt(s, tracks, zones, zones[k], e))
  }

  // ----- tracks against zones -----

  lemma {:induction false} HistoriesAreInTimeOrder(tracks: seq<SceneTrack>, id: string)
    ensures InTimeOrder(HistoryOf(tracks, id))
  {
    if tracks != [] {
      HistoryIsInTimeOrder(tracks[|tracks| - 1].points);
      HistoriesAreInTimeOrder(tracks[..|tracks| - 1], id);
    }
  }

  lemma PairIsDeclared(s: Settings, track: SceneTrack, pts: seq<TrackPoint>, zone: Zone, e: SceneEvent)
    requires pts != [] && InTimeOrder(pts)
    ensures e in PairEvents(s, track, pts, zone) <==> DeclaredPair(s, track, pts, zone, e)
  {
    SpanExceedsIff(pts, s.moveEps, s.stoppedSeconds);
    hide TrailingSpan, StoodLongerThan;
  }

  lemma {:induction false} RowMembers(s: Settings, track: SceneTrack, pts: seq<TrackPoint>, zones: seq<Zone>,
      e: SceneEvent)
    requires pts != [] && InTimeOrder(pts)
    ensures e in RowEvents(s, track, pts, zones) <==> DeclaredSomewhere(s, track, pts, zones, e)
  {
    hide DeclaredPair, PairEvents, InTimeOrder;
    if zones != [] {
      var front, last := zones[..|zones| - 1], zones[|zones| - 1];
      RowMembers(s, track, pts, front, e);
      PairIsDeclared(s, track, pts, last, e);
      assert forall z :: z in zones <==> z in front || z == last;
    }
  }

  lemma {:induction false} TrackMembers(s: Settings, tracks: seq<SceneTrack>, zones: seq<Zone>, n: nat, e: SceneEvent)
    requires n <= |tracks|
    ensures e in TrackEvents(s, tracks, zones, n) <==>
      exists k :: 0 <= k < n && DeclaredSomewhere(s, tracks[k], HistoryOf(tracks, tracks[k].id), zones, e)
  {
    hide DeclaredSomewhere, HistoryOf, RowEvents;
    if n > 0 {
      TrackMembers(s, tracks, zones, n - 1, e);
      NextTrackEvents(s, tracks, zones, n - 1, e);
      hide TrackEvents;
    }
  }

  lemma NextTrackEvents(s: Settings, tracks: seq<SceneTrack>, zones: seq<Zone>, n: nat, e: SceneEvent)
    requires n < |tracks|
    ensures e in TrackEvents(s, tracks, zones, n + 1) <==>
      e in TrackEvents(s, tracks, zones, n)
        || DeclaredSomewhere(s, tracks[n], HistoryOf(tracks, tracks[n].id), zones, e)
  {
    var pts := HistoryOf(tracks, tracks[n].id);
    HistoriesAreInTimeOrder(tracks, tracks[n].id);
    if pts == [] {
      assert !DeclaredSomewhere(s, tracks[n], pts, zones, e);
    } else {
      RowMembers(s, tracks[n], pts, zones, e);
    }
    hide DeclaredSomewhere, HistoryOf, RowEvents, InTimeOrder;
  }

  // ----- gatherings -----

  lemma {:induction false} RowPresent(s: Settings, track: SceneTrack, pts: seq<TrackPoint>, zones: seq<Zone>,
      id: string, o: Occupant)
    requires pts != []
    ensures o in RowOccupants(s, track, pts, zones, id) <==> PresentSomewhere(s, track, pts, zones, id, o)
  {
    if zones != [] {
      var front, last := zones[..|zones| - 1], zones[|zones| - 1];
      RowPresent(s, track, pts, front, id, o);
      assert o in PairOccupants(s, track, pts, last) <==> PresentIn(s, track, pts, last, o);
      hide PresentIn, PairOccupants;
      assert forall z :: z in zones <==> z in front || z == last;
    }
  }

  lemma {:induction false} OccupantsArePresent(s: Settings, tracks: seq<SceneTrack>, zones: seq<Zone>, n: nat,
      id: string, o: Occupant)
    requires n <= |tracks|
    ensures o in Occupants(s, tracks, zones, n, id) <==>
      exists k :: 0 <= k < n && PresentSomewhere(s, tracks[k], HistoryOf(tracks, tracks[k].id), zones, id, o)
  {
    hide PresentSomewhere, HistoryOf, RowOccupants;
    if n > 0 {
      OccupantsArePresent(s, tracks, zones, n - 1, id, o);
      NextOccupants(s, tracks, zones, n - 1, id, o);
      hide Occupants;
    }
  }

  lemma NextOccupants(s: Settings, tracks: seq<SceneTrack>, zones: seq<Zone>, n: nat, id: string, o: Occupant)
    requires n < |tracks|
    ensures o in Occupants(s, tracks, zones, n + 1, id) <==>
      o in Occupants(s, tracks, zones, n, id)
        || PresentSomewhere(s, tracks[n], HistoryOf(tracks, tracks[n].id), zones, id, o)
  {
    var pts := HistoryOf(tracks, tracks[n].id);
    if pts == [] {
      assert !PresentSomewhere(s, tracks[n], pts, zones, id, o);
    } else {
      RowPresent(s, tracks[n], pts, zones, id, o);
    }
    hide PresentSomewhere, HistoryOf, RowOccupants;
  }

  lemma MembersAreEveryone(s: Settings, tracks: seq<SceneTrack>, zones: seq<Zone>, id: string)
    ensures forall o :: o in Occupants(s, tracks, zones, |tracks|, id) <==> o in Everyone(s, tracks, zones, id)
  {
    forall o ensures o in Occupants(s, tracks, zones, |tracks|, id) <==> Present(s, tracks, zones, id, o) {
      OccupantsArePresent(s, tracks, zones, |tracks|, id, o);
    }
    hide Present, Occupants;
  }

  lemma {:induction false} DistinctIdsAreExact(members: seq<Occupant>)
    ensures NoRepeats(DistinctIds(members))
    ensures forall id :: id in DistinctIds(members) <==> exists o :: o in members && o.id == id
  {
    if members != [] {
      var before, last := members[..|members| - 1], members[|members| - 1];
      DistinctIdsAreExact(before);
      var front := DistinctIds(before);
      assert forall o :: o in members <==> o in before || o == last;
      assert forall id :: id in DistinctIds(members) <==> id in front || id == last.id;
    }
  }

  lemma {:induction false} LatestIsExact(members: seq<Occupant>)
    requires members != []
    ensures exists o :: o in members && o.ts == LatestTs(members)
    ensures forall o :: o in members ==> o.ts <= LatestTs(members)
  {
    var last := members[|members| - 1];
    assert last in members;
    if |members| > 1 {
      var before := members[..|members| - 1];
      LatestIsExact(before);
      assert forall o :: o in members <==> o in before || o == last;
    }
  }

  lemma SortedIdsAreExact(members: seq<Occupant>)
    ensures Ascending(SortedIds(members))
    ensures forall id :: id in SortedIds(members) <==> exists o :: o in members && o.id == id
  {
    var ids := DistinctIds(members);
    DistinctIdsAreExact(members);
    StringsAreOrdered();
    SortSorts(ids, StringBefore);
    SortKeepsMembers(ids, StringBefore);
    NoRepeatsAgain(ids, SortedIds(members));
    hide DistinctIds, StringBefore;
  }

  /** Two ascending lists of the same ids are the same list. */
  lemma AscendingIsUnique(a: seq<string>, b: seq<string>)
    requires Ascending(a) && Ascending(b) && forall id :: id in a <==> id in b
    ensures a == b
  {
    SameMultiset(a, b);
    StringsAreOrdered();
    SortedListingUnique(a, b, StringBefore);
  }

  ghost predicate Same(members: seq<Occupant>, present: iset<Occupant>) {
    forall o :: o in members <==> o in present
  }

  lemma GatheringIsTheGroup(members: seq<Occupant>, present: iset<Occupant>, threshold: int, e: SceneEvent)
    requires members != [] && Same(members, present)
    ensures Gathering(present, threshold, e) <==>
      |SortedIds(members)| > threshold && e.trackIds == SortedIds(members) && e.ts == LatestTs(members)
  {
    SortedIdsAreExact(members);
    LatestIsExact(members);
    hide SortedIds, LatestTs, Ascending;
    if Gathering(present, threshold, e) {
      AscendingIsUnique(e.trackIds, SortedIds(members));
    }
  }

  lemma {:induction false} GroupMembers(s: Settings, tracks: seq<SceneTrack>, zones: seq<Zone>, n: nat, e: SceneEvent)
    requires n <= |zones|
    ensures e in GroupEvents(s, tracks, zones, n) <==>
      e.kind == GroupGathering && exists k :: 0 <= k < n && GathersAt(s, tracks, zones, zones[k], e)
  {
    hide GathersAt, Occupants, SortedIds, LatestTs;
    if n > 0 {
      GroupMembers(s, tracks, zones, n - 1, e);
      GroupAtZone(s, tracks, zones, n - 1, e);
      hide GroupEvents;
    }
  }

  lemma GroupAtZone(s: Settings, tracks: seq<SceneTrack>, zones: seq<Zone>, n: nat, e: SceneEvent)
    requires n < |zones|
    ensures e in GroupEvents(s, tracks, zones, n + 1) <==>
      e in GroupEvents(s, tracks, zones, n) || (e.kind == GroupGathering && GathersAt(s, tracks, zones, zones[n], e))
  {
    var id := zones[n].id;
    var members, present := Occupants(s, tracks, zones, |tracks|, id), Everyone(s, tracks, zones, id);
    MembersAreEveryone(s, tracks, zones, id);
    if members != [] {
      GatheringIsTheGroup(members, present, s.groupThreshold, e);
    }
    hide Gathering, Everyone, Occupants, SortedIds, LatestTs;
    if members == [] {
      NobodyIsNoGathering(present, s.groupThreshold, e);
    }
  }

  lemma NobodyIsNoGathering(present: iset<Occupant>, threshold: int, e: SceneEvent)
    requires forall o :: o !in present
    ensures !Gathering(present, threshold, e)
  {
  }

  lemma ListedIsDeclared(s: Settings, tracks: seq<SceneTrack>, zones: seq<Zone>, e: SceneEvent)
    ensures e in Listed(s, tracks, zones) <==> Declared(s, tracks, zones, e)
  {
    TrackMembers(s, tracks, zones, |tracks|, e);
    GroupMembers(s, tracks, zones, |zones|, e);
    hide TrackEvents, GroupEvents, GathersAt, DeclaredSomewhere, HistoryOf;
  }

  /** The classified events are exactly the declared ones, in order; the classifier only fails when a negative
      threshold meets a zone nobody is in. */
  lemma ClassifiedIsExact(s: Settings, tracks: seq<SceneTrack>, zones: seq<Zone>)
    ensures var r := Classified(s, tracks, zones);
            && (r.Err? <==>
                 s.groupThreshold < 0 && exists z :: z in zones && Everyone(s, tracks, zones, z.id) == iset{})
            && (r.Ok? ==>
              && (forall i, j :: 0 <= i < j < |r.value| ==> !ListedBefore(r.value[j], r.value[i]))
              && (forall e :: e in r.value <==> Declared(s, tracks, zones, e)))
  {
    var listed := Listed(s, tracks, zones);
    FailsIff(s, tracks, zones);
    EventsAreOrdered();
    SortSorts(listed, EventBefore);
    SortKeepsMembers(listed, EventBefore);
    hide TrackEvents, GroupEvents, Declared, EventBefore, Everyone, NobodyGathers, ListedBefore;
    forall a, b ensures EventBefore(a, b) <==> ListedBefore(a, b) {
      EventBeforeIff(a, b);
    }
    forall e ensures e in listed <==> Declared(s, tracks, zones, e) {
      ListedIsDeclared(s, tracks, zones, e);
    }
  }

  lemma FailsIff(s: Settings, tracks: seq<SceneTrack>, zones: seq<Zone>)
    ensures NobodyGathers(s, tracks, zones, |zones|)
       <==> s.groupThreshold < 0 && exists z :: z in zones && Everyone(s, tracks, zones, z.id) == iset{}
  {
    forall z | z in zones
      ensures Occupants(s, tracks, zones, |tracks|, z.id) == [] <==> Everyone(s, tracks, zones, z.id) == iset{}
    {
      var members := Occupants(s, tracks, zones, |tracks|, z.id);
      MembersAreEveryone(s, tracks, zones, z.id);
      if members != [] {
        assert members[0] in members;
      }
    }
    hide Occupants, Everyone;
    if z :| z in zones && Everyone(s, tracks, zones, z.id) == iset{} {
      var k :| 0 <= k < |zones| && zones[k] == z;
    }
  }

  /** The history the events are told from: the samples of the last track listed with the id, in order. */
  lemma {:induction false} HistoryIsTheLastOnes(tracks: seq<SceneTrack>, k: nat)
    requires k < |tracks| && forall l :: k < l < |tracks| ==> tracks[l].id != tracks[k].id
    ensures var pts := HistoryOf(tracks, tracks[k].id);
            multiset(pts) == multiset(tracks[k].points) && Chronological(pts)
  {
    if k == |tracks| - 1 {
      HistoryIsInTimeOrder(tracks[k].points);
    } else {
      HistoryIsTheLastOnes(tracks[..|tracks| - 1], k);
    }
  }

  // ----- the listing order does not matter -----

  ghost predicate DistinctTracks(tracks: seq<SceneTrack>) {
    forall i, j :: 0 <= i < j < |tracks| ==> tracks[i].id != tracks[j].id
  }

  ghost predicate DistinctZones(zones: seq<Zone>) {
    forall i, j :: 0 <= i < j < |zones| ==> zones[i].id != zones[j].id
  }

  /** With distinct ids a track's history is its own samples, ordered. */
  lemma {:induction false} OwnHistory(tracks: seq<SceneTrack>, t: SceneTrack)
    requires DistinctTracks(tracks) && t in tracks
    ensures HistoryOf(tracks, t.id) == OrderedPoints(t.points)
  {
    var last := tracks[|tracks| - 1];
    if t != last {
      var front := tracks[..|tracks| - 1];
      assert t in front;
      OwnHistory(front, t);
      var k :| 0 <= k < |front| && front[k] == t;
      assert tracks[k].id != last.id;
    }
  }

  lemma {:induction false} RowHasNoRepeats(s: Settings, track: SceneTrack, pts: seq<TrackPoint>, zones: seq<Zone>)
    requires pts != [] && InTimeOrder(pts) && DistinctZones(zones)
    ensures NoRepeats(RowEvents(s, track, pts, zones))
  {
    hide InTimeOrder;
    if zones != [] {
      var front, last := zones[..|zones| - 1], zones[|zones| - 1];
      RowHasNoRepeats(s, track, pts, front);
      var events := RowEvents(s, track, pts, front);
      forall e | e in events ensures e.zoneId != last.id {
        RowMembers(s, track, pts, front, e);
        var z :| z in front && DeclaredPair(s, track, pts, z, e);
        var k :| 0 <= k < |front| && front[k] == z;
        assert zones[k].id != last.id;
      }
      AppendKeepsDistinct(events, PairEvents(s, track, pts, last));
    }
  }

  lemma AppendKeepsDistinct(a: seq<SceneEvent>, b: seq<SceneEvent>)
    requires NoRepeats(a) && NoRepeats(b) && forall e :: e in a ==> e !in b
    ensures NoRepeats(a + b)
  {
    var c := a + b;
    forall i, j | 0 <= i < j < |c| ensures c[i] != c[j] {
      if i < |a| <= j {
        assert c[i] in a && c[j] in b;
      }
    }
  }

  lemma NamesItsTrack(s: Settings, track: SceneTrack, pts: seq<TrackPoint>, zones: seq<Zone>, e: SceneEvent)
    requires DeclaredSomewhere(s, track, pts, zones, e)
    ensures e.trackIds == [track.id] && e.kind != GroupGathering
  {
    hide Entered, Stopped;
  }

  lemma EarlierTrackEvent(s: Settings, tracks: seq<SceneTrack>, zones: seq<Zone>, n: nat, e: SceneEvent)
    requires n < |tracks| && DistinctTracks(tracks) && e in TrackEvents(s, tracks, zones, n)
    ensures e.trackIds != [tracks[n].id]
  {
    TrackMembers(s, tracks, zones, n, e);
    hide DeclaredSomewhere, HistoryOf, TrackEvents;
    var k :| 0 <= k < n && DeclaredSomewhere(s, tracks[k], HistoryOf(tracks, tracks[k].id), zones, e);
    NamesItsTrack(s, tracks[k], HistoryOf(tracks, tracks[k].id), zones, e);
    assert tracks[k].id != tracks[n].id;
  }

  lemma {:induction false} TracksHaveNoRepeats(s: Settings, tracks: seq<SceneTrack>, zones: seq<Zone>, n: nat)
    requires n <= |tracks| && DistinctTracks(tracks) && DistinctZones(zones)
    ensures NoRepeats(TrackEvents(s, tracks, zones, n))
  {
    hide HistoryOf, RowEvents, InTimeOrder, DeclaredSomewhere;
    if n > 0 {
      TracksHaveNoRepeats(s, tracks, zones, n - 1);
      var track := tracks[n - 1];
      var pts := HistoryOf(tracks, track.id);
      if pts != [] {
        var events, row := TrackEvents(s, tracks, zones, n - 1), RowEvents(s, track, pts, zones);
        assert TrackEvents(s, tracks, zones, n) == events + row;
        HistoriesAreInTimeOrder(tracks, track.id);
        RowHasNoRepeats(s, track, pts, zones);
        hide *;
        forall e | e in row ensures e !in events {
          RowMembers(s, track, pts, zones, e);
          NamesItsTrack(s, track, pts, zones, e);
          if e in events {
            EarlierTrackEvent(s, tracks, zones, n - 1, e);
          }
        }
        AppendKeepsDistinct(events, row);
      }
    }
  }

  lemma EarlierGroupEvent(s: Settings, tracks: seq<SceneTrack>, zones: seq<Zone>, n: nat, e: SceneEvent)
    requires n < |zones| && DistinctZones(zones) && e in GroupEvents(s, tracks, zones, n)
    ensures e.zoneId != zones[n].id
  {
    GroupMembers(s, tracks, zones, n, e);
    hide GroupEvents, Gathering;
    var k :| 0 <= k < n && GathersAt(s, tracks, zones, zones[k], e);
    assert zones[k].id != zones[n].id;
  }

  lemma {:induction false} GroupsHaveNoRepeats(s: Settings, tracks: seq<SceneTrack>, zones: seq<Zone>, n: nat)
    requires n <= |zones| && DistinctZones(zones)
    ensures NoRepeats(GroupEvents(s, tracks, zones, n))
  {
    hide Occupants, SortedIds, LatestTs;
    if n > 0 {
      GroupsHaveNoRepeats(s, tracks, zones, n - 1);
      var events := GroupEvents(s, tracks, zones, n - 1);
      var id := zones[n - 1].id;
      var members := Occupants(s, tracks, zones, |tracks|, id);
      var added := if members != [] && |SortedIds(members)| > s.groupThreshold
                   then [SceneEvent(GroupGathering, id, SortedIds(members), LatestTs(members))] else [];
      assert GroupEvents(s, tracks, zones, n) == events + added;
      hide *;
      forall e | e in events ensures e.zoneId != zones[n - 1].id {
        EarlierGroupEvent(s, tracks, zones, n - 1, e);
      }
      AppendKeepsDistinct(events, added);
    }
  }

  /** Every track of the first list has its counterpart in the second. */
  ghost predicate Mirrored(a: seq<SceneTrack>, b: seq<SceneTrack>) {
    forall t :: t in a ==>
      exists u :: u in b && u.id == t.id && u.cls == t.cls && multiset(u.points) == multiset(t.points)
  }

  /** The same tracks, samples and zones, listed in any order. */
  ghost predicate SameScene(tracks: seq<SceneTrack>, zones: seq<Zone>, tracks': seq<SceneTrack>, zones': seq<Zone>) {
    && DistinctTracks(tracks) && DistinctTracks(tracks') && Mirrored(tracks, tracks') && Mirrored(tracks', tracks)
    && DistinctZones(zones) && DistinctZones(zones') && forall z :: z in zones <==> z in zones'
  }

  lemma Counterpart(tracks: seq<SceneTrack>, zones: seq<Zone>, tracks': seq<SceneTrack>, zones': seq<Zone>, k: nat)
    returns (l: nat)
    requires SameScene(tracks, zones, tracks', zones') && k < |tracks|
    ensures l < |tracks'| && tracks'[l].id == tracks[k].id && tracks'[l].cls == tracks[k].cls
    ensures HistoryOf(tracks', tracks'[l].id) == HistoryOf(tracks, tracks[k].id)
  {
    var t := tracks[k];
    assert t in tracks;
    var u :| u in tracks' && u.id == t.id && u.cls == t.cls && multiset(u.points) == multiset(t.points);
    OwnHistory(tracks, t);
    OwnHistory(tracks', u);
    HistoryIgnoresListing(t.points, u.points);
    l :| 0 <= l < |tracks'| && tracks'[l] == u;
  }

  lemma PresentCarries(s: Settings, t: SceneTrack, u: SceneTrack, pts: seq<TrackPoint>, zones: seq<Zone>,
      zones': seq<Zone>, id: string, o: Occupant)
    requires t.id == u.id && t.cls == u.cls && forall z :: z in zones <==> z in zones'
    requires PresentSomewhere(s, t, pts, zones, id, o)
    ensures PresentSomewhere(s, u, pts, zones', id, o)
  {
    var z :| z in zones && z.id == id && PresentIn(s, t, pts, z, o);
    assert z in zones' && PresentIn(s, u, pts, z, o);
  }

  lemma PairCarries(s: Settings, t: SceneTrack, u: SceneTrack, pts: seq<TrackPoint>, zones: seq<Zone>,
      zones': seq<Zone>, e: SceneEvent)
    requires t.id == u.id && t.cls == u.cls && forall z :: z in zones <==> z in zones'
    requires DeclaredSomewhere(s, t, pts, zones, e)
    ensures DeclaredSomewhere(s, u, pts, zones', e)
  {
    hide Entered, Stopped;
    var z :| z in zones && DeclaredPair(s, t, pts, z, e);
    assert z in zones' && DeclaredPair(s, u, pts, z, e);
  }

  lemma EveryoneCarries(s: Settings, tracks: seq<SceneTrack>, zones: seq<Zone>, tracks': seq<SceneTrack>,
      zones': seq<Zone>, id: string)
    requires SameScene(tracks, zones, tracks', zones')
    ensures forall o :: o in Everyone(s, tracks, zones, id) ==> o in Everyone(s, tracks', zones', id)
  {
    assert forall z :: z in zones <==> z in zones';
    hide HistoryOf, SameScene, PresentSomewhere;
    forall o | Present(s, tracks, zones, id, o) ensures Present(s, tracks', zones', id, o) {
      var k :| 0 <= k < |tracks| && PresentSomewhere(s, tracks[k], HistoryOf(tracks, tracks[k].id), zones, id, o);
      var l := Counterpart(tracks, zones, tracks', zones', k);
      PresentCarries(s, tracks[k], tracks'[l], HistoryOf(tracks, tracks[k].id), zones, zones', id, o);
    }
  }

  lemma EveryoneIsTheSame(s: Settings, tracks: seq<SceneTrack>, zones: seq<Zone>, tracks': seq<SceneTrack>,
      zones': seq<Zone>, id: string)
    requires SameScene(tracks, zones, tracks', zones')
    ensures Everyone(s, tracks, zones, id) == Everyone(s, tracks', zones', id)
  {
    EveryoneCarries(s, tracks, zones, tracks', zones', id);
    EveryoneCarries(s, tracks', zones', tracks, zones, id);
  }

  lemma DeclaredCarries(s: Settings, tracks: seq<SceneTrack>, zones: seq<Zone>, tracks': seq<SceneTrack>,
      zones': seq<Zone>, e: SceneEvent)
    requires SameScene(tracks, zones, tracks', zones') && Declared(s, tracks, zones, e)
    ensures Declared(s, tracks', zones', e)
  {
    hide HistoryOf, DeclaredSomewhere, Gathering, Everyone;
    if k :| 0 <= k < |tracks| && DeclaredSomewhere(s, tracks[k], HistoryOf(tracks, tracks[k].id), zones, e) {
      var l := Counterpart(tracks, zones, tracks', zones', k);
      PairCarries(s, tracks[k], tracks'[l], HistoryOf(tracks, tracks[k].id), zones, zones', e);
    } else {
      var k :| 0 <= k < |zones| && GathersAt(s, tracks, zones, zones[k], e);
      EveryoneIsTheSame(s, tracks, zones, tracks', zones', zones[k].id);
      assert zones[k] in zones';
      var l :| 0 <= l < |zones'| && zones'[l] == zones[k];
      assert GathersAt(s, tracks', zones', zones'[l], e);
    }
  }

  lemma ListedOnce(s: Settings, tracks: seq<SceneTrack>, zones: seq<Zone>)
    requires DistinctTracks(tracks) && DistinctZones(zones)
    ensures NoRepeats(Listed(s, tracks, zones))
  {
    TracksHaveNoRepeats(s, tracks, zones, |tracks|);
    GroupsHaveNoRepeats(s, tracks, zones, |zones|);
    forall e | e in TrackEvents(s, tracks, zones, |tracks|) ensures e !in GroupEvents(s, tracks, zones, |zones|) {
      TrackMembers(s, tracks, zones, |tracks|, e);
      GroupMembers(s, tracks, zones, |zones|, e);
      var k :| 0 <= k < |tracks| && DeclaredSomewhere(s, tracks[k], HistoryOf(tracks, tracks[k].id), zones, e);
      NamesItsTrack(s, tracks[k], HistoryOf(tracks, tracks[k].id), zones, e);
    }
    AppendKeepsDistinct(TrackEvents(s, tracks, zones, |tracks|), GroupEvents(s, tracks, zones, |zones|));
  }

  lemma SameDeclared(s: Settings, tracks: seq<SceneTrack>, zones: seq<Zone>, tracks': seq<SceneTrack>,
      zones': seq<Zone>, e: SceneEvent)
    requires SameScene(tracks, zones, tracks', zones')
    ensures Declared(s, tracks, zones, e) <==> Declared(s, tracks', zones', e)
  {
    hide Declared;
    if Declared(s, tracks, zones, e) {
      DeclaredCarries(s, tracks, zones, tracks', zones', e);
    }
    if Declared(s, tracks', zones', e) {
      DeclaredCarries(s, tracks', zones', tracks, zones, e);
    }
  }

  lemma SameListed(s: Settings, tracks: seq<SceneTrack>, zones: seq<Zone>, tracks': seq<SceneTrack>, zones': seq<Zone>)
    requires SameScene(tracks, zones, tracks', zones')
    ensures Sort(Listed(s, tracks, zones), EventBefore) == Sort(Listed(s, tracks', zones'), EventBefore)
  {
    var a, b := Listed(s, tracks, zones), Listed(s, tracks', zones');
    ListedOnce(s, tracks, zones);
    ListedOnce(s, tracks', zones');
    EventsAreOrdered();
    hide *;
    forall e ensures e in a <==> e in b {
      ListedIsDeclared(s, tracks, zones, e);
      ListedIsDeclared(s, tracks', zones', e);
      SameDeclared(s, tracks, zones, tracks', zones', e);
    }
    SameSortedList(a, b, EventBefore);
  }

  /** Listing the tracks, their samples or the zones in another order changes nothing in the result. */
  lemma ListingOrderIsIrrelevant(s: Settings, tracks: seq<SceneTrack>, zones: seq<Zone>, tracks': seq<SceneTrack>,
      zones': seq<Zone>)
    requires SameScene(tracks, zones, tracks', zones')
    ensures Classified(s, tracks, zones) == Classified(s, tracks', zones')
  {
    FailsIff(s, tracks, zones);
    FailsIff(s, tracks', zones');
    SameListed(s, tracks, zones, tracks', zones');
    assert forall z :: z in zones <==> z in zones';
    hide SameScene, NobodyGathers, EventBefore, TrackEvents, GroupEvents, Everyone, Sort;
    forall id ensures Everyone(s, tracks, zones, id) == Everyone(s, tracks', zones', id) {
      EveryoneIsTheSame(s, tracks, zones, tracks', zones', id);
    }
  }
}
