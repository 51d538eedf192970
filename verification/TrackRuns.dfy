/** Track identities over whole sequences of frames. */
module TrackRuns {
  import opened SharedTypes
  import opened Tracking
  import opened StableMatching

  // ----- one frame -----

  /** What one frame, dt after the one before, does to the tracks; `labelled` are the detections it returns, `after`
      the tracks. */
  ghost predicate FrameEffect(
    before: seq<Track>, labelled: seq<Detection>, after: seq<Track>, dt: real, now: real, maxAge: real)
  {
    && DistinctTracks(after)
    && (forall t :: t in after ==> ObbOk(t.obb))
    && OneEach(labelled)
    && (forall e :: e in labelled ==> LabelOk(e, before))
    && (forall t :: t in after ==>
         now - t.lastSeenTs <= maxAge && (CarriedOn(t, before, labelled, dt) || Untouched(t, before, labelled)))
    && (forall t :: Untouched(t, before, labelled) && now - t.lastSeenTs <= maxAge ==> t in after)
    && (forall e :: e in labelled && now - e.frameTs <= maxAge ==>
         exists t :: t in after && Some(t.trackId) == e.trackId)
  }

  ghost predicate OneEach(labelled: seq<Detection>) {
    forall i, j :: 0 <= i < j < |labelled| ==> labelled[i].trackId != labelled[j].trackId
  }

  /** The detection extends a live track of its own class, or carries the id derived from its own. */
  ghost predicate LabelOk(e: Detection, before: seq<Track>) {
    || (exists t :: t in before && e.trackId == Some(t.trackId) && t.cls == e.cls)
    || e.trackId == Some("track-" + e.id)
  }

  /** A detection carries the track on: its class, time and box, and the velocity of getting there. */
  ghost predicate CarriedOn(t: Track, before: seq<Track>, labelled: seq<Detection>, dt: real) {
    SpeedOk(t, before, dt)
    && exists e :: e in labelled && e.trackId == Some(t.trackId)
             && t.cls == e.cls && t.lastSeenTs == e.frameTs && t.obb == e.obb
  }

  /** The track has moved at its velocity for dt from where it was, or kept its velocity when no time passed; a new
      track has none. */
  ghost predicate SpeedOk(t: Track, before: seq<Track>, dt: real) {
    || (exists b :: b in before && b.trackId == t.trackId && Displaced(b, t, dt))
    || ((forall b :: b in before ==> b.trackId != t.trackId) && t.velocity == (0.0, 0.0))
  }

  ghost predicate Displaced(b: Track, t: Track, dt: real) {
    && |b.obb| == 5 && |t.obb| == 5
    && if dt > 0.0
       then dt * t.velocity.0 == t.obb[0] - b.obb[0] && dt * t.velocity.1 == t.obb[1] - b.obb[1]
       else t.velocity == b.velocity
  }

  lemma UpdatedIsDisplaced(b: Track, d: Detection, dt: real)
    requires ObbOk(b.obb) && ObbOk(d.obb)
    ensures Displaced(b, Updated(b, d, dt), dt)
  {
  }

  ghost predicate Untouched(t: Track, before: seq<Track>, labelled: seq<Detection>) {
    t in before && forall e :: e in labelled ==> e.trackId != Some(t.trackId)
  }

  lemma {:induction false} RetainedContents(w: Work, now: real, maxAge: real, n: nat, t: Track)
    requires w.Valid() && n <= |w.keys|
    ensures t in Retained(w, now, maxAge, n) <==>
      now - t.lastSeenTs <= maxAge && exists k :: 0 <= k < n && w.live[w.keys[k]] == t
  {
    if n > 0 {
      RetainedContents(w, now, maxAge, n - 1, t);
    }
  }

  /** Every dict entry is stored under its own track id. */
  ghost predicate SelfKeyed(w: Work) {
    forall id :: id in w.live ==> w.live[id].trackId == id && ObbOk(w.live[id].obb)
  }

  lemma {:induction false} RetainedDistinct(w: Work, now: real, maxAge: real, n: nat)
    requires w.Valid() && n <= |w.keys| && Unrepeated(w.keys) && SelfKeyed(w)
    ensures DistinctTracks(Retained(w, now, maxAge, n))
  {
    if n > 0 {
      RetainedDistinct(w, now, maxAge, n - 1);
      forall t | t in Retained(w, now, maxAge, n - 1) ensures t.trackId != w.keys[n - 1] {
        RetainedContents(w, now, maxAge, n - 1, t);
      }
    }
  }

  /** The detection's label under the matching is `id`, and t is the track as the detection leaves it. */
  ghost predicate LeftBy(d: Detection, f: Frame, choice: Option<nat>, id: string, t: Track)
    requires choice.Some? ==> choice.value < |f.tracks|
  {
    && LabelOf(d, f, choice) == id == t.trackId && t.cls == d.cls && t.lastSeenTs == d.frameTs && t.obb == d.obb
    && SpeedOk(t, f.tracks, f.dt)
  }

  /** Where a dict entry of the final state comes from. */
  lemma LiveEntry(r: Work, m: Matching, f: Frame, order: seq<Detection>, id: string)
    requires FrameOk(f) && (forall d :: d in order ==> ObbOk(d.obb)) && forall t :: t in f.tracks ==> ObbOk(t.obb)
    requires Covers(order, f, m) && LiveShape(r, m, f, order) && MatchedExactly(m, r.matched, f, order)
    requires DistinctTracks(f.tracks) && id in r.live
    ensures || (id !in r.matched && r.live[id] in f.tracks && r.live[id].trackId == id)
            || exists d :: d in order && LeftBy(d, f, m[d.id], id, r.live[id])
  {
    assert Origin(m, f, order, id);
    if t :| t in f.tracks && t.trackId == id {
      if id in r.matched {
        var k :| 0 <= k < |f.tracks| && f.tracks[k] == t;
        assert Taken(m, order, k);
        var d :| d in order && m[d.id] == Some(k);
        UpdatedIsDisplaced(t, d, f.dt);
        hide Updated, Displaced;
        assert LeftBy(d, f, m[d.id], id, r.live[id]);
      }
    } else {
      var d :| d in order && m[d.id].None? && NewTrackId(d.id) == id;
      assert LeftBy(d, f, m[d.id], id, r.live[id]);
    }
  }

  /** Conversely every detection leaves its track in the dict. */
  lemma CarriedEntry(r: Work, m: Matching, f: Frame, order: seq<Detection>, d: Detection)
    requires FrameOk(f) && (forall d :: d in order ==> ObbOk(d.obb)) && forall t :: t in f.tracks ==> ObbOk(t.obb)
    requires Covers(order, f, m) && LiveShape(r, m, f, order) && d in order && FreshIds(order, f.tracks)
    ensures var id := LabelOf(d, f, m[d.id]); id in r.live && LeftBy(d, f, m[d.id], id, r.live[id])
  {
    match m[d.id]
    case Some(k) =>
      assert f.tracks[k] in f.tracks;
      UpdatedIsDisplaced(f.tracks[k], d, f.dt);
      hide Updated, Displaced;
    case None =>
  }

  ghost predicate FramePrecondition(ds: seq<Detection>, tracks: seq<Track>) {
    InputsOk(ds, tracks) && DistinctIds(ds) && DistinctTracks(tracks) && FreshIds(ds, tracks)
  }

  /** The final state of the loop, seen through the matching. */
  lemma FinalState(ds: seq<Detection>, f: Frame)
    requires FramePrecondition(ds, f.tracks) && FrameOk(f)
    ensures var r, m := FinalWork(ds, f.tracks, f), GreedyMatching(ds, f);
            && Covers(ds, f, m) && Stable(ds, f, m)
            && LiveShape(r, m, f, ds) && MatchedExactly(m, r.matched, f, ds)
  {
    var order := Ordered(ds);
    StartIsOk(f.tracks, f);
    OrderedByPriority(ds);
    GreedyMatched(StartWork(f.tracks), f, order);
    LiveShapeHolds(f, order);
    GreedyIsTheStableMatching(ds, f, GreedyMatching(ds, f));
    SameShape(FinalWork(ds, f.tracks, f), GreedyMatching(ds, f), f, order, ds);
  }

  lemma SameShape(r: Work, m: Matching, f: Frame, a: seq<Detection>, b: seq<Detection>)
    requires (forall d :: d in a <==> d in b) && (forall d :: d in a ==> d.id in m && ObbOk(d.obb))
    requires forall t :: t in f.tracks ==> ObbOk(t.obb)
    requires LiveShape(r, m, f, a) && MatchedExactly(m, r.matched, f, a)
    ensures LiveShape(r, m, f, b) && MatchedExactly(m, r.matched, f, b)
  {
    hide Updated, Spawned;
    forall id | id in r.live ensures Origin(m, f, b, id) {
      assert Origin(m, f, a, id);
    }
    forall k | 0 <= k < |f.tracks| && f.tracks[k].trackId in r.matched ensures Taken(m, b, k) {
      assert Taken(m, a, k);
    }
  }

  function LabelledOne(d: Detection, f: Frame, m: Matching): Detection
    requires d.id in m && (m[d.id].Some? ==> m[d.id].value < |f.tracks|)
  {
    d.(trackId := Some(LabelOf(d, f, m[d.id])))
  }

  /** `labelled` is ds with every detection labelled by the matching. */
  ghost predicate LabelledBy(labelled: seq<Detection>, ds: seq<Detection>, f: Frame, m: Matching)
    requires FrameOk(f) && Covers(ds, f, m)
  {
    && |labelled| == |ds|
    && forall i :: 0 <= i < |ds| ==> ds[i] in ds && labelled[i] == LabelledOne(ds[i], f, m)
  }

  lemma LabelsAreGood(ds: seq<Detection>, f: Frame, m: Matching, labelled: seq<Detection>)
    requires FrameOk(f) && FramePrecondition(ds, f.tracks) && Stable(ds, f, m) && LabelledBy(labelled, ds, f, m)
    ensures OneEach(labelled) && forall e :: e in labelled ==> LabelOk(e, f.tracks)
  {
    forall i, j | 0 <= i < j < |labelled| ensures labelled[i].trackId != labelled[j].trackId {
      LabelsDiffer(ds, f, m, ds[i], ds[j]);
    }
    forall e | e in labelled ensures LabelOk(e, f.tracks) {
      var i :| 0 <= i < |labelled| && labelled[i] == e;
      var d := ds[i];
      assert d in ds;
      if m[d.id].Some? {
        assert f.tracks[m[d.id].value] in f.tracks;
      }
    }
  }

  /** A track whose id the loop did not match is carried by no detection. */
  lemma UnmatchedIsUntouched(ds: seq<Detection>, f: Frame, m: Matching, labelled: seq<Detection>,
      matched: set<string>, t: Track)
    requires FrameOk(f) && FramePrecondition(ds, f.tracks) && Covers(ds, f, m) && LabelledBy(labelled, ds, f, m)
    requires MatchedExactly(m, matched, f, ds) && t in f.tracks
    ensures t.trackId !in matched <==> Untouched(t, f.tracks, labelled)
  {
    if t.trackId in matched {
      var k :| 0 <= k < |f.tracks| && f.tracks[k] == t;
      assert Taken(m, ds, k);
      var d :| d in ds && m[d.id] == Some(k);
      var i :| 0 <= i < |ds| && ds[i] == d;
      assert labelled[i] in labelled && labelled[i].trackId == Some(t.trackId);
    } else {
      forall e | e in labelled ensures e.trackId != Some(t.trackId) {
        var i :| 0 <= i < |labelled| && labelled[i] == e;
        assert ds[i] in ds;
      }
    }
  }

  lemma EntryIsReturned(r: Work, now: real, maxAge: real, id: string)
    requires r.Valid() && id in r.live && now - r.live[id].lastSeenTs <= maxAge
    ensures r.live[id] in Retained(r, now, maxAge, |r.keys|)
  {
    assert id in r.keys;
    var k :| 0 <= k < |r.keys| && r.keys[k] == id;
    RetainedContents(r, now, maxAge, |r.keys|, r.live[id]);
  }

  /** What holds of every returned track. */
  lemma ReturnedTrack(
    r: Work, ds: seq<Detection>, f: Frame, m: Matching, labelled: seq<Detection>, now: real, maxAge: real, t: Track)
    requires FrameOk(f) && FramePrecondition(ds, f.tracks) && Covers(ds, f, m) && LabelledBy(labelled, ds, f, m)
    requires r.Valid() && LiveShape(r, m, f, ds) && MatchedExactly(m, r.matched, f, ds)
    requires t in Retained(r, now, maxAge, |r.keys|)
    ensures now - t.lastSeenTs <= maxAge && (CarriedOn(t, f.tracks, labelled, f.dt) || Untouched(t, f.tracks, labelled))
  {
    hide LiveShape, MatchedExactly, Updated;
    RetainedContents(r, now, maxAge, |r.keys|, t);
    var j :| 0 <= j < |r.keys| && r.live[r.keys[j]] == t;
    var id := r.keys[j];
    LiveEntry(r, m, f, ds, id);
    if id !in r.matched && t in f.tracks && t.trackId == id {
      UnmatchedIsUntouched(ds, f, m, labelled, r.matched, t);
    } else {
      var d :| d in ds && LeftBy(d, f, m[d.id], id, t);
      var i :| 0 <= i < |ds| && ds[i] == d;
      assert labelled[i] in labelled && labelled[i] == LabelledOne(d, f, m);
    }
  }

  lemma FinalIsSelfKeyed(r: Work, ds: seq<Detection>, f: Frame, m: Matching)
    requires FrameOk(f) && FramePrecondition(ds, f.tracks) && Covers(ds, f, m)
    requires LiveShape(r, m, f, ds) && MatchedExactly(m, r.matched, f, ds)
    ensures SelfKeyed(r)
  {
    forall id | id in r.live ensures r.live[id].trackId == id && ObbOk(r.live[id].obb) {
      LiveEntry(r, m, f, ds, id);
    }
  }

  /** The time of the frame: the given one, or that of its newest detection, or of the newest track. */
  ghost predicate IsNow(t: real, ds: seq<Detection>, tracks: seq<Track>, now: Option<real>) {
    if now.Some? then t == now.value
    else if ds != [] then (exists d :: d in ds && d.frameTs == t) && forall d :: d in ds ==> d.frameTs <= t
    else if tracks != [] then
      (exists b :: b in tracks && b.lastSeenTs == t) && forall b :: b in tracks ==> b.lastSeenTs <= t
    else t == 0.0
  }

  lemma {:induction false} NewestDetectionIsLatest(ds: seq<Detection>)
    requires ds != []
    ensures exists d :: d in ds && d.frameTs == NewestDetection(ds)
    ensures forall d :: d in ds ==> d.frameTs <= NewestDetection(ds)
  {
    assert ds[0] in ds;
    if |ds| > 1 {
      NewestDetectionIsLatest(ds[1..]);
      assert forall d :: d in ds <==> d == ds[0] || d in ds[1..];
    }
  }

  lemma {:induction false} NewestTrackIsLatest(ts: seq<Track>)
    requires ts != []
    ensures exists t :: t in ts && t.lastSeenTs == NewestTrack(ts)
    ensures forall t :: t in ts ==> t.lastSeenTs <= NewestTrack(ts)
  {
    assert ts[0] in ts;
    if |ts| > 1 {
      NewestTrackIsLatest(ts[1..]);
      assert forall t :: t in ts <==> t == ts[0] || t in ts[1..];
    }
  }

  lemma NowIsNewest(ds: seq<Detection>, tracks: seq<Track>, now: Option<real>)
    ensures IsNow(ResolveNow(ds, tracks, now), ds, tracks, now)
  {
    if ds != [] {
      NewestDetectionIsLatest(ds);
    }
    if tracks != [] {
      NewestTrackIsLatest(tracks);
    }
  }

  /** The whole effect of one call. */
  lemma StitchEffect(
    ds: seq<Detection>, tracks: seq<Track>, dt: real, now: Option<real>, maxAge: real, gate: real, iou: Overlap)
    requires FramePrecondition(ds, tracks)
    ensures var out := StitchSpec(ds, tracks, dt, now, maxAge, gate, iou);
            && out.Ok?
            && IsNow(ResolveNow(ds, tracks, now), ds, tracks, now)
            && FrameEffect(
                 tracks, out.value.detections, out.value.activeTracks, dt, ResolveNow(ds, tracks, now), maxAge)
            && |out.value.detections| == |ds|
            && forall i :: 0 <= i < |ds| ==> out.value.detections[i].(trackId := ds[i].trackId) == ds[i]
  {
    var f := FrameOf(tracks, dt, gate, iou);
    var out := StitchSpec(ds, tracks, dt, now, maxAge, gate, iou);
    var r, m := FinalWork(ds, tracks, f), GreedyMatching(ds, f);
    var t0 := ResolveNow(ds, tracks, now);
    NowIsNewest(ds, tracks, now);
    FinalState(ds, f);
    StitchLabels(ds, tracks, dt, now, maxAge, gate, iou);
    var labelled, after := out.value.detections, out.value.activeTracks;
    assert after == Retained(r, t0, maxAge, |r.keys|);
    assert LabelledBy(labelled, ds, f, m);
    EffectFromState(r, ds, f, m, labelled, t0, maxAge);
  }

  lemma EffectFromState(
    r: Work, ds: seq<Detection>, f: Frame, m: Matching, labelled: seq<Detection>, now: real, maxAge: real)
    requires FrameOk(f) && FramePrecondition(ds, f.tracks) && Stable(ds, f, m) && LabelledBy(labelled, ds, f, m)
    requires r.Valid() && LiveShape(r, m, f, ds) && MatchedExactly(m, r.matched, f, ds)
    ensures FrameEffect(f.tracks, labelled, Retained(r, now, maxAge, |r.keys|), f.dt, now, maxAge)
  {
    var after := Retained(r, now, maxAge, |r.keys|);
    LabelsAreGood(ds, f, m, labelled);
    FinalIsSelfKeyed(r, ds, f, m);
    assert Unrepeated(r.keys);
    RetainedDistinct(r, now, maxAge, |r.keys|);
    ReturnedTracks(r, ds, f, m, labelled, now, maxAge);
    forall t | Untouched(t, f.tracks, labelled) && now - t.lastSeenTs <= maxAge ensures t in after {
      UnmatchedIsUntouched(ds, f, m, labelled, r.matched, t);
      EntryIsReturned(r, now, maxAge, t.trackId);
    }
    forall e | e in labelled && now - e.frameTs <= maxAge
      ensures exists t :: t in after && Some(t.trackId) == e.trackId
    {
      var i :| 0 <= i < |labelled| && labelled[i] == e;
      assert ds[i] in ds;
      CarriedEntry(r, m, f, ds, ds[i]);
      EntryIsReturned(r, now, maxAge, LabelOf(ds[i], f, m[ds[i].id]));
    }
  }

  lemma ReturnedTracks(
    r: Work, ds: seq<Detection>, f: Frame, m: Matching, labelled: seq<Detection>, now: real, maxAge: real)
    requires FrameOk(f) && FramePrecondition(ds, f.tracks) && Covers(ds, f, m) && LabelledBy(labelled, ds, f, m)
    requires r.Valid() && LiveShape(r, m, f, ds) && MatchedExactly(m, r.matched, f, ds) && SelfKeyed(r)
    ensures forall t :: t in Retained(r, now, maxAge, |r.keys|) ==>
      && ObbOk(t.obb) && now - t.lastSeenTs <= maxAge
      && (CarriedOn(t, f.tracks, labelled, f.dt) || Untouched(t, f.tracks, labelled))
  {
    hide LiveShape, MatchedExactly, LabelledBy, FramePrecondition;
    forall t | t in Retained(r, now, maxAge, |r.keys|)
      ensures ObbOk(t.obb) && now - t.lastSeenTs <= maxAge
      ensures CarriedOn(t, f.tracks, labelled, f.dt) || Untouched(t, f.tracks, labelled)
    {
      ReturnedTrack(r, ds, f, m, labelled, now, maxAge, t);
      RetainedContents(r, now, maxAge, |r.keys|, t);
    }
  }

  // ----- the order of the tracks -----

  function Ids(tracks: seq<Track>): (ids: seq<string>)
    ensures |ids| == |tracks| && forall i :: 0 <= i < |ids| ==> ids[i] == tracks[i].trackId
  {
    if tracks == [] then [] else Ids(tracks[..|tracks| - 1]) + [tracks[|tracks| - 1].trackId]
  }

  ghost function SpawnedIds(order: seq<Detection>, m: Matching): seq<string>
    requires forall d :: d in order ==> d.id in m
  {
    if order == [] then []
    else
      var last := order[|order| - 1];
      SpawnedIds(order[..|order| - 1], m) + if m[last.id].None? then ["track-" + last.id] else []
  }

  lemma {:induction false} StartKeys(tracks: seq<Track>)
    requires DistinctTracks(tracks)
    ensures StartWork(tracks).keys == Ids(tracks)
  {
    if tracks != [] {
      var front, t := tracks[..|tracks| - 1], tracks[|tracks| - 1];
      StartKeys(front);
      forall u | u in front ensures u.trackId != t.trackId {
        var i :| 0 <= i < |front| && front[i] == u;
        assert tracks[i].trackId != tracks[|tracks| - 1].trackId;
      }
    }
  }

  lemma {:induction false} SpawnedByChoices(order: seq<Detection>, m: Matching, m': Matching)
    requires forall d :: d in order ==> d.id in m && d.id in m' && m[d.id] == m'[d.id]
    ensures SpawnedIds(order, m) == SpawnedIds(order, m')
  {
    if order != [] {
      assert order[|order| - 1] in order;
      SpawnedByChoices(order[..|order| - 1], m, m');
    }
  }

  /** The dict lists the tracks there were, then the new ones as they were spawned. */
  lemma {:induction false} KeysInOrder(f: Frame, order: seq<Detection>)
    requires FrameOk(f) && WorkOk(StartWork(f.tracks), f) && DistinctTracks(f.tracks) && DistinctIds(order)
    requires (forall d :: d in order ==> ObbOk(d.obb)) && forall t :: t in f.tracks ==> ObbOk(t.obb)
    requires FreshIds(order, f.tracks)
    ensures AssociateAll(StartWork(f.tracks), f, order).keys
         == Ids(f.tracks) + SpawnedIds(order, Greedy(StartWork(f.tracks), f, order))
  {
    hide LiveShape, StartWork, WorkOk;
    var w := StartWork(f.tracks);
    if order == [] {
      StartKeys(f.tracks);
      assert AssociateAll(w, f, order) == w && SpawnedIds(order, Greedy(w, f, order)) == [];
    } else {
      hide Associate, AssociateAll, Greedy, DistinctIds, SpawnedIds;
      var front, det := order[..|order| - 1], order[|order| - 1];
      assert order == front + [det];
      assert FreshIds(front, f.tracks);
      GreedyStep(w, f, order);
      KeysInOrder(f, front);
      LiveShapeHolds(f, front);
      NotLiveBefore(AssociateAll(w, f, front), Greedy(w, f, front), f, front, det);
      KeysStep(w, f, order);
    }
  }

  lemma AssociatedKeys(w: Work, f: Frame, det: Detection)
    requires WorkOk(w, f) && ObbOk(det.obb)
    ensures Associate(w, f, det).keys
         == if BestIndex(det, f, w.matched, |f.tracks|).Some? || NewTrackId(det.id) in w.live then w.keys
            else w.keys + ["track-" + det.id]
  {
    hide BestIndex, Updated, Spawned, ObbOk;
    var best := BestIndex(det, f, w.matched, |f.tracks|);
    if best.Some? {
      assert f.tracks[best.value] in f.tracks;
    }
  }

  lemma KeysStep(w: Work, f: Frame, order: seq<Detection>)
    requires WorkOk(w, f) && DistinctIds(order) && order != [] && forall d :: d in order ==> ObbOk(d.obb)
    requires var front := order[..|order| - 1];
             && AssociateAll(w, f, front).keys == Ids(f.tracks) + SpawnedIds(front, Greedy(w, f, front))
             && NewTrackId(order[|order| - 1].id) !in AssociateAll(w, f, front).live
    ensures AssociateAll(w, f, order).keys == Ids(f.tracks) + SpawnedIds(order, Greedy(w, f, order))
  {
    hide WorkOk, AssociateAll, Associate, Greedy, BestIndex, DistinctIds, Ids, ObbOk;
    var front, det := order[..|order| - 1], order[|order| - 1];
    GreedyStep(w, f, order);
    SpawnedByChoices(front, Greedy(w, f, front), Greedy(w, f, order));
    AssociateLast(w, f, order);
    AssociatedKeys(AssociateAll(w, f, front), f, det);
    var spawned := SpawnedIds(front, Greedy(w, f, order));
    assert spawned + [] == spawned;
    assert Ids(f.tracks) + spawned + ["track-" + det.id] == Ids(f.tracks) + (spawned + ["track-" + det.id]);
  }

  lemma NotLiveBefore(r0: Work, m: Matching, f: Frame, front: seq<Detection>, det: Detection)
    requires (forall d :: d in front ==> d.id in m && ObbOk(d.obb)) && forall t :: t in f.tracks ==> ObbOk(t.obb)
    requires LiveShape(r0, m, f, front) && FreshIds(front + [det], f.tracks) && DistinctIds(front + [det])
    ensures NewTrackId(det.id) !in r0.live
  {
    assert (front + [det])[|front|] == det && det in front + [det];
    forall d | d in front ensures NewTrackId(d.id) != NewTrackId(det.id) {
      var i :| 0 <= i < |front| && front[i] == d;
      assert (front + [det])[i].id != (front + [det])[|front|].id;
      if NewTrackId(d.id) == NewTrackId(det.id) {
        NewTrackIdInjective(d.id, det.id);
      }
    }
    assert !Origin(m, f, front, NewTrackId(det.id));
  }

  lemma {:induction false} SpawnedInOrder(order: seq<Detection>, m: Matching, a: nat, b: nat)
    returns (x: nat, y: nat)
    requires (forall d :: d in order ==> d.id in m) && a < b < |SpawnedIds(order, m)|
    ensures x < y < |order|
    ensures SpawnedIds(order, m)[a] == "track-" + order[x].id && SpawnedIds(order, m)[b] == "track-" + order[y].id
  {
    var front := order[..|order| - 1];
    if b < |SpawnedIds(front, m)| {
      x, y := SpawnedInOrder(front, m, a, b);
    } else {
      x := SpawnedFor(front, m, a);
      y := |order| - 1;
    }
  }

  lemma {:induction false} SpawnedFor(order: seq<Detection>, m: Matching, a: nat) returns (x: nat)
    requires (forall d :: d in order ==> d.id in m) && a < |SpawnedIds(order, m)|
    ensures x < |order| && SpawnedIds(order, m)[a] == "track-" + order[x].id
  {
    var front := order[..|order| - 1];
    if a < |SpawnedIds(front, m)| {
      x := SpawnedFor(front, m, a);
    } else {
      x := |order| - 1;
    }
  }

  lemma {:induction false} RetainedInOrder(w: Work, now: real, maxAge: real, n: nat, i: nat, j: nat)
    returns (p: nat, q: nat)
    requires w.Valid() && n <= |w.keys| && SelfKeyed(w) && i < j < |Retained(w, now, maxAge, n)|
    ensures p < q < n
    ensures var out := Retained(w, now, maxAge, n); w.keys[p] == out[i].trackId && w.keys[q] == out[j].trackId
  {
    if j < |Retained(w, now, maxAge, n - 1)| {
      p, q := RetainedInOrder(w, now, maxAge, n - 1, i, j);
    } else {
      p := RetainedFrom(w, now, maxAge, n - 1, i);
      q := n - 1;
    }
  }

  lemma {:induction false} RetainedFrom(w: Work, now: real, maxAge: real, n: nat, i: nat) returns (p: nat)
    requires w.Valid() && n <= |w.keys| && SelfKeyed(w) && i < |Retained(w, now, maxAge, n)|
    ensures p < n && w.keys[p] == Retained(w, now, maxAge, n)[i].trackId
  {
    if i < |Retained(w, now, maxAge, n - 1)| {
      p := RetainedFrom(w, now, maxAge, n - 1, i);
    } else {
      p := n - 1;
    }
  }

  /** Earlier in the list of tracks: an old track before a new one, old ones as they were listed, new ones as their
      detections were served. */
  ghost predicate Precedes(id: string, other: string, before: seq<Track>, ds: seq<Detection>) {
    && (forall l :: 0 <= l < |before| && before[l].trackId == other ==>
         exists k :: 0 <= k < l && before[k].trackId == id)
    && (forall d, e :: d in ds && e in ds && id == "track-" + d.id && other == "track-" + e.id ==> Above(d, e))
  }

  lemma KeysPrecede(keys: seq<string>, p: nat, q: nat, before: seq<Track>, ds: seq<Detection>, order: seq<Detection>,
      m: Matching)
    requires DistinctTracks(before) && FreshIds(ds, before) && DistinctIds(order) && forall d :: d in ds ==> d in order
    requires forall i, j :: 0 <= i < j < |order| ==> Above(order[i], order[j])
    requires forall d :: d in order ==> d.id in m
    requires keys == Ids(before) + SpawnedIds(order, m) && p < q < |keys|
    requires forall i, j :: 0 <= i < j < |keys| ==> keys[i] != keys[j]
    ensures Precedes(keys[p], keys[q], before, ds)
  {
    OldTrackPrecedes(keys, p, q, before, SpawnedIds(order, m));
    hide Above;
    forall d, e | d in ds && e in ds && keys[p] == "track-" + d.id && keys[q] == "track-" + e.id ensures Above(d, e) {
      NewTrackIsLater(keys, p, before, SpawnedIds(order, m), ds, d);
      NewTrackPrecedes(p - |before|, q - |before|, order, m, d, e);
    }
  }

  lemma OldTrackPrecedes(keys: seq<string>, p: nat, q: nat, before: seq<Track>, spawned: seq<string>)
    requires keys == Ids(before) + spawned && p < q < |keys|
    requires forall i, j :: 0 <= i < j < |keys| ==> keys[i] != keys[j]
    ensures forall l :: 0 <= l < |before| && before[l].trackId == keys[q] ==>
      exists k :: 0 <= k < l && before[k].trackId == keys[p]
  {
    forall l | 0 <= l < |before| && before[l].trackId == keys[q]
      ensures exists k :: 0 <= k < l && before[k].trackId == keys[p]
    {
      assert keys[l] == before[l].trackId;
      assert q == l;
      assert before[p].trackId == keys[p];
    }
  }

  lemma NewTrackIsLater(keys: seq<string>, p: nat, before: seq<Track>, spawned: seq<string>, ds: seq<Detection>,
      d: Detection)
    requires keys == Ids(before) + spawned && p < |keys| && FreshIds(ds, before) && d in ds
    requires keys[p] == "track-" + d.id
    ensures p >= |before|
  {
    assert p < |before| ==> before[p] in before && before[p].trackId == keys[p];
    assert NewTrackId(d.id) == keys[p];
  }

  lemma NewTrackPrecedes(a: nat, b: nat, order: seq<Detection>, m: Matching, d: Detection, e: Detection)
    requires DistinctIds(order) && d in order && e in order && forall x :: x in order ==> x.id in m
    requires forall i, j :: 0 <= i < j < |order| ==> Above(order[i], order[j])
    requires a < b < |SpawnedIds(order, m)|
    requires SpawnedIds(order, m)[a] == "track-" + d.id && SpawnedIds(order, m)[b] == "track-" + e.id
    ensures Above(d, e)
  {
    hide Above, DistinctIds;
    var x, y := SpawnedInOrder(order, m, a, b);
    NewTrackIdInjective(d.id, order[x].id);
    NewTrackIdInjective(e.id, order[y].id);
    SameId(order, d, order[x]);
    SameId(order, e, order[y]);
  }

  lemma SameId(ds: seq<Detection>, d: Detection, e: Detection)
    requires DistinctIds(ds) && d in ds && e in ds && d.id == e.id
    ensures d == e
  {
    var i :| 0 <= i < |ds| && ds[i] == d;
    var j :| 0 <= j < |ds| && ds[j] == e;
    assert !(i < j) && !(j < i);
  }

  /** The tracks come back in the order they were in, the new ones after them as their detections were served. */
  lemma TracksKeepTheirOrder(
    ds: seq<Detection>, tracks: seq<Track>, dt: real, now: Option<real>, maxAge: real, gate: real, iou: Overlap)
    requires FramePrecondition(ds, tracks)
    ensures var out := StitchSpec(ds, tracks, dt, now, maxAge, gate, iou);
            out.Ok? && var after := out.value.activeTracks;
                       forall i, j :: 0 <= i < j < |after| ==> Precedes(after[i].trackId, after[j].trackId, tracks, ds)
  {
    var f, order := FrameOf(tracks, dt, gate, iou), Ordered(ds);
    var r, m, t0 := FinalWork(ds, tracks, f), GreedyMatching(ds, f), ResolveNow(ds, tracks, now);
    FinalState(ds, f);
    FinalIsSelfKeyed(r, ds, f, m);
    StartIsOk(tracks, f);
    OrderedByPriority(ds);
    KeysInOrder(f, order);
    var after := Retained(r, t0, maxAge, |r.keys|);
    assert r.keys == Ids(tracks) + SpawnedIds(order, m);
    assert Unrepeated(r.keys);
    hide LiveShape, MatchedExactly, FinalWork, GreedyMatching, Stable, Covers, Retained, SelfKeyed, Precedes, Ordered;
    forall i, j | 0 <= i < j < |after| ensures Precedes(after[i].trackId, after[j].trackId, tracks, ds) {
      var p, q := RetainedInOrder(r, t0, maxAge, |r.keys|, i, j);
      KeysPrecede(r.keys, p, q, tracks, ds, order, m);
    }
  }

  // ----- sequences of frames -----

  datatype FrameInput = FrameInput(detections: seq<Detection>, dt: real, now: Option<real>)

  /** Stitching settings, fixed over a run. */
  datatype Settings = Settings(maxAge: real, gate: real, iou: Overlap)

  /** The live tracks after some frames, and the labelled detections each frame returned. */
  datatype RunState = RunState(active: seq<Track>, log: seq<seq<Detection>>)

  /** One frame of a run; a frame that is rejected changes no track and returns nothing. */
  function Step(prev: RunState, input: FrameInput, s: Settings): (r: RunState)
    ensures |r.log| == |prev.log| + 1 && r.log[..|prev.log|] == prev.log
  {
    match StitchSpec(input.detections, prev.active, input.dt, input.now, s.maxAge, s.gate, s.iou)
    case Ok(out) => RunState(out.activeTracks, prev.log + [out.detections])
    case Err(_) => RunState(prev.active, prev.log + [[]])
  }

  /** A run starts without tracks. */
  function Run(frames: seq<FrameInput>, s: Settings): (r: RunState)
    ensures |r.log| == |frames|
  {
    if frames == [] then RunState([], [])
    else Step(Run(frames[..|frames| - 1], s), frames[|frames| - 1], s)
  }

  ghost predicate GloballyDistinct(frames: seq<FrameInput>) {
    && (forall k :: 0 <= k < |frames| ==> DistinctIds(frames[k].detections))
    && (forall k, l, d, e :: 0 <= k < l < |frames| && d in frames[k].detections && e in frames[l].detections ==>
         d.id != e.id)
  }

  /** Some detection presented so far has this id. */
  ghost predicate Seen(frames: seq<FrameInput>, id: string) {
    exists k, d :: 0 <= k < |frames| && d in frames[k].detections && d.id == id
  }

  /** The track id was spawned for a detection presented so far. */
  ghost predicate FromSeen(frames: seq<FrameInput>, trackId: string) {
    exists id :: Seen(frames, id) && trackId == NewTrackId(id)
  }

  /** A returned detection of the log carries the track id. */
  ghost predicate Used(log: seq<seq<Detection>>, trackId: string) {
    exists k :: 0 <= k < |log| && UsedIn(log[k], trackId)
  }

  ghost predicate UsedIn(labelled: seq<Detection>, trackId: string) {
    exists e :: e in labelled && e.trackId == Some(trackId)
  }

  /** All detections of the log with this track id have this class. */
  ghost predicate ClassIs(log: seq<seq<Detection>>, trackId: string, cls: string) {
    forall k, e :: 0 <= k < |log| && e in log[k] && e.trackId == Some(trackId) ==> e.cls == cls
  }

  /** The most recent detection of the log with this track id was seen at ts. */
  ghost predicate LastSeenAt(log: seq<seq<Detection>>, trackId: string, ts: real) {
    exists k, e :: 0 <= k < |log| && e in log[k] && e.trackId == Some(trackId) && e.frameTs == ts
      && forall l :: k < l < |log| ==> !UsedIn(log[l], trackId)
  }

  ghost predicate RunInvariant(frames: seq<FrameInput>, r: RunState) {
    && DistinctTracks(r.active)
    && (forall t :: t in r.active ==> ObbOk(t.obb))
    && (forall t :: t in r.active ==> FromSeen(frames, t.trackId))
    && (forall t :: t in r.active ==> ClassIs(r.log, t.trackId, t.cls))
    && (forall t :: t in r.active ==> LastSeenAt(r.log, t.trackId, t.lastSeenTs))
    && (forall k, e :: 0 <= k < |r.log| && e in r.log[k] ==> LoggedOk(frames, r.log, e))
    && (forall k :: 0 <= k < |r.log| ==> OneEach(r.log[k]))
  }

  ghost predicate LoggedOk(frames: seq<FrameInput>, log: seq<seq<Detection>>, e: Detection) {
    e.trackId.Some? && FromSeen(frames, e.trackId.value) && ClassIs(log, e.trackId.value, e.cls)
  }

  lemma SeenGrows(front: seq<FrameInput>, input: FrameInput, trackId: string)
    requires FromSeen(front, trackId)
    ensures FromSeen(front + [input], trackId)
  {
    var id :| Seen(front, id) && trackId == NewTrackId(id);
    var k, d :| 0 <= k < |front| && d in front[k].detections && d.id == id;
    assert (front + [input])[k] == front[k];
    assert Seen(front + [input], id);
  }

  /** An id spawned for a detection of the new frame has never been used. */
  lemma SpawnedIsNew(front: seq<FrameInput>, input: FrameInput, d: Detection)
    requires GloballyDistinct(front + [input]) && d in input.detections
    ensures !FromSeen(front, NewTrackId(d.id)) && FromSeen(front + [input], NewTrackId(d.id))
  {
    var frames := front + [input];
    assert frames[|front|] == input;
    assert forall k :: 0 <= k < |front| ==> frames[k] == front[k];
    assert Seen(frames, d.id);
    if FromSeen(front, NewTrackId(d.id)) {
      var id :| Seen(front, id) && NewTrackId(d.id) == NewTrackId(id);
      NewTrackIdInjective(d.id, id);
    }
  }

  /** What a frame returns, tied back to what it was given. */
  ghost predicate SameDetections(labelled: seq<Detection>, ds: seq<Detection>) {
    |labelled| == |ds| && forall i :: 0 <= i < |ds| ==> labelled[i].(trackId := ds[i].trackId) == ds[i]
  }

  /** A returned detection has the class of everything its track id was ever used for. */
  lemma ClassCarriesOn(front: seq<FrameInput>, input: FrameInput, prev: RunState, labelled: seq<Detection>,
      e: Detection)
    requires GloballyDistinct(front + [input]) && RunInvariant(front, prev)
    requires SameDetections(labelled, input.detections) && e in labelled && LabelOk(e, prev.active)
    ensures e.trackId.Some? && ClassIs(prev.log, e.trackId.value, e.cls) && FromSeen(front + [input], e.trackId.value)
  {
    if t :| t in prev.active && e.trackId == Some(t.trackId) && t.cls == e.cls {
      SeenGrows(front, input, t.trackId);
    } else {
      var i :| 0 <= i < |labelled| && labelled[i] == e;
      assert input.detections[i] in input.detections && input.detections[i].id == e.id;
      SpawnedIsNew(front, input, input.detections[i]);
      forall k, x | 0 <= k < |prev.log| && x in prev.log[k] ensures x.trackId != Some(NewTrackId(e.id)) {
        assert LoggedOk(front, prev.log, x);
      }
    }
  }

  lemma FreshFromHistory(front: seq<FrameInput>, input: FrameInput, prev: RunState)
    requires GloballyDistinct(front + [input]) && RunInvariant(front, prev)
    ensures DistinctIds(input.detections) && FreshIds(input.detections, prev.active)
  {
    assert (front + [input])[|front|] == input;
    forall d, t | d in input.detections && t in prev.active ensures t.trackId != NewTrackId(d.id) {
      SpawnedIsNew(front, input, d);
      assert FromSeen(front, t.trackId);
    }
  }

  /** The class of an id over the longer log. */
  lemma ClassOverLonger(log: seq<seq<Detection>>, labelled: seq<Detection>, id: string, cls: string)
    requires ClassIs(log, id, cls)
    requires forall e: Detection :: e in labelled && e.trackId == Some(id) ==> e.cls == cls
    ensures ClassIs(log + [labelled], id, cls)
  {
    var longer := log + [labelled];
    forall k: nat, e: Detection | k < |longer| && e in longer[k] && e.trackId == Some(id) ensures e.cls == cls {
      if k < |log| {
        assert e in log[k];
      }
    }
  }

  lemma LastSeenOverLonger(log: seq<seq<Detection>>, labelled: seq<Detection>, id: string, ts: real)
    requires LastSeenAt(log, id, ts) && !UsedIn(labelled, id)
    ensures LastSeenAt(log + [labelled], id, ts)
  {
    var k, e :| 0 <= k < |log| && e in log[k] && e.trackId == Some(id) && e.frameTs == ts
      && forall l :: k < l < |log| ==> !UsedIn(log[l], id);
    var longer := log + [labelled];
    assert longer[k] == log[k];
    assert forall l :: k < l < |longer| ==> !UsedIn(longer[l], id);
  }

  lemma LastSeenNow(log: seq<seq<Detection>>, labelled: seq<Detection>, e: Detection, id: string)
    requires e in labelled && e.trackId == Some(id)
    ensures LastSeenAt(log + [labelled], id, e.frameTs)
  {
    assert (log + [labelled])[|log|] == labelled;
  }

  /** Two returned detections of one frame with the same track id are the same. */
  lemma OneEachMeans(labelled: seq<Detection>, d: Detection, e: Detection)
    requires OneEach(labelled) && d in labelled && e in labelled && d.trackId == e.trackId
    ensures d == e
  {
  }

  lemma LabelledClass(labelled: seq<Detection>, e: Detection, id: string)
    requires OneEach(labelled) && e in labelled && e.trackId == Some(id)
    ensures forall d :: d in labelled && d.trackId == Some(id) ==> d.cls == e.cls
  {
    forall d | d in labelled && d.trackId == Some(id) ensures d.cls == e.cls {
      OneEachMeans(labelled, d, e);
    }
  }

  /** What the invariant says of a live track, after one more frame. */
  lemma TrackStep(
    front: seq<FrameInput>, input: FrameInput, prev: RunState, labelled: seq<Detection>, t: Track)
    requires GloballyDistinct(front + [input]) && RunInvariant(front, prev)
    requires SameDetections(labelled, input.detections) && OneEach(labelled)
    requires forall e :: e in labelled ==> LabelOk(e, prev.active)
    requires CarriedOn(t, prev.active, labelled, input.dt) || Untouched(t, prev.active, labelled)
    ensures var log := prev.log + [labelled];
            FromSeen(front + [input], t.trackId) && ClassIs(log, t.trackId, t.cls)
            && LastSeenAt(log, t.trackId, t.lastSeenTs)
  {
    if CarriedOn(t, prev.active, labelled, input.dt) {
      var e :| e in labelled && e.trackId == Some(t.trackId) && t.cls == e.cls && t.lastSeenTs == e.frameTs
        && t.obb == e.obb;
      ClassCarriesOn(front, input, prev, labelled, e);
      LabelledClass(labelled, e, t.trackId);
      ClassOverLonger(prev.log, labelled, t.trackId, t.cls);
      LastSeenNow(prev.log, labelled, e, t.trackId);
    } else {
      SeenGrows(front, input, t.trackId);
      ClassOverLonger(prev.log, labelled, t.trackId, t.cls);
      LastSeenOverLonger(prev.log, labelled, t.trackId, t.lastSeenTs);
    }
  }

  /** What the invariant says of a logged detection, after one more frame. */
  lemma LogStep(
    front: seq<FrameInput>, input: FrameInput, prev: RunState, labelled: seq<Detection>, k: nat, e: Detection)
    requires GloballyDistinct(front + [input]) && RunInvariant(front, prev)
    requires SameDetections(labelled, input.detections) && OneEach(labelled)
    requires forall x :: x in labelled ==> LabelOk(x, prev.active)
    requires k <= |prev.log| && e in (prev.log + [labelled])[k]
    ensures LoggedOk(front + [input], prev.log + [labelled], e)
  {
    if k < |prev.log| {
      assert LoggedOk(front, prev.log, e);
      SeenGrows(front, input, e.trackId.value);
      forall x | x in labelled && x.trackId == e.trackId ensures x.cls == e.cls {
        ClassCarriesOn(front, input, prev, labelled, x);
        assert e in prev.log[k];
      }
    } else {
      ClassCarriesOn(front, input, prev, labelled, e);
      LabelledClass(labelled, e, e.trackId.value);
    }
    ClassOverLonger(prev.log, labelled, e.trackId.value, e.cls);
  }

  lemma InvariantStep(
    front: seq<FrameInput>, input: FrameInput, prev: RunState, labelled: seq<Detection>, active: seq<Track>)
    requires GloballyDistinct(front + [input]) && RunInvariant(front, prev)
    requires SameDetections(labelled, input.detections) && OneEach(labelled)
    requires forall x :: x in labelled ==> LabelOk(x, prev.active)
    requires DistinctTracks(active)
    requires forall t :: t in active ==>
      ObbOk(t.obb) && (CarriedOn(t, prev.active, labelled, input.dt) || Untouched(t, prev.active, labelled))
    ensures RunInvariant(front + [input], RunState(active, prev.log + [labelled]))
  {
    hide SameDetections, OneEach, LabelOk, CarriedOn, Untouched, GloballyDistinct, FromSeen, ClassIs, LastSeenAt,
      LoggedOk;
    var log := prev.log + [labelled];
    forall t | t in active
      ensures FromSeen(front + [input], t.trackId) && ClassIs(log, t.trackId, t.cls)
      ensures LastSeenAt(log, t.trackId, t.lastSeenTs)
    {
      TrackStep(front, input, prev, labelled, t);
    }
    forall k, e | 0 <= k < |log| && e in log[k] ensures LoggedOk(front + [input], log, e) {
      LogStep(front, input, prev, labelled, k, e);
    }
  }

  lemma PrefixDistinct(front: seq<FrameInput>, input: FrameInput)
    requires GloballyDistinct(front + [input])
    ensures GloballyDistinct(front)
  {
    var frames := front + [input];
    assert forall k :: 0 <= k < |front| ==> frames[k] == front[k];
  }

  /** The invariant holds after every sequence of frames. */
  lemma {:induction false} RunInvariantHolds(frames: seq<FrameInput>, s: Settings)
    requires GloballyDistinct(frames)
    ensures RunInvariant(frames, Run(frames, s))
  {
    if frames != [] {
      var front, input := frames[..|frames| - 1], frames[|frames| - 1];
      assert frames == front + [input];
      PrefixDistinct(front, input);
      RunInvariantHolds(front, s);
      var prev := Run(front, s);
      FreshFromHistory(front, input, prev);
      if InputsOk(input.detections, prev.active) {
        StitchEffect(input.detections, prev.active, input.dt, input.now, s.maxAge, s.gate, s.iou);
        var out := StitchSpec(input.detections, prev.active, input.dt, input.now, s.maxAge, s.gate, s.iou).value;
        InvariantStep(front, input, prev, out.detections, out.activeTracks);
      } else {
        InvariantAfterRejection(front, input, prev);
      }
    }
  }

  lemma InvariantAfterRejection(front: seq<FrameInput>, input: FrameInput, prev: RunState)
    requires GloballyDistinct(front + [input]) && RunInvariant(front, prev)
    ensures RunInvariant(front + [input], RunState(prev.active, prev.log + [[]]))
  {
    var log := prev.log + [[]];
    forall t | t in prev.active
      ensures FromSeen(front + [input], t.trackId) && ClassIs(log, t.trackId, t.cls)
      ensures LastSeenAt(log, t.trackId, t.lastSeenTs)
    {
      SeenGrows(front, input, t.trackId);
      ClassOverLonger(prev.log, [], t.trackId, t.cls);
      LastSeenOverLonger(prev.log, [], t.trackId, t.lastSeenTs);
    }
    forall k, e | 0 <= k < |log| && e in log[k] ensures LoggedOk(front + [input], log, e) {
      assert LoggedOk(front, prev.log, e);
      SeenGrows(front, input, e.trackId.value);
      ClassOverLonger(prev.log, [], e.trackId.value, e.cls);
    }
  }

  // ----- the properties of runs -----

  /** Over any run: one class per track id, and at most one detection per frame. */
  lemma TrackIdsAreConsistent(frames: seq<FrameInput>, s: Settings, k: nat, l: nat, d: Detection, e: Detection)
    requires GloballyDistinct(frames) && k < |frames| && l < |frames|
    requires d in Run(frames, s).log[k] && e in Run(frames, s).log[l] && d.trackId == e.trackId
    ensures d.trackId.Some? && d.cls == e.cls && (k == l ==> d == e)
  {
    RunInvariantHolds(frames, s);
    var log := Run(frames, s).log;
    assert LoggedOk(frames, log, d);
    if k == l {
      OneEachMeans(log[k], d, e);
    }
  }

  /** A live track's id has been used, by detections of its class only, and last at its recorded time. */
  lemma LiveTracksAreRemembered(frames: seq<FrameInput>, s: Settings, t: Track)
    requires GloballyDistinct(frames) && t in Run(frames, s).active
    ensures ClassIs(Run(frames, s).log, t.trackId, t.cls) && LastSeenAt(Run(frames, s).log, t.trackId, t.lastSeenTs)
  {
    RunInvariantHolds(frames, s);
  }

  ghost predicate Live(r: RunState, trackId: string) {
    exists t :: t in r.active && t.trackId == trackId
  }

  /** One frame brings back no id that has been used and is no longer live. */
  lemma AwayStep(front: seq<FrameInput>, input: FrameInput, prev: RunState, s: Settings, trackId: string)
    requires GloballyDistinct(front + [input]) && RunInvariant(front, prev)
    requires Used(prev.log, trackId) && !Live(prev, trackId)
    ensures var r := Step(prev, input, s);
            !UsedIn(r.log[|prev.log|], trackId) && !Live(r, trackId)
  {
    FreshFromHistory(front, input, prev);
    if InputsOk(input.detections, prev.active) {
      StitchEffect(input.detections, prev.active, input.dt, input.now, s.maxAge, s.gate, s.iou);
      var out := StitchSpec(input.detections, prev.active, input.dt, input.now, s.maxAge, s.gate, s.iou).value;
      NotCarried(front, input, prev, out.detections, trackId);
      assert Step(prev, input, s) == RunState(out.activeTracks, prev.log + [out.detections]);
    }
  }

  lemma NotCarried(front: seq<FrameInput>, input: FrameInput, prev: RunState, labelled: seq<Detection>, trackId: string)
    requires GloballyDistinct(front + [input]) && RunInvariant(front, prev)
    requires Used(prev.log, trackId) && !Live(prev, trackId)
    requires SameDetections(labelled, input.detections) && forall e :: e in labelled ==> LabelOk(e, prev.active)
    ensures !UsedIn(labelled, trackId)
  {
    var k :| 0 <= k < |prev.log| && UsedIn(prev.log[k], trackId);
    var x :| x in prev.log[k] && x.trackId == Some(trackId);
    assert LoggedOk(front, prev.log, x);
    forall e | e in labelled ensures e.trackId != Some(trackId) {
      assert LabelOk(e, prev.active);
      var i :| 0 <= i < |labelled| && labelled[i] == e;
      assert input.detections[i] in input.detections && input.detections[i].id == e.id;
      SpawnedIsNew(front, input, input.detections[i]);
    }
  }

  lemma RetiredStaysAway(front: seq<FrameInput>, input: FrameInput, s: Settings, trackId: string)
    requires GloballyDistinct(front + [input])
    requires Used(Run(front, s).log, trackId) && !Live(Run(front, s), trackId)
    ensures var r := Run(front + [input], s);
            !UsedIn(r.log[|front|], trackId) && !Live(r, trackId)
            && r.log[..|front|] == Run(front, s).log && Used(r.log, trackId)
  {
    hide Step, Live, UsedIn, GloballyDistinct;
    var frames := front + [input];
    assert frames[..|frames| - 1] == front;
    var prev, r := Run(front, s), Run(frames, s);
    assert r == Step(prev, input, s);
    PrefixDistinct(front, input);
    RunInvariantHolds(front, s);
    AwayStep(front, input, prev, s, trackId);
    var k :| 0 <= k < |prev.log| && UsedIn(prev.log[k], trackId);
    assert r.log[k] == r.log[..|front|][k];
  }

  /** Once an id that was used is no longer live, no later frame returns it. */
  lemma {:induction false} RetiredNeverReappears(
    past: seq<FrameInput>, future: seq<FrameInput>, s: Settings, trackId: string, l: nat)
    requires GloballyDistinct(past + future)
    requires Used(Run(past, s).log, trackId) && !Live(Run(past, s), trackId)
    requires l < |past + future|
    ensures l >= |past| ==> !UsedIn(Run(past + future, s).log[l], trackId)
    ensures Used(Run(past + future, s).log, trackId) && !Live(Run(past + future, s), trackId)
    decreases |future|
  {
    hide GloballyDistinct, Used, UsedIn, Live, Run;
    if future == [] {
      assert past + future == past;
    } else {
      var front, input := past + future[..|future| - 1], future[|future| - 1];
      assert past + future == front + [input];
      PrefixDistinct(front, input);
      if |future| == 1 {
        assert front == past;
        RetiredStaysAway(front, input, s, trackId);
      } else {
        RetiredNeverReappears(past, future[..|future| - 1], s, trackId, if l < |front| then l else 0);
        RetiredStaysAway(front, input, s, trackId);
        if l < |front| {
          assert Run(past + future, s).log[..|front|][l] == Run(past + future, s).log[l];
        }
      }
    }
  }
}
