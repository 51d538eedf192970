/** What one frame's association promises: it is the unique stable matching of detections to tracks. */
module StableMatching {
  import opened SharedTypes
  import opened Sorting
  import opened Tracking

  /** Each detection id with the index of its track, or None for a new track. */
  type Matching = map<string, Option<nat>>

  ghost predicate DistinctIds(ds: seq<Detection>) {
    forall i, j :: 0 <= i < j < |ds| ==> ds[i].id != ds[j].id
  }

  ghost predicate DistinctTracks(ts: seq<Track>) {
    forall i, j :: 0 <= i < j < |ts| ==> ts[i].trackId != ts[j].trackId
  }

  /** No live track carries an id that a detection of this frame would spawn. */
  ghost predicate FreshIds(ds: seq<Detection>, ts: seq<Track>) {
    forall d, t :: d in ds && t in ts ==> t.trackId != NewTrackId(d.id)
  }

  /** How much the detection overlaps the box predicted for track k. */
  ghost function OverlapWith(d: Detection, f: Frame, k: nat): real
    requires FrameOk(f) && k < |f.tracks|
  {
    f.iou(d.obb, f.predicted[f.tracks[k].trackId])
  }

  /** Track k is of the detection's class, and they overlap by the gate or more, and at all. */
  ghost predicate Suits(d: Detection, f: Frame, k: nat)
    requires FrameOk(f)
  {
    k < |f.tracks| && f.tracks[k].cls == d.cls && OverlapWith(d, f, k) >= f.gate && OverlapWith(d, f, k) > 0.0
  }

  /** Track k suits d, and d would rather have it than the track it has: for more overlap, or listed first. */
  ghost predicate Wants(d: Detection, f: Frame, k: nat, current: Option<nat>)
    requires FrameOk(f)
  {
    && Suits(d, f, k)
    && match current
       case None => true
       case Some(c) =>
         c < |f.tracks|
         && (OverlapWith(d, f, k) > OverlapWith(d, f, c) || (OverlapWith(d, f, k) == OverlapWith(d, f, c) && k < c))
  }

  ghost predicate Covers(ds: seq<Detection>, f: Frame, m: Matching)
    requires FrameOk(f)
  {
    forall d :: d in ds ==> d.id in m && (m[d.id].Some? ==> Suits(d, f, m[d.id].value))
  }

  /** No two detections have the same track. */
  ghost predicate OneToOne(ds: seq<Detection>, m: Matching)
    requires forall d :: d in ds ==> d.id in m
  {
    forall d, e :: d in ds && e in ds && m[d.id].Some? && m[d.id] == m[e.id] ==> d == e
  }

  /** e is served before d: it is more confident, or as confident and of an earlier id. */
  ghost predicate Above(e: Detection, d: Detection) {
    e.confidence > d.confidence || (e.confidence == d.confidence && StringBefore(e.id, d.id))
  }

  /** Track k is held by a detection that is served before d. */
  ghost predicate HeldAbove(ds: seq<Detection>, m: Matching, d: Detection, k: nat)
    requires forall e :: e in ds ==> e.id in m
  {
    exists e :: e in ds && Above(e, d) && m[e.id] == Some(k)
  }

  /** Whatever admissible track a detection would rather have is held by a detection that is served before. */
  ghost predicate NoneBlocks(ds: seq<Detection>, f: Frame, m: Matching)
    requires FrameOk(f) && forall d :: d in ds ==> d.id in m
  {
    forall d, k :: d in ds && Wants(d, f, k, m[d.id]) ==> HeldAbove(ds, m, d, k)
  }

  ghost predicate Stable(ds: seq<Detection>, f: Frame, m: Matching)
    requires FrameOk(f)
  {
    Covers(ds, f, m) && OneToOne(ds, m) && NoneBlocks(ds, f, m)
  }

  // ----- priority is a strict order on detections with distinct ids -----

  lemma PriorityIsWeakOrder()
    ensures WeakOrder(Priority)
  {
    forall a, b | Priority(a, b) ensures !Priority(b, a) {
      StringBeforeTotal(a.id, b.id);
    }
    forall a, b, c | Priority(a, b) ensures Priority(a, c) || Priority(c, b) {
      if StringBefore(a.id, b.id) {
        StringBeforeWeak(a.id, b.id, c.id);
      }
    }
  }

  lemma PriorityTotal(d: Detection, e: Detection)
    requires d.id != e.id
    ensures Priority(d, e) <==> !Priority(e, d)
  {
    StringBeforeTotal(d.id, e.id);
  }

  lemma DistinctUnderPermutation(a: seq<Detection>, b: seq<Detection>)
    requires multiset(a) == multiset(b) && DistinctIds(a)
    ensures DistinctIds(b)
  {
    KeysStayDistinct(a, b, (d: Detection) => d.id);
  }

  /** The processing order: the most confident first, and equally confident ones by id. */
  lemma OrderedByPriority(ds: seq<Detection>)
    requires DistinctIds(ds)
    ensures DistinctIds(Ordered(ds))
    ensures forall i, j :: 0 <= i < j < |ds| ==> Above(Ordered(ds)[i], Ordered(ds)[j])
  {
    var order := Ordered(ds);
    PriorityIsWeakOrder();
    SortSorts(ds, Priority);
    DistinctUnderPermutation(ds, order);
    forall i, j | 0 <= i < j < |ds| ensures Above(order[i], order[j]) {
      PriorityTotal(order[i], order[j]);
    }
  }

  // ----- at most one stable matching -----

  lemma HigherComesEarlier(ds: seq<Detection>, i: nat, e: Detection)
    requires DistinctIds(ds) && i < |ds| && e in ds && Above(e, Ordered(ds)[i])
    ensures exists j :: 0 <= j < i && Ordered(ds)[j] == e
  {
    var order := Ordered(ds);
    OrderedByPriority(ds);
    assert e in order;
    forall j | i <= j < |order| ensures order[j] != e {
      StringBeforeTotal(order[i].id, order[j].id);
    }
  }

  /** Where two stable matchings agree above d, d does not prefer its second track to its first. */
  lemma NotPreferred(ds: seq<Detection>, f: Frame, m1: Matching, m2: Matching, i: nat, d: Detection, k: nat)
    requires FrameOk(f) && DistinctIds(ds) && Stable(ds, f, m1) && Stable(ds, f, m2)
    requires i < |ds| && Ordered(ds)[i] == d && d in ds
    requires forall j :: 0 <= j < i ==> m1[Ordered(ds)[j].id] == m2[Ordered(ds)[j].id]
    requires m2[d.id] == Some(k) && k < |f.tracks|
    ensures !Wants(d, f, k, m1[d.id])
  {
    if Wants(d, f, k, m1[d.id]) {
      OrderedByPriority(ds);
      assert HeldAbove(ds, m1, d, k);
      var e :| e in ds && Above(e, d) && m1[e.id] == Some(k);
      HigherComesEarlier(ds, i, e);
    }
  }

  lemma {:induction false} StableAgree(ds: seq<Detection>, f: Frame, m1: Matching, m2: Matching, i: nat)
    requires FrameOk(f) && DistinctIds(ds) && Stable(ds, f, m1) && Stable(ds, f, m2)
    requires i <= |ds|
    ensures forall j :: 0 <= j < i ==> m1[Ordered(ds)[j].id] == m2[Ordered(ds)[j].id]
  {
    hide Ordered, OneToOne, NoneBlocks, DistinctIds, FrameOk;
    if i > 0 {
      StableAgree(ds, f, m1, m2, i - 1);
      var d := Ordered(ds)[i - 1];
      assert d in ds;
      if m2[d.id].Some? {
        NotPreferred(ds, f, m1, m2, i - 1, d, m2[d.id].value);
      }
      if m1[d.id].Some? {
        NotPreferred(ds, f, m2, m1, i - 1, d, m1[d.id].value);
      }
    }
  }

  /** A frame has at most one stable matching. */
  lemma StableIsUnique(ds: seq<Detection>, f: Frame, m1: Matching, m2: Matching)
    requires FrameOk(f) && DistinctIds(ds) && Stable(ds, f, m1) && Stable(ds, f, m2)
    ensures forall d :: d in ds ==> m1[d.id] == m2[d.id]
  {
    var order := Ordered(ds);
    StableAgree(ds, f, m1, m2, |order|);
    forall d | d in ds ensures m1[d.id] == m2[d.id] {
      assert d in order;
      var j :| 0 <= j < |order| && order[j] == d;
    }
  }

  // ----- the greedy loop finds it -----

  /** The inner loop returns the most preferred candidate. */
  lemma {:induction false} BestIndexIsBest(det: Detection, f: Frame, matched: set<string>, n: nat, k: nat)
    requires FrameOk(f) && n <= |f.tracks| && k < n && Candidate(det, f, matched, k)
    ensures var best := BestIndex(det, f, matched, n);
            best.Some? && !Wants(det, f, k, best)
  {
    if k < n - 1 {
      BestIndexIsBest(det, f, matched, n - 1, k);
    } else if BestIndex(det, f, matched, n - 1).Some? {
    }
  }

  /** The track indices chosen by the loop for the detections of `order`. */
  ghost function Greedy(w: Work, f: Frame, order: seq<Detection>): (m: Matching)
    requires WorkOk(w, f) && forall d :: d in order ==> ObbOk(d.obb)
    ensures forall d :: d in order ==> d.id in m
  {
    if order == [] then map[]
    else
      var front, det := order[..|order| - 1], order[|order| - 1];
      Greedy(w, f, front)[det.id := BestIndex(det, f, AssociateAll(w, f, front).matched, |f.tracks|)]
  }

  /** The matched ids are exactly those of the tracks given to a detection of `order`. */
  ghost predicate MatchedExactly(m: Matching, matched: set<string>, f: Frame, order: seq<Detection>)
    requires forall d :: d in order ==> d.id in m
  {
    && (forall d, k :: d in order && m[d.id] == Some(k) ==> k < |f.tracks| && f.tracks[k].trackId in matched)
    && (forall k :: 0 <= k < |f.tracks| && f.tracks[k].trackId in matched ==> Taken(m, order, k))
  }

  ghost predicate Taken(m: Matching, order: seq<Detection>, k: nat)
    requires forall d :: d in order ==> d.id in m
  {
    exists d :: d in order && m[d.id] == Some(k)
  }

  lemma AssociateLast(w: Work, f: Frame, order: seq<Detection>)
    requires WorkOk(w, f) && order != [] && forall d :: d in order ==> ObbOk(d.obb)
    ensures var n := |order| - 1;
            AssociateAll(w, f, order) == Associate(AssociateAll(w, f, order[..n]), f, order[n])
  {
  }

  lemma MatchedAfter(w: Work, f: Frame, det: Detection)
    requires WorkOk(w, f) && ObbOk(det.obb)
    ensures Associate(w, f, det).matched
         == w.matched + match BestIndex(det, f, w.matched, |f.tracks|)
                        case Some(k) => {f.tracks[k].trackId}
                        case None => {}
  {
    hide BestIndex, Updated, Spawned;
  }

  /** One more detection: the earlier choices stay, and the matched set gains the new choice. */
  lemma GreedyStep(w: Work, f: Frame, order: seq<Detection>)
    requires WorkOk(w, f) && DistinctIds(order) && order != []
    requires forall d :: d in order ==> ObbOk(d.obb)
    ensures var front, det := order[..|order| - 1], order[|order| - 1];
            var m0, m := Greedy(w, f, front), Greedy(w, f, order);
            var matched := AssociateAll(w, f, front).matched;
            && DistinctIds(front)
            && (forall d :: d in order <==> d in front || d == det)
            && (forall d :: d in front ==> d.id != det.id && m[d.id] == m0[d.id])
            && m[det.id] == BestIndex(det, f, matched, |f.tracks|)
            && AssociateAll(w, f, order).matched
               == matched + (match m[det.id] case Some(k) => {f.tracks[k].trackId} case None => {})
  {
    hide AssociateAll, Associate, BestIndex, WorkOk, ObbOk;
    var front, det := order[..|order| - 1], order[|order| - 1];
    assert order == front + [det];
    AssociateLast(w, f, order);
    MatchedAfter(AssociateAll(w, f, front), f, det);
  }

  lemma {:induction false} GreedyMatched(w: Work, f: Frame, order: seq<Detection>)
    requires WorkOk(w, f) && w.matched == {} && DistinctTracks(f.tracks) && DistinctIds(order)
    requires forall d :: d in order ==> ObbOk(d.obb)
    ensures MatchedExactly(Greedy(w, f, order), AssociateAll(w, f, order).matched, f, order)
  {
    hide Associate, WorkOk, DistinctIds;
    if order == [] {
      assert AssociateAll(w, f, order) == w;
    } else {
      var front, det := order[..|order| - 1], order[|order| - 1];
      assert order == front + [det];
      GreedyStep(w, f, order);
      GreedyMatched(w, f, front);
      hide AssociateAll, Greedy, BestIndex, MatchedExactly, DistinctTracks;
      MatchedStep(Greedy(w, f, front), Greedy(w, f, order), AssociateAll(w, f, front).matched, f, front, det);
    }
  }

  lemma MatchedStep(
    m0: Matching, m: Matching, matched: set<string>, f: Frame, front: seq<Detection>, det: Detection)
    requires DistinctTracks(f.tracks) && forall d :: d in front ==> d.id in m0 && d.id in m && m[d.id] == m0[d.id]
    requires MatchedExactly(m0, matched, f, front) && det.id in m
    requires m[det.id].Some? ==> m[det.id].value < |f.tracks|
    ensures MatchedExactly(m,
      matched + (match m[det.id] case Some(k) => {f.tracks[k].trackId} case None => {}), f, front + [det])
  {
    var order := front + [det];
    var after := matched + (match m[det.id] case Some(k) => {f.tracks[k].trackId} case None => {});
    forall k | 0 <= k < |f.tracks| && f.tracks[k].trackId in after ensures Taken(m, order, k) {
      if f.tracks[k].trackId in matched {
        assert Taken(m0, front, k);
        var d :| d in front && m0[d.id] == Some(k);
        assert d in order;
      } else {
        assert det in order && m[det.id] == Some(k);
      }
    }
  }

  lemma {:induction false} GreedyCovers(w: Work, f: Frame, order: seq<Detection>)
    requires WorkOk(w, f) && w.matched == {} && DistinctTracks(f.tracks) && DistinctIds(order)
    requires forall d :: d in order ==> ObbOk(d.obb)
    ensures Covers(order, f, Greedy(w, f, order)) && OneToOne(order, Greedy(w, f, order))
  {
    hide Associate, WorkOk, DistinctIds;
    if order != [] {
      var front := order[..|order| - 1];
      GreedyStep(w, f, order);
      GreedyCovers(w, f, front);
      GreedyMatched(w, f, front);
      hide AssociateAll, Greedy, BestIndex;
    }
  }

  /** Serving one more detection, of lowest priority, with its best free track creates no blocking pair. */
  lemma ExtendNoneBlocks(
    front: seq<Detection>, det: Detection, f: Frame, m0: Matching, m: Matching, matched: set<string>)
    requires FrameOk(f) && Covers(front, f, m0) && NoneBlocks(front, f, m0) && Covers(front + [det], f, m)
    requires forall d :: d in front ==> Above(d, det) && m[d.id] == m0[d.id]
    requires m[det.id] == BestIndex(det, f, matched, |f.tracks|)
    requires MatchedExactly(m0, matched, f, front)
    ensures NoneBlocks(front + [det], f, m)
  {
    hide Wants, Above, BestIndex, Suits;
    var order := front + [det];
    forall d, k: nat | d in order && Wants(d, f, k, m[d.id])
      ensures HeldAbove(order, m, d, k)
    {
      if d in front {
        assert HeldAbove(front, m0, d, k);
        var e :| e in front && Above(e, d) && m0[e.id] == Some(k);
        assert e in order;
      } else {
        BestLeavesNoneFree(det, f, matched, k);
        assert Taken(m0, front, k);
        var e :| e in front && m0[e.id] == Some(k);
        assert e in order && Above(e, det);
      }
    }
  }

  /** A track that would be preferred to the best candidate is not free. */
  lemma BestLeavesNoneFree(det: Detection, f: Frame, matched: set<string>, k: nat)
    requires FrameOk(f) && Wants(det, f, k, BestIndex(det, f, matched, |f.tracks|))
    ensures k < |f.tracks|
    ensures f.tracks[k].trackId in matched
  {
    if f.tracks[k].trackId !in matched {
      BestIndexIsBest(det, f, matched, |f.tracks|, k);
    }
  }

  lemma {:induction false} GreedyNoneBlocks(w: Work, f: Frame, order: seq<Detection>)
    requires WorkOk(w, f) && w.matched == {} && DistinctTracks(f.tracks) && DistinctIds(order)
    requires forall d :: d in order ==> ObbOk(d.obb)
    requires forall i, j :: 0 <= i < j < |order| ==> Above(order[i], order[j])
    requires Covers(order, f, Greedy(w, f, order))
    ensures NoneBlocks(order, f, Greedy(w, f, order))
  {
    hide Associate, AssociateAll, DistinctIds, Wants, Greedy, Suits;
    if order != [] {
      var front, det := order[..|order| - 1], order[|order| - 1];
      assert forall e :: e in front ==> Above(e, det);
      assert order == front + [det];
      GreedyStep(w, f, order);
      GreedyCovers(w, f, front);
      GreedyNoneBlocks(w, f, front);
      GreedyMatched(w, f, front);
      ExtendNoneBlocks(front, det, f, Greedy(w, f, front), Greedy(w, f, order), AssociateAll(w, f, front).matched);
    }
  }

  /** The association of a frame: greedy over the detections in priority order. */
  ghost function GreedyMatching(ds: seq<Detection>, f: Frame): (m: Matching)
    requires InputsOk(ds, f.tracks) && FrameOk(f)
    ensures forall d :: d in ds ==> d.id in m
  {
    StartIsOk(f.tracks, f);
    Greedy(StartWork(f.tracks), f, Ordered(ds))
  }

  /** The loop's association is stable, hence the only stable one. */
  lemma GreedyIsTheStableMatching(ds: seq<Detection>, f: Frame, m: Matching)
    requires InputsOk(ds, f.tracks) && FrameOk(f) && DistinctIds(ds) && DistinctTracks(f.tracks)
    ensures Stable(ds, f, GreedyMatching(ds, f))
    ensures Stable(ds, f, m) <==> SameChoices(ds, m, GreedyMatching(ds, f))
  {
    var w, order := StartWork(f.tracks), Ordered(ds);
    StartIsOk(f.tracks, f);
    OrderedByPriority(ds);
    GreedyCovers(w, f, order);
    GreedyNoneBlocks(w, f, order);
    StableForSameDetections(order, ds, f, GreedyMatching(ds, f));
    var greedy := GreedyMatching(ds, f);
    hide GreedyMatching, Stable;
    if Stable(ds, f, m) {
      StableIsUnique(ds, f, m, greedy);
      StableCovers(ds, f, m);
      StableCovers(ds, f, greedy);
    }
    if SameChoices(ds, m, greedy) {
      StableByChoices(ds, f, m, greedy);
    }
  }

  /** m gives every detection the same track as m'. */
  ghost predicate SameChoices(ds: seq<Detection>, m: Matching, m': Matching) {
    forall d :: d in ds ==> d.id in m && d.id in m' && m[d.id] == m'[d.id]
  }

  lemma StableCovers(ds: seq<Detection>, f: Frame, m: Matching)
    requires FrameOk(f) && Stable(ds, f, m)
    ensures forall d :: d in ds ==> d.id in m
  {
  }

  lemma StableByChoices(ds: seq<Detection>, f: Frame, m: Matching, m': Matching)
    requires FrameOk(f) && Stable(ds, f, m') && SameChoices(ds, m, m')
    ensures Stable(ds, f, m)
  {
    hide Wants, Above, Suits;
    forall d, k: nat | d in ds && Wants(d, f, k, m[d.id]) ensures HeldAbove(ds, m, d, k) {
      assert HeldAbove(ds, m', d, k);
      var e :| e in ds && Above(e, d) && m'[e.id] == Some(k);
      assert m[e.id] == Some(k);
    }
  }

  /** Stability speaks of the detections only as a collection, not of the order they are listed in. */
  lemma StableForSameDetections(a: seq<Detection>, b: seq<Detection>, f: Frame, m: Matching)
    requires FrameOk(f) && Stable(a, f, m) && forall d :: d in a <==> d in b
    ensures Stable(b, f, m)
  {
    hide Wants, Above, Suits;
    forall d, k: nat | d in b && Wants(d, f, k, m[d.id]) ensures HeldAbove(b, m, d, k) {
      assert HeldAbove(a, m, d, k);
    }
  }

  /** Listing the detections of a frame in another order changes no association. */
  lemma AssociationIgnoresListing(a: seq<Detection>, b: seq<Detection>, f: Frame)
    requires InputsOk(a, f.tracks) && InputsOk(b, f.tracks) && FrameOk(f) && DistinctTracks(f.tracks)
    requires DistinctIds(a) && multiset(a) == multiset(b)
    ensures forall d :: d in a ==> d in b && GreedyMatching(a, f)[d.id] == GreedyMatching(b, f)[d.id]
  {
    hide *;
    SameMembers(a, b);
    DistinctUnderPermutation(a, b);
    GreedyIsTheStableMatching(a, f, GreedyMatching(a, f));
    GreedyIsTheStableMatching(b, f, GreedyMatching(b, f));
    StableForSameDetections(b, a, f, GreedyMatching(b, f));
    StableIsUnique(a, f, GreedyMatching(a, f), GreedyMatching(b, f));
  }

  // ----- what the frame is -----

  /** Where the track is expected dt later: its centre moved by its velocity, its size and angle as they were. */
  ghost predicate Expected(t: Track, dt: real, box: Obb) {
    && |t.obb| == 5 && |box| == 5
    && box[0] == t.obb[0] + dt * t.velocity.0 && box[1] == t.obb[1] + dt * t.velocity.1
    && box[2..] == t.obb[2..]
  }

  /** The frame has these inputs, and a box where each track is expected. */
  ghost predicate IsFrameOf(f: Frame, tracks: seq<Track>, dt: real, gate: real, iou: Overlap) {
    && f.tracks == tracks && f.dt == dt && f.gate == gate && f.iou == iou
    && forall t :: t in tracks ==> t.trackId in f.predicted && Expected(t, dt, f.predicted[t.trackId])
  }

  lemma {:induction false} PredictionsAreExpected(tracks: seq<Track>, dt: real)
    requires DistinctTracks(tracks) && forall t :: t in tracks ==> ObbOk(t.obb)
    ensures forall t :: t in tracks ==> Expected(t, dt, Predictions(tracks, dt)[t.trackId])
  {
    if tracks != [] {
      var front, last := tracks[..|tracks| - 1], tracks[|tracks| - 1];
      PredictionsAreExpected(front, dt);
      assert Expected(last, dt, Predict(last, dt));
      hide Expected, Predict;
      assert forall t :: t in tracks <==> t in front || t == last;
      forall t | t in front ensures t.trackId != last.trackId {
        var i :| 0 <= i < |front| && front[i] == t;
      }
    }
  }

  // ----- what the frame's result says -----

  /** The track id a detection carries under a matching. */
  function LabelOf(d: Detection, f: Frame, choice: Option<nat>): string
    requires choice.Some? ==> choice.value < |f.tracks|
  {
    match choice case Some(k) => f.tracks[k].trackId case None => NewTrackId(d.id)
  }

  lemma {:induction false} AssignmentIsGreedy(w: Work, f: Frame, order: seq<Detection>)
    requires WorkOk(w, f) && w.matched == {} && DistinctTracks(f.tracks) && DistinctIds(order)
    requires forall d :: d in order ==> ObbOk(d.obb)
    ensures Covers(order, f, Greedy(w, f, order))
    ensures forall d :: d in order ==>
      AssociateAll(w, f, order).assignment[d.id] == LabelOf(d, f, Greedy(w, f, order)[d.id])
  {
    GreedyCovers(w, f, order);
    if order != [] {
      GreedyStep(w, f, order);
      AssignmentIsGreedy(w, f, order[..|order| - 1]);
    }
  }

  /** Every detection comes back unchanged but for its track id: the id of its track in the stable
      matching, or a new id derived from its own. */
  lemma StitchLabels(
    ds: seq<Detection>, tracks: seq<Track>, dt: real, now: Option<real>, maxAge: real, gate: real, iou: Overlap)
    requires InputsOk(ds, tracks) && DistinctIds(ds) && DistinctTracks(tracks)
    ensures var f := FrameOf(tracks, dt, gate, iou);
            var out := StitchSpec(ds, tracks, dt, now, maxAge, gate, iou);
            && IsFrameOf(f, tracks, dt, gate, iou)
            && Covers(ds, f, GreedyMatching(ds, f))
            && out.Ok? && |out.value.detections| == |ds|
            && forall i :: 0 <= i < |ds| ==>
                 out.value.detections[i] == ds[i].(trackId := Some(LabelOf(ds[i], f, GreedyMatching(ds, f)[ds[i].id])))
  {
    var f := FrameOf(tracks, dt, gate, iou);
    PredictionsAreExpected(tracks, dt);
    StartIsOk(tracks, f);
    OrderedByPriority(ds);
    AssignmentIsGreedy(StartWork(tracks), f, Ordered(ds));
    GreedyIsTheStableMatching(ds, f, GreedyMatching(ds, f));
  }

  lemma NewTrackIdInjective(a: string, b: string)
    requires NewTrackId(a) == NewTrackId(b)
    ensures a == b
  {
    assert NewTrackId(a)[6..] == a && NewTrackId(b)[6..] == b;
  }

  /** No two detections of a frame carry the same track id. */
  lemma LabelsDiffer(ds: seq<Detection>, f: Frame, m: Matching, d: Detection, e: Detection)
    requires FrameOk(f) && DistinctTracks(f.tracks) && FreshIds(ds, f.tracks) && Stable(ds, f, m)
    requires d in ds && e in ds && d.id != e.id
    ensures LabelOf(d, f, m[d.id]) != LabelOf(e, f, m[e.id])
  {
    var x, y := m[d.id], m[e.id];
    assert NewTrackId(d.id) != NewTrackId(e.id) by {
      if NewTrackId(d.id) == NewTrackId(e.id) {
        NewTrackIdInjective(d.id, e.id);
      }
    }
    assert x.Some? ==> f.tracks[x.value] in f.tracks;
    assert y.Some? ==> f.tracks[y.value] in f.tracks;
  }

  // ----- what becomes of the tracks -----

  /** The dict of tracks after the loop: matched tracks updated, the others as they were, plus the new ones. */
  ghost predicate LiveShape(r: Work, m: Matching, f: Frame, order: seq<Detection>)
    requires forall d :: d in order ==> d.id in m && ObbOk(d.obb)
    requires forall t :: t in f.tracks ==> ObbOk(t.obb)
  {
    && Unrepeated(r.keys)
    && (forall k :: k in r.keys <==> k in r.live)
    && (forall t :: t in f.tracks ==> t.trackId in r.live && (t.trackId !in r.matched ==> r.live[t.trackId] == t))
    && (forall d, k :: d in order && m[d.id] == Some(k) && k < |f.tracks| ==>
          f.tracks[k].trackId in r.live && r.live[f.tracks[k].trackId] == Updated(f.tracks[k], d, f.dt))
    && (forall d :: d in order && m[d.id].None? ==>
          NewTrackId(d.id) in r.live && r.live[NewTrackId(d.id)] == Spawned(d))
    && (forall id :: id in r.live ==> Origin(m, f, order, id))
  }

  ghost predicate Unrepeated(keys: seq<string>) {
    forall i, j :: 0 <= i < j < |keys| ==> keys[i] != keys[j]
  }

  /** id names a track of the frame or one spawned for a detection of `order`. */
  ghost predicate Origin(m: Matching, f: Frame, order: seq<Detection>, id: string)
    requires forall d :: d in order ==> d.id in m
  {
    || (exists t :: t in f.tracks && t.trackId == id)
    || (exists d :: d in order && m[d.id].None? && NewTrackId(d.id) == id)
  }

  lemma {:induction false} StartShape(tracks: seq<Track>)
    requires DistinctTracks(tracks)
    ensures Unrepeated(StartWork(tracks).keys)
    ensures forall t :: t in tracks ==> t.trackId in StartWork(tracks).live && StartWork(tracks).live[t.trackId] == t
  {
    if tracks != [] {
      var front, t := tracks[..|tracks| - 1], tracks[|tracks| - 1];
      assert tracks == front + [t];
      StartShape(front);
    }
  }

  lemma {:induction false} LiveShapeHolds(f: Frame, order: seq<Detection>)
    requires FrameOk(f) && WorkOk(StartWork(f.tracks), f) && DistinctTracks(f.tracks) && DistinctIds(order)
    requires (forall d :: d in order ==> ObbOk(d.obb)) && forall t :: t in f.tracks ==> ObbOk(t.obb)
    requires FreshIds(order, f.tracks)
    ensures LiveShape(AssociateAll(StartWork(f.tracks), f, order), Greedy(StartWork(f.tracks), f, order), f, order)
  {
    var w := StartWork(f.tracks);
    if order == [] {
      StartShape(f.tracks);
      assert AssociateAll(w, f, order) == w && Greedy(w, f, order) == map[];
      EmptyShape(f, w);
    } else {
      LiveShapeHolds(f, order[..|order| - 1]);
      GreedyMatched(w, f, order[..|order| - 1]);
      ShapeStep(w, f, order);
    }
  }

  lemma ShapeStep(w: Work, f: Frame, order: seq<Detection>)
    requires WorkOk(w, f) && DistinctTracks(f.tracks) && DistinctIds(order) && FreshIds(order, f.tracks)
    requires (forall d :: d in order ==> ObbOk(d.obb)) && forall t :: t in f.tracks ==> ObbOk(t.obb)
    requires order != []
    requires var front := order[..|order| - 1];
             && LiveShape(AssociateAll(w, f, front), Greedy(w, f, front), f, front)
             && MatchedExactly(Greedy(w, f, front), AssociateAll(w, f, front).matched, f, front)
    ensures LiveShape(AssociateAll(w, f, order), Greedy(w, f, order), f, order)
  {
    hide LiveShape, MatchedExactly, Updated;
    var front, det := order[..|order| - 1], order[|order| - 1];
    assert order == front + [det];
    GreedyStep(w, f, order);
    var r0, r := AssociateAll(w, f, front), AssociateAll(w, f, order);
    assert r == Associate(r0, f, det);
    var m0, m := Greedy(w, f, front), Greedy(w, f, order);
    assert FreshIds(front, f.tracks);
    hide AssociateAll, Greedy, StartWork, DistinctIds;
    match m[det.id] {
      case Some(k) =>
        ShapeAfterMatch(r0, r, m0, m, f, front, det, k);
      case None =>
        FreshForSpawn(f, order, det);
        ShapeAfterSpawn(r0, r, m0, m, f, front, det);
    }
  }

  lemma EmptyShape(f: Frame, w: Work)
    requires w == StartWork(f.tracks) && Unrepeated(w.keys)
    requires forall t :: t in f.tracks ==> ObbOk(t.obb) && t.trackId in w.live && w.live[t.trackId] == t
    ensures LiveShape(w, map[], f, [])
  {
    forall id | id in w.live ensures Origin(map[], f, [], id) {
      assert id in w.keys;
    }
  }

  lemma FreshForSpawn(f: Frame, order: seq<Detection>, det: Detection)
    requires FreshIds(order, f.tracks) && det in order
    ensures forall t :: t in f.tracks ==> t.trackId != NewTrackId(det.id)
  {
  }

  lemma OriginOfOneMore(m0: Matching, m: Matching, f: Frame, front: seq<Detection>, det: Detection, id: string)
    requires forall d :: d in front ==> d.id in m0 && d.id in m && m[d.id] == m0[d.id]
    requires det.id in m
    requires Origin(m0, f, front, id) || (m[det.id] == None && id == NewTrackId(det.id))
    ensures Origin(m, f, front + [det], id)
  {
    hide NewTrackId;
    assert det in front + [det];
    if d :| d in front && m0[d.id].None? && NewTrackId(d.id) == id {
      assert d in front + [det];
    }
  }

  lemma ShapeAfterMatch(
    r0: Work, r: Work, m0: Matching, m: Matching, f: Frame, front: seq<Detection>, det: Detection, k: nat)
    requires WorkOk(r0, f) && DistinctTracks(f.tracks) && k < |f.tracks| && ObbOk(det.obb)
    requires forall t :: t in f.tracks ==> ObbOk(t.obb)
    requires forall d :: d in front ==> d.id in m0 && ObbOk(d.obb)
    requires forall d :: d in front ==> d.id in m && m[d.id] == m0[d.id]
    requires LiveShape(r0, m0, f, front) && det.id in m && m[det.id] == Some(k)
    requires f.tracks[k].trackId !in r0.matched && FreshIds(front, f.tracks)
    requires MatchedExactly(m0, r0.matched, f, front)
    requires r.keys == r0.keys && r.matched == r0.matched + {f.tracks[k].trackId}
    requires r.live == r0.live[f.tracks[k].trackId := Updated(r0.live[f.tracks[k].trackId], det, f.dt)]
    ensures LiveShape(r, m, f, front + [det])
  {
    hide Updated, WorkOk;
    var order := front + [det];
    assert f.tracks[k] in f.tracks;
    forall d, j | d in order && m[d.id] == Some(j) && j < |f.tracks|
      ensures f.tracks[j].trackId in r.live && r.live[f.tracks[j].trackId] == Updated(f.tracks[j], d, f.dt)
    {
      if d != det {
        assert d in front && m0[d.id] == Some(j);
        assert j != k;
      }
    }
    hide Origin;
    forall id | id in r.live ensures Origin(m, f, front + [det], id) {
      OriginOfOneMore(m0, m, f, front, det, id);
    }
  }

  lemma ShapeAfterSpawn(
    r0: Work, r: Work, m0: Matching, m: Matching, f: Frame, front: seq<Detection>, det: Detection)
    requires ObbOk(det.obb) && forall t :: t in f.tracks ==> ObbOk(t.obb)
    requires forall d :: d in front ==> d.id in m0 && ObbOk(d.obb)
    requires forall d :: d in front ==> d.id != det.id && d.id in m && m[d.id] == m0[d.id]
    requires LiveShape(r0, m0, f, front) && det.id in m && m[det.id] == None
    requires forall t :: t in f.tracks ==> t.trackId != NewTrackId(det.id)
    requires r.matched == r0.matched && r.live == r0.live[NewTrackId(det.id) := Spawned(det)]
    requires r.keys == if NewTrackId(det.id) in r0.live then r0.keys else r0.keys + [NewTrackId(det.id)]
    ensures LiveShape(r, m, f, front + [det])
  {
    hide Updated, Spawned, NewTrackId, Origin;
    forall d | d in front ensures NewTrackId(d.id) != NewTrackId(det.id) {
      if NewTrackId(d.id) == NewTrackId(det.id) {
        NewTrackIdInjective(d.id, det.id);
      }
    }
    var order := front + [det];
    assert det in order;
    forall id | id in r.live ensures Origin(m, f, order, id) {
      OriginOfOneMore(m0, m, f, front, det, id);
    }
    forall d, k | d in order && m[d.id] == Some(k) && k < |f.tracks|
      ensures f.tracks[k].trackId in r.live && r.live[f.tracks[k].trackId] == Updated(f.tracks[k], d, f.dt)
    {
      assert f.tracks[k] in f.tracks && d in front;
    }
  }
}
