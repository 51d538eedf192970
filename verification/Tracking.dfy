/** Track stitching: greedy association of one frame's detections with the active tracks.
    The overlap measure of two oriented boxes is a parameter; nothing is assumed about it. */
module Tracking {
  import opened SharedTypes
  import opened Sorting

  /** [cx, cy, w, h, angle]; any other length is rejected at run time. */
  type Obb = seq<real>

  type Overlap = (Obb, Obb) -> real

  datatype Detection = Detection(
    id: string, cls: string, confidence: real, obb: Obb, frameTs: real, trackId: Option<string>)

  datatype Track = Track(trackId: string, cls: string, obb: Obb, lastSeenTs: real, velocity: (real, real))

  datatype StitchResult = StitchResult(detections: seq<Detection>, activeTracks: seq<Track>)

  datatype StitchError = BadObb

  predicate ObbOk(obb: Obb) {
    |obb| == 5
  }

  function Predict(t: Track, dt: real): Obb
    requires ObbOk(t.obb)
  {
    [t.obb[0] + t.velocity.0 * dt, t.obb[1] + t.velocity.1 * dt, t.obb[2], t.obb[3], t.obb[4]]
  }

  function NewTrackId(id: string): string {
    "track-" + id
  }

  /** Highest confidence first, ties by detection id. */
  predicate Priority(a: Detection, b: Detection) {
    a.confidence > b.confidence || (a.confidence == b.confidence && StringBefore(a.id, b.id))
  }

  // ----- the loops, as functions -----

  /** What stays fixed while one frame is stitched. */
  datatype Frame = Frame(tracks: seq<Track>, predicted: map<string, Obb>, gate: real, dt: real, iou: Overlap)

  /** The mutable working state: matched track ids, the ordered dict of tracks, detection id -> track id. */
  datatype Work = Work(
    matched: set<string>, keys: seq<string>, live: map<string, Track>, assignment: map<string, string>)
  {
    ghost predicate Valid() {
      forall k :: k in keys <==> k in live
    }

    function Put(id: string, track: Track): Work {
      this.(keys := if id in live then keys else keys + [id], live := live[id := track])
    }
  }

  function Predictions(tracks: seq<Track>, dt: real): (m: map<string, Obb>)
    requires forall t :: t in tracks ==> ObbOk(t.obb)
    ensures forall t :: t in tracks ==> t.trackId in m
  {
    if tracks == [] then map[]
    else
      var t := tracks[|tracks| - 1];
      Predictions(tracks[..|tracks| - 1], dt)[t.trackId := Predict(t, dt)]
  }

  function StartWork(tracks: seq<Track>): (w: Work)
    ensures w.Valid() && w.matched == {} && w.assignment == map[]
    ensures forall k :: k in w.keys <==> exists t :: t in tracks && t.trackId == k
  {
    if tracks == [] then Work({}, [], map[], map[])
    else
      var t := tracks[|tracks| - 1];
      assert tracks == tracks[..|tracks| - 1] + [t];
      StartWork(tracks[..|tracks| - 1]).Put(t.trackId, t)
  }

  ghost predicate FrameOk(f: Frame) {
    forall t :: t in f.tracks ==> t.trackId in f.predicted
  }

  function Score(det: Detection, f: Frame, k: nat): real
    requires FrameOk(f) && k < |f.tracks|
  {
    f.iou(det.obb, f.predicted[f.tracks[k].trackId])
  }

  /** Track k is of the detection's class and overlaps its prediction enough. */
  predicate Admissible(det: Detection, f: Frame, k: nat)
    requires FrameOk(f)
  {
    k < |f.tracks| && f.tracks[k].cls == det.cls && Score(det, f, k) >= f.gate && Score(det, f, k) > 0.0
  }

  predicate Candidate(det: Detection, f: Frame, matched: set<string>, k: nat)
    requires FrameOk(f)
  {
    Admissible(det, f, k) && f.tracks[k].trackId !in matched
  }

  /** The inner loop: the first of the best candidates among the first n tracks. */
  function BestIndex(det: Detection, f: Frame, matched: set<string>, n: nat): (best: Option<nat>)
    requires FrameOk(f) && n <= |f.tracks|
    ensures best.Some? ==> best.value < n && Candidate(det, f, matched, best.value)
  {
    if n == 0 then None
    else
      var best := BestIndex(det, f, matched, n - 1);
      if Candidate(det, f, matched, n - 1) && (best.None? || Score(det, f, n - 1) > Score(det, f, best.value))
      then Some(n - 1) else best
  }

  function Updated(existing: Track, det: Detection, dt: real): Track
    requires ObbOk(existing.obb) && ObbOk(det.obb)
  {
    var velocity :=
      if dt > 0.0 then ((det.obb[0] - existing.obb[0]) / dt, (det.obb[1] - existing.obb[1]) / dt)
      else existing.velocity;
    existing.(obb := det.obb, lastSeenTs := det.frameTs, velocity := velocity)
  }

  function Spawned(det: Detection): Track {
    Track(NewTrackId(det.id), det.cls, det.obb, det.frameTs, (0.0, 0.0))
  }

  ghost predicate WorkOk(w: Work, f: Frame) {
    && w.Valid() && FrameOk(f)
    && (forall k :: k in w.live ==> ObbOk(w.live[k].obb))
    && (forall t :: t in f.tracks ==> t.trackId in w.live)
  }

  /** The outer loop body for one detection. */
  function Associate(w: Work, f: Frame, det: Detection): (r: Work)
    requires WorkOk(w, f) && ObbOk(det.obb)
    ensures WorkOk(r, f)
  {
    var best := BestIndex(det, f, w.matched, |f.tracks|);
    match best
    case Some(k) =>
      var id := f.tracks[k].trackId;
      w.Put(id, Updated(w.live[id], det, f.dt))
       .(matched := w.matched + {id}, assignment := w.assignment[det.id := id])
    case None =>
      var id := NewTrackId(det.id);
      w.Put(id, Spawned(det)).(assignment := w.assignment[det.id := id])
  }

  function AssociateAll(w: Work, f: Frame, order: seq<Detection>): (r: Work)
    requires WorkOk(w, f) && forall d :: d in order ==> ObbOk(d.obb)
    ensures WorkOk(r, f) && r.Valid()
    ensures forall d :: d in order ==> d.id in r.assignment
  {
    if order == [] then w
    else Associate(AssociateAll(w, f, order[..|order| - 1]), f, order[|order| - 1])
  }

  function Retained(w: Work, now: real, maxAge: real, n: nat): seq<Track>
    requires w.Valid() && n <= |w.keys|
  {
    if n == 0 then []
    else
      var t := w.live[w.keys[n - 1]];
      Retained(w, now, maxAge, n - 1) + if now - t.lastSeenTs <= maxAge then [t] else []
  }

  function MaxReal(a: real, b: real): real {
    if a >= b then a else b
  }

  function NewestDetection(ds: seq<Detection>): real
    requires ds != []
  {
    if |ds| == 1 then ds[0].frameTs else MaxReal(ds[0].frameTs, NewestDetection(ds[1..]))
  }

  function NewestTrack(ts: seq<Track>): real
    requires ts != []
  {
    if |ts| == 1 then ts[0].lastSeenTs else MaxReal(ts[0].lastSeenTs, NewestTrack(ts[1..]))
  }

  /** The reference time of a frame: given, else the newest detection, else the newest track, else 0. */
  function ResolveNow(detections: seq<Detection>, tracks: seq<Track>, now: Option<real>): real {
    match now
    case Some(t) => t
    case None =>
      if detections != [] then NewestDetection(detections)
      else if tracks != [] then NewestTrack(tracks)
      else 0.0
  }

  predicate InputsOk(detections: seq<Detection>, tracks: seq<Track>) {
    (forall d :: d in detections ==> ObbOk(d.obb)) && (forall t :: t in tracks ==> ObbOk(t.obb))
  }

  function Ordered(detections: seq<Detection>): (order: seq<Detection>)
    ensures |order| == |detections| && multiset(order) == multiset(detections)
    ensures forall d :: d in order <==> d in detections
  {
    var order := Sort(detections, Priority);
    assert forall d :: d in order <==> d in multiset(order);
    order
  }

  function FrameOf(tracks: seq<Track>, dt: real, gate: real, iou: Overlap): (f: Frame)
    requires forall t :: t in tracks ==> ObbOk(t.obb)
    ensures FrameOk(f)
  {
    Frame(tracks, Predictions(tracks, dt), gate, dt, iou)
  }

  lemma {:induction false} StartWorkOk(tracks: seq<Track>)
    requires forall t :: t in tracks ==> ObbOk(t.obb)
    ensures forall k :: k in StartWork(tracks).live ==> ObbOk(StartWork(tracks).live[k].obb)
  {
    if tracks != [] {
      StartWorkOk(tracks[..|tracks| - 1]);
    }
  }

  function FinalWork(detections: seq<Detection>, tracks: seq<Track>, f: Frame): (w: Work)
    requires InputsOk(detections, tracks) && f.tracks == tracks && FrameOk(f)
    ensures w.Valid()
    ensures forall d :: d in detections ==> d.id in w.assignment
  {
    StartWorkOk(tracks);
    var order := Ordered(detections);
    AssociateAll(StartWork(tracks), f, order)
  }

  function Labelled(detections: seq<Detection>, assignment: map<string, string>): (r: seq<Detection>)
    requires forall d :: d in detections ==> d.id in assignment
    ensures |r| == |detections|
    ensures forall i :: 0 <= i < |r| ==> r[i] == detections[i].(trackId := Some(assignment[detections[i].id]))
  {
    if detections == [] then []
    else
      var d := detections[|detections| - 1];
      Labelled(detections[..|detections| - 1], assignment) + [d.(trackId := Some(assignment[d.id]))]
  }

  function StitchSpec(
    detections: seq<Detection>, activeTracks: seq<Track>, dt: real,
    now: Option<real>, maxAge: real, gate: real, iou: Overlap
  ): Result<StitchResult, StitchError>
  {
    if !InputsOk(detections, activeTracks) then Err(BadObb)
    else
      var w := FinalWork(detections, activeTracks, FrameOf(activeTracks, dt, gate, iou));
      Ok(StitchResult(
        Labelled(detections, w.assignment),
        Retained(w, ResolveNow(detections, activeTracks, now), maxAge, |w.keys|)))
  }

  lemma StartIsOk(tracks: seq<Track>, f: Frame)
    requires FrameOk(f) && f.tracks == tracks && forall t :: t in tracks ==> ObbOk(t.obb)
    ensures WorkOk(StartWork(tracks), f)
  {
    StartWorkOk(tracks);
  }

  /** The inner loop over the tracks, with its best-so-far variables. */
  method FindBest(det: Detection, f: Frame, matchedIds: set<string>) returns (bestTrackId: Option<string>)
    requires FrameOk(f)
    ensures bestTrackId == match BestIndex(det, f, matchedIds, |f.tracks|)
                           case Some(b) => Some(f.tracks[b].trackId)
                           case None => None
  {
    bestTrackId := None;
    var bestIou := f.gate;
    for k := 0 to |f.tracks|
      invariant bestTrackId == match BestIndex(det, f, matchedIds, k)
                               case Some(b) => Some(f.tracks[b].trackId)
                               case None => None
      invariant bestIou == match BestIndex(det, f, matchedIds, k)
                           case Some(b) => Score(det, f, b)
                           case None => f.gate
    {
      var track := f.tracks[k];
      if track.trackId !in matchedIds && track.cls == det.cls {
        var overlap := f.iou(det.obb, f.predicted[track.trackId]);
        if overlap >= bestIou && overlap > 0.0 {
          if bestTrackId.None? || overlap > bestIou {
            bestIou := overlap;
            bestTrackId := Some(track.trackId);
          }
        }
      }
    }
  }

  /** The outer loop body: match the best track or spawn a new one. */
  method AssociateOne(w: Work, f: Frame, det: Detection) returns (work: Work)
    requires WorkOk(w, f) && ObbOk(det.obb)
    ensures work == Associate(w, f, det)
  {
    work := w;
    var best := FindBest(det, f, work.matched);
    match best {
      case Some(id) =>
        work := work.(matched := work.matched + {id});
        work := work.(assignment := work.assignment[det.id := id]);
        work := work.Put(id, Updated(work.live[id], det, f.dt));
      case None =>
        var newId := NewTrackId(det.id);
        work := work.(assignment := work.assignment[det.id := newId]);
        work := work.Put(newId, Spawned(det));
    }
  }

  method StitchTracks(
    detections: seq<Detection>, activeTracks: seq<Track>, dt: real,
    now: Option<real>, maxAge: real, gate: real, iou: Overlap
  ) returns (r: Result<StitchResult, StitchError>)
    ensures r == StitchSpec(detections, activeTracks, dt, now, maxAge, gate, iou)
  {
    hide Associate, Predictions, Priority, NewestDetection, NewestTrack, Retained, WorkOk, StartWork;
    if exists t :: t in activeTracks && !ObbOk(t.obb) {
      return Err(BadObb);
    }
    var f := FrameOf(activeTracks, dt, gate, iou);
    var work := StartWork(activeTracks);
    ghost var start := work;
    StartIsOk(activeTracks, f);
    var order := Ordered(detections);
    for i := 0 to |order|
      invariant forall d :: d in order[..i] ==> ObbOk(d.obb)
      invariant WorkOk(work, f)
      invariant work == AssociateAll(start, f, order[..i])
    {
      var det := order[i];
      if !ObbOk(det.obb) {
        assert det in detections;
        return Err(BadObb);
      }
      assert order[..i + 1] == order[..i] + [det];
      work := AssociateOne(work, f, det);
    }
    assert order[..|order|] == order;
    var reference := ResolveNow(detections, activeTracks, now);
    r := Ok(StitchResult(Labelled(detections, work.assignment), Retained(work, reference, maxAge, |work.keys|)));
  }
}
