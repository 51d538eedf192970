/** The sort keys of the scene classifier are strict total orders, so a sorted listing is unique. */
module SceneOrder {
  import opened SharedTypes
  import opened Sorting
  import opened Scene

  lemma PointsAreOrdered()
    ensures WeakOrder(PointBefore)
    ensures forall a, b :: a != b ==> PointBefore(a, b) || PointBefore(b, a)
  {
  }

  /** However the samples are listed, the history is the same. */
  lemma HistoryIgnoresListing(a: seq<TrackPoint>, b: seq<TrackPoint>)
    requires multiset(a) == multiset(b)
    ensures OrderedPoints(a) == OrderedPoints(b)
  {
    PointsAreOrdered();
    SortSorts(a, PointBefore);
    SortSorts(b, PointBefore);
    SortedListingUnique(OrderedPoints(a), OrderedPoints(b), PointBefore);
  }

  /** p was seen before q, or at the same time at the same place or further left, or there further down. */
  ghost predicate NotAfter(p: TrackPoint, q: TrackPoint) {
    p.ts < q.ts || (p.ts == q.ts && (p.x < q.x || (p.x == q.x && p.y <= q.y)))
  }

  ghost predicate Chronological(pts: seq<TrackPoint>) {
    forall i, j :: 0 <= i < j < |pts| ==> NotAfter(pts[i], pts[j])
  }

  lemma HistoryIsInTimeOrder(points: seq<TrackPoint>)
    ensures var pts := OrderedPoints(points);
            && multiset(pts) == multiset(points)
            && Chronological(pts)
  {
    PointsAreOrdered();
    SortSorts(points, PointBefore);
    var pts := OrderedPoints(points);
    forall i, j | 0 <= i < j < |pts| ensures NotAfter(pts[i], pts[j]) {
      assert !PointBefore(pts[j], pts[i]);
    }
  }

  lemma {:induction false} IdsBeforeTotal(a: seq<string>, b: seq<string>)
    ensures a != b <==> IdsBefore(a, b) || IdsBefore(b, a)
    ensures !(IdsBefore(a, b) && IdsBefore(b, a))
  {
    if a != [] && b != [] {
      if a[0] == b[0] {
        IdsBeforeTotal(a[1..], b[1..]);
        assert a == [a[0]] + a[1..] && b == [b[0]] + b[1..];
      } else {
        StringBeforeTotal(a[0], b[0]);
      }
    }
  }

  lemma {:induction false} IdsBeforeWeak(a: seq<string>, b: seq<string>, c: seq<string>)
    requires IdsBefore(a, b)
    ensures IdsBefore(a, c) || IdsBefore(c, b)
  {
    hide StringBefore;
    if a != [] && c != [] {
      if a[0] == b[0] == c[0] {
        IdsBeforeWeak(a[1..], b[1..], c[1..]);
      } else if a[0] == b[0] {
        StringBeforeTotal(a[0], c[0]);
      } else {
        StringBeforeWeak(a[0], b[0], c[0]);
      }
    }
  }

  lemma EventBeforeTotal(a: SceneEvent, b: SceneEvent)
    ensures a != b <==> EventBefore(a, b) || EventBefore(b, a)
    ensures !(EventBefore(a, b) && EventBefore(b, a))
  {
    StringBeforeTotal(a.zoneId, b.zoneId);
    IdsBeforeTotal(a.trackIds, b.trackIds);
    hide StringBefore, IdsBefore;
  }

  lemma EventBeforeWeak(a: SceneEvent, b: SceneEvent, c: SceneEvent)
    requires EventBefore(a, b)
    ensures EventBefore(a, c) || EventBefore(c, b)
  {
    StringBeforeTotal(a.zoneId, c.zoneId);
    if StringBefore(a.zoneId, b.zoneId) {
      StringBeforeWeak(a.zoneId, b.zoneId, c.zoneId);
    }
    if IdsBefore(a.trackIds, b.trackIds) {
      IdsBeforeWeak(a.trackIds, b.trackIds, c.trackIds);
    }
    hide StringBefore, IdsBefore;
  }

  /** The names the kinds are sorted by. */
  function KindName(kind: Kind): string {
    match kind
    case GroupGathering => "group_gathering"
    case PersonEnteredZone => "person_entered_zone"
    case VehicleStopped => "vehicle_stopped"
  }

  /** a and b have the same first n ids, and a ends there or has the earlier next one. */
  ghost predicate IdsDifferAt(a: seq<string>, b: seq<string>, n: nat) {
    n <= |a| && n < |b| && a[..n] == b[..n] && (n == |a| || StringBefore(a[n], b[n]))
  }

  /** By the name of the kind, then by zone, time and ids. */
  ghost predicate ListedBefore(a: SceneEvent, b: SceneEvent) {
    || StringBefore(KindName(a.kind), KindName(b.kind))
    || (a.kind == b.kind && StringBefore(a.zoneId, b.zoneId))
    || (a.kind == b.kind && a.zoneId == b.zoneId && a.ts < b.ts)
    || (a.kind == b.kind && a.zoneId == b.zoneId && a.ts == b.ts
        && exists n: nat :: IdsDifferAt(a.trackIds, b.trackIds, n))
  }

  lemma {:induction false} IdsBeforeIff(a: seq<string>, b: seq<string>)
    ensures IdsBefore(a, b) <==> exists n: nat :: IdsDifferAt(a, b, n)
  {
    hide StringBefore;
    if b != [] && a != [] && a[0] == b[0] {
      IdsBeforeIff(a[1..], b[1..]);
      StringBeforeTotal(a[0], b[0]);
      if n: nat :| IdsDifferAt(a[1..], b[1..], n) {
        assert a[..n + 1] == [a[0]] + a[1..][..n] && b[..n + 1] == [b[0]] + b[1..][..n];
        assert IdsDifferAt(a, b, n + 1);
      }
      if n: nat :| IdsDifferAt(a, b, n) {
        assert a[..n][1..] == a[1..][..n - 1] && b[..n][1..] == b[1..][..n - 1];
        assert IdsDifferAt(a[1..], b[1..], n - 1);
      }
    } else if b != [] && (a == [] || StringBefore(a[0], b[0])) {
      assert IdsDifferAt(a, b, 0);
    } else {
      forall n: nat ensures IdsDifferAt(a, b, n) && n > 0 ==> a[0] == b[0] {
        SameFirstId(a, b, n);
      }
    }
  }

  lemma SameFirstId(a: seq<string>, b: seq<string>, n: nat)
    ensures IdsDifferAt(a, b, n) && n > 0 ==> a[0] == b[0]
  {
    hide StringBefore;
    if IdsDifferAt(a, b, n) && n > 0 {
      assert a[..n][0] == b[..n][0];
    }
  }

  lemma KindsByName(a: Kind, b: Kind)
    ensures StringBefore(KindName(a), KindName(b)) <==> Rank(a) < Rank(b)
  {
    if a == b {
      StringBeforeTotal(KindName(a), KindName(b));
    } else {
      assert KindName(a)[0] != KindName(b)[0];
    }
  }

  lemma EventBeforeIff(a: SceneEvent, b: SceneEvent)
    ensures EventBefore(a, b) <==> ListedBefore(a, b)
  {
    KindsByName(a.kind, b.kind);
    KindsByName(b.kind, a.kind);
    IdsBeforeIff(a.trackIds, b.trackIds);
    StringBeforeTotal(a.zoneId, b.zoneId);
    hide StringBefore, KindName, IdsBefore;
  }

  lemma EventsAreOrdered()
    ensures WeakOrder(EventBefore)
    ensures forall a, b :: a != b ==> EventBefore(a, b) || EventBefore(b, a)
  {
    forall a, b
      ensures (a != b <==> EventBefore(a, b) || EventBefore(b, a)) && !(EventBefore(a, b) && EventBefore(b, a)) {
      EventBeforeTotal(a, b);
    }
    forall a, b, c | EventBefore(a, b) ensures EventBefore(a, c) || EventBefore(c, b) {
      EventBeforeWeak(a, b, c);
    }
    hide EventBefore;
  }

  lemma StringsAreOrdered()
    ensures WeakOrder(StringBefore)
    ensures forall a, b :: a != b ==> StringBefore(a, b) || StringBefore(b, a)
  {
    forall a, b
      ensures (a != b <==> StringBefore(a, b) || StringBefore(b, a)) && !(StringBefore(a, b) && StringBefore(b, a)) {
      StringBeforeTotal(a, b);
    }
    forall a, b, c | StringBefore(a, b) ensures StringBefore(a, c) || StringBefore(c, b) {
      StringBeforeWeak(a, b, c);
    }
    hide StringBefore;
  }

  ghost predicate NoRepeats<T>(s: seq<T>) {
    forall i, j :: 0 <= i < j < |s| ==> s[i] != s[j]
  }

  lemma {:induction false} CountWithoutRepeats<T>(s: seq<T>, x: T)
    requires NoRepeats(s)
    ensures multiset(s)[x] == if x in s then 1 else 0
  {
    if s != [] {
      var front, last := s[..|s| - 1], s[|s| - 1];
      assert s == front + [last];
      CountWithoutRepeats(front, x);
      assert x in s <==> x in front || x == last;
    }
  }

  lemma SameMultiset<T>(a: seq<T>, b: seq<T>)
    requires NoRepeats(a) && NoRepeats(b)
    requires forall x :: x in a <==> x in b
    ensures multiset(a) == multiset(b)
  {
    forall x ensures multiset(a)[x] == multiset(b)[x] {
      CountWithoutRepeats(a, x);
      CountWithoutRepeats(b, x);
    }
  }

  lemma SameSortedList<T(!new)>(a: seq<T>, b: seq<T>, before: (T, T) -> bool)
    requires WeakOrder(before) && (forall x, y :: x != y ==> before(x, y) || before(y, x))
    requires NoRepeats(a) && NoRepeats(b) && forall x :: x in a <==> x in b
    ensures Sort(a, before) == Sort(b, before)
  {
    SameMultiset(a, b);
    SortSorts(a, before);
    SortSorts(b, before);
    SortedListingUnique(Sort(a, before), Sort(b, before), before);
  }

  lemma SortKeepsMembers<T(!new)>(a: seq<T>, before: (T, T) -> bool)
    ensures forall x :: x in Sort(a, before) <==> x in a
  {
    SameMembers(a, Sort(a, before));
  }

  /** Rearranging a list does not create repetitions. */
  lemma {:induction false} NoRepeatsAgain<T(!new)>(a: seq<T>, b: seq<T>)
    requires multiset(a) == multiset(b) && NoRepeats(a)
    ensures NoRepeats(b)
  {
    forall i, j | 0 <= i < j < |b| ensures b[i] != b[j] {
      if b[i] == b[j] {
        TwiceInMultiset(b, i, j);
        CountWithoutRepeats(a, b[i]);
      }
    }
  }
}
