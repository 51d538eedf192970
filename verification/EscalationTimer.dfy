/** The schedule index of escalation timers: a sorted set of alert ids scored by their next due time. */
module EscalationTimer {
  import opened Sorting

  datatype DueTimer = DueTimer(alertId: string, dueAt: int)

  /** One cell of the flat [member, score, member, score, ...] reply of a scored range query. */
  datatype Cell = Member(alertId: string) | Score(dueAt: int)

  /** A sorted set lists by score, then by member. */
  predicate ScoreBefore(a: DueTimer, b: DueTimer) {
    a.dueAt < b.dueAt || (a.dueAt == b.dueAt && StringBefore(a.alertId, b.alertId))
  }

  /** `entries` lists, by due time and then by id, and once each, the timers of `due` that are due at `now`. */
  ghost predicate IsDueList(entries: seq<DueTimer>, due: map<string, int>, now: int) {
    && (forall i, j :: 0 <= i < j < |entries| ==>
         || entries[i].dueAt < entries[j].dueAt
         || (entries[i].dueAt == entries[j].dueAt && StringBefore(entries[i].alertId, entries[j].alertId)))
    && (forall i, j :: 0 <= i < j < |entries| ==> entries[i].alertId != entries[j].alertId)
    && (forall e :: e in entries <==> e.alertId in due && due[e.alertId] == e.dueAt && e.dueAt <= now)
  }

  function Flatten(entries: seq<DueTimer>): (flat: seq<Cell>)
    ensures |flat| == 2 * |entries|
    ensures forall i :: 0 <= i < |entries| ==>
      flat[2 * i] == Member(entries[i].alertId) && flat[2 * i + 1] == Score(entries[i].dueAt)
  {
    if entries == [] then []
    else
      var last := entries[|entries| - 1];
      Flatten(entries[..|entries| - 1]) + [Member(last.alertId), Score(last.dueAt)]
  }

  lemma ScoreOrder()
    ensures WeakOrder(ScoreBefore)
  {
    forall a, b | ScoreBefore(a, b) ensures !ScoreBefore(b, a) {
      StringBeforeTotal(a.alertId, b.alertId);
    }
    forall a, b, c | ScoreBefore(a, b) ensures ScoreBefore(a, c) || ScoreBefore(c, b) {
      if StringBefore(a.alertId, b.alertId) {
        StringBeforeWeak(a.alertId, b.alertId, c.alertId);
      }
    }
  }

  class Timer {
    /** The sorted set: each member once, with its score. */
    var due: map<string, int>

    constructor ()
      ensures due == map[]
    {
      due := map[];
    }

    /** Sets or replaces the next due time. */
    method Schedule(alertId: string, dueAtMs: int)
      modifies this
      ensures due == old(due)[alertId := dueAtMs]
    {
      due := due[alertId := dueAtMs];
    }

    method Cancel(alertId: string)
      modifies this
      ensures due == old(due) - {alertId}
    {
      due := due - {alertId};
    }

    /** The store's range query: every member with a score of at most nowMs, flattened with its score. */
    method RangeByScore(nowMs: int) returns (flat: seq<Cell>, ghost entries: seq<DueTimer>)
      ensures flat == Flatten(entries) && IsDueList(entries, due, nowMs)
    {
      var remaining := set id | id in due && due[id] <= nowMs;
      var picked: seq<DueTimer> := [];
      while remaining != {}
        invariant remaining <= set id | id in due && due[id] <= nowMs
        invariant forall i, j :: 0 <= i < j < |picked| ==> picked[i].alertId != picked[j].alertId
        invariant forall e :: e in picked <==>
          e.alertId in due && due[e.alertId] == e.dueAt && e.dueAt <= nowMs && e.alertId !in remaining
        decreases |remaining|
      {
        var id :| id in remaining;
        picked := picked + [DueTimer(id, due[id])];
        remaining := remaining - {id};
      }
      var sorted := Sort(picked, ScoreBefore);
      SortedIsDueList(picked, due, nowMs);
      entries := sorted;
      flat := Flatten(sorted);
    }

    /** All entries due at nowMs, read back from the flat reply two cells at a time. */
    method DueEntries(nowMs: int) returns (entries: seq<DueTimer>)
      ensures IsDueList(entries, due, nowMs)
    {
      var flat, listed := RangeByScore(nowMs);
      entries := [];
      var i := 0;
      while i + 1 < |flat|
        invariant i == 2 * |entries| && |entries| <= |listed|
        invariant entries == listed[..|entries|]
      {
        ghost var n := |entries|;
        assert flat[2 * n] == Member(listed[n].alertId) && flat[2 * n + 1] == Score(listed[n].dueAt);
        entries := entries + [DueTimer(flat[i].alertId, flat[i + 1].dueAt)];
        i := i + 2;
      }
      assert listed[..|listed|] == listed;
    }
  }

  lemma SortedIsDueList(picked: seq<DueTimer>, due: map<string, int>, now: int)
    requires forall i, j :: 0 <= i < j < |picked| ==> picked[i].alertId != picked[j].alertId
    requires forall e :: e in picked <==> e.alertId in due && due[e.alertId] == e.dueAt && e.dueAt <= now
    ensures IsDueList(Sort(picked, ScoreBefore), due, now)
  {
    hide ScoreBefore, StringBefore, Sort;
    var sorted := Sort(picked, ScoreBefore);
    ScoreOrder();
    SortSorts(picked, ScoreBefore);
    SameMembers(sorted, picked);
    KeysStayDistinct(picked, sorted, (e: DueTimer) => e.alertId);
    forall i, j | 0 <= i < j < |sorted|
      ensures sorted[i].dueAt < sorted[j].dueAt
        || (sorted[i].dueAt == sorted[j].dueAt && StringBefore(sorted[i].alertId, sorted[j].alertId))
    {
      NotLater(sorted[i], sorted[j]);
    }
  }

  lemma NotLater(a: DueTimer, b: DueTimer)
    ensures !ScoreBefore(b, a) && a.alertId != b.alertId ==>
      a.dueAt < b.dueAt || (a.dueAt == b.dueAt && StringBefore(a.alertId, b.alertId))
  {
    StringBeforeTotal(a.alertId, b.alertId);
    hide StringBefore;
  }
}
