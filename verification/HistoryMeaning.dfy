/** What the planned query promises: the narrowest buckets that fit, inside the range, with no sample lost but at
    the very end. */
module HistoryMeaning {
  import opened SharedTypes
  import opened Sorting
  import opened History

  /** The number of buckets that a request asks for: 500 when it asks for none, at most 5000; None when what it gives is
      no whole number from 1 up. */
  ghost function AskedBuckets(p: Parsers, raw: RawBuckets): Option<int> {
    if raw.Unset? || (raw.Text? && forall c :: c in raw.text ==> IsSpace(c)) then Some(500)
    else
      match (if raw.Number? then Some(raw.value) else p.number(raw.text))
      case None => None
      case Some(x) =>
        if x >= 1.0 && x.Floor as real == x then Some(if x <= 5000.0 then x.Floor else 5000) else None
  }

  lemma BucketsAreAsked(p: Parsers, raw: RawBuckets)
    ensures ResolveBuckets(p, raw) == AskedBuckets(p, raw)
  {
    if raw.Text? {
      TrimmedIsBlankIff(raw.text);
    }
    hide IsSpace, Trim;
  }

  /** s without the spaces around it is t. */
  ghost predicate Bare(s: string, t: string) {
    && (exists a, b :: s == a + t + b && forall c :: c in a + b ==> IsSpace(c))
    && (t != [] ==> !IsSpace(t[0]) && !IsSpace(t[|t| - 1]))
  }

  /** A query is accepted exactly when the drone is named, both ends parse in order, and the bucket count resolves. It
      is then for that drone, those ends and that count; otherwise the error tells the first of these that fails. */
  lemma AcceptedIff(p: Parsers, input: Input)
    ensures var r, from, to := ValidateHistoryQuery(p, input), p.time(input.from), p.time(input.to);
            var named := input.droneId.Some? && exists c :: c in input.droneId.value && !IsSpace(c);
            if !named then r == Err(MissingDrone)
            else if from.None? then r == Err(BadFrom)
            else if to.None? then r == Err(BadTo)
            else if from.value > to.value then r == Err(InvertedRange)
            else if AskedBuckets(p, input.buckets).None? then r == Err(BadBuckets)
            else
              && r.Ok? && Normalized(r.value) && r.value.droneId != [] && Bare(input.droneId.value, r.value.droneId)
              && r.value.fromMs == from.value && r.value.toMs == to.value
              && r.value.buckets == AskedBuckets(p, input.buckets).value
  {
    BucketsAreAsked(p, input.buckets);
    if input.droneId.Some? {
      TrimmedIsBlankIff(input.droneId.value);
      TrimmedIsBare(input.droneId.value);
    }
    hide IsSpace, Trim, ResolveBuckets, Bare;
  }

  lemma {:induction false} TrimStartIsBare(s: string)
    ensures exists a :: s == a + TrimStart(s) && forall c :: c in a ==> IsSpace(c)
    ensures TrimStart(s) != [] ==> !IsSpace(TrimStart(s)[0])
  {
    hide IsSpace;
    if s != [] && IsSpace(s[0]) {
      TrimStartIsBare(s[1..]);
      var a :| s[1..] == a + TrimStart(s) && forall c :: c in a ==> IsSpace(c);
      assert s == [s[0]] + s[1..] == ([s[0]] + a) + TrimStart(s);
    } else {
      assert s == [] + TrimStart(s);
    }
  }

  lemma {:induction false} TrimEndIsBare(s: string)
    ensures exists b :: s == TrimEnd(s) + b && forall c :: c in b ==> IsSpace(c)
    ensures TrimEnd(s) != [] ==> !IsSpace(TrimEnd(s)[|TrimEnd(s)| - 1]) && TrimEnd(s)[0] == s[0]
  {
    hide IsSpace;
    if s != [] && IsSpace(s[|s| - 1]) {
      var n := |s| - 1;
      TrimEndIsBare(s[..n]);
      assert TrimEnd(s) == TrimEnd(s[..n]);
      hide TrimEnd;
      var b :| s[..n] == TrimEnd(s) + b && forall c :: c in b ==> IsSpace(c);
      assert s == s[..n] + [s[n]] == TrimEnd(s) + (b + [s[n]]);
      assert TrimEnd(s) != [] ==> TrimEnd(s)[0] == s[..n][0] == s[0];
    } else {
      assert s == TrimEnd(s) + [];
    }
  }

  lemma TrimmedIsBare(s: string)
    ensures Bare(s, Trim(s))
  {
    TrimStartIsBare(s);
    TrimEndIsBare(TrimStart(s));
    hide IsSpace, TrimStart, TrimEnd;
    var a :| s == a + TrimStart(s) && forall c :: c in a ==> IsSpace(c);
    var b :| TrimStart(s) == TrimEnd(TrimStart(s)) + b && forall c :: c in b ==> IsSpace(c);
    assert s == a + Trim(s) + b;
    assert forall c :: c in a + b ==> IsSpace(c);
  }

  /** The characters the runtime trims, by code point. */
  lemma SpacesAre(c: char)
    ensures IsSpace(c) <==>
      || 9 <= c as int <= 13 || 8192 <= c as int <= 8202
      || c as int in {32, 160, 5760, 8232, 8233, 8239, 8287, 12288, 65279}
  {
  }

  lemma {:induction false} TrimStartIsBlankIff(s: string)
    ensures TrimStart(s) == [] <==> forall c :: c in s ==> IsSpace(c)
    ensures TrimStart(s) != [] ==> !IsSpace(TrimStart(s)[0])
  {
    hide IsSpace;
    if s != [] && IsSpace(s[0]) {
      TrimStartIsBlankIff(s[1..]);
      assert forall c :: c in s <==> c == s[0] || c in s[1..];
    }
  }

  lemma {:induction false} TrimEndKeeps(s: string)
    requires s != [] && !IsSpace(s[0])
    ensures TrimEnd(s) != []
  {
    hide IsSpace;
    if IsSpace(s[|s| - 1]) {
      TrimEndKeeps(s[..|s| - 1]);
    }
  }

  lemma TrimmedIsBlankIff(s: string)
    ensures Trim(s) == [] <==> forall c :: c in s ==> IsSpace(c)
  {
    hide IsSpace;
    TrimStartIsBlankIff(s);
    if TrimStart(s) != [] {
      TrimEndKeeps(TrimStart(s));
    }
  }

  lemma QuotientIsWhole(x: real, n: int, y: real)
    requires y > 0.0
    ensures n as real >= x / y <==> n as real * y >= x
  {
    var z := x / y;
    assert z * y == x;
    if n as real >= z {
      assert (n as real - z) * y >= 0.0;
    } else {
      assert (z - n as real) * y > 0.0;
    }
  }

  /** The planned width is the least whole number of seconds, at least one, whose buckets cover the range. */
  lemma PlanIsLeast(q: Query)
    requires Normalized(q)
    ensures var w := PlanQuery(q).bucketSeconds;
            && w >= 1 && w * q.buckets * 1000 >= q.toMs - q.fromMs
            && forall v: int :: v >= 1 && v * q.buckets * 1000 >= q.toMs - q.fromMs ==> w <= v
  {
    var range := (q.toMs - q.fromMs) as real / 1000.0;
    var quotient := range / q.buckets as real;
    var w := PlanQuery(q).bucketSeconds;
    assert w >= Ceil(quotient);
    CoversIff(q, w);
    forall v: int | v >= 1 && v * q.buckets * 1000 >= q.toMs - q.fromMs ensures w <= v {
      CoversIff(q, v);
    }
  }

  lemma CoversIff(q: Query, v: int)
    requires Normalized(q)
    ensures v * q.buckets * 1000 >= q.toMs - q.fromMs <==>
      v >= Ceil((q.toMs - q.fromMs) as real / 1000.0 / q.buckets as real)
  {
    var range := (q.toMs - q.fromMs) as real / 1000.0;
    QuotientIsWhole(range, v, q.buckets as real);
    assert v as real * q.buckets as real == (v * q.buckets) as real;
  }

  function Granularity(source: Source): int {
    match source
    case Raw => 0
    case Minutes => 60
    case Hours => 3600
  }

  /** The source is the coarsest one whose rows are not wider than a bucket. */
  lemma SourceIsCoarsest(q: Query, source: Source)
    requires Normalized(q)
    ensures Granularity(source) <= PlanQuery(q).bucketSeconds <==>
      Granularity(source) <= Granularity(PlanQuery(q).source)
  {
  }

  // ----- the returned buckets -----

  function GridPoint(q: Query, width: int, k: nat): int {
    q.fromMs + k * width
  }

  ghost predicate OnGrid(q: Query, width: int, start: int) {
    q.fromMs <= start <= q.toMs && exists k: nat :: start == GridPoint(q, width, k)
  }

  lemma Products(a: int, b: int, width: int)
    requires a <= b && width >= 0
    ensures a * width <= b * width
  {
  }

  lemma StartIsOnGrid(q: Query, width: int, ts: int)
    requires width > 0 && q.fromMs <= ts <= q.toMs
    ensures OnGrid(q, width, BucketStart(q, width, ts))
      && BucketStart(q, width, ts) <= ts < BucketStart(q, width, ts) + width
  {
    var d := ts - q.fromMs;
    assert d == d / width * width + d % width;
    Products(0, d / width, width);
    assert BucketStart(q, width, ts) == GridPoint(q, width, d / width);
  }

  lemma {:induction false} WhereIsExact(q: Query, rows: seq<Row>)
    ensures forall r :: r in Where(q, rows) <==> r in rows && Selected(q, r)
  {
    hide Selected;
    if rows != [] {
      WhereIsExact(q, rows[..|rows| - 1]);
      assert forall r :: r in rows <==> r in rows[..|rows| - 1] || r == rows[|rows| - 1];
    }
  }

  ghost predicate HasRow(q: Query, width: int, rows: seq<Row>, start: int)
    requires width > 0
  {
    exists r :: r in rows && BucketStart(q, width, r.ts) == start
  }

  ghost predicate Increasing(s: seq<int>) {
    forall i, j :: 0 <= i < j < |s| ==> s[i] < s[j]
  }

  ghost predicate Different(s: seq<int>) {
    forall i, j :: 0 <= i < j < |s| ==> s[i] != s[j]
  }

  lemma {:induction false} DistinctStartsAreExact(q: Query, width: int, rows: seq<Row>)
    requires width > 0
    ensures Different(DistinctStarts(q, width, rows))
    ensures forall s :: s in DistinctStarts(q, width, rows) <==> HasRow(q, width, rows, s)
  {
    hide BucketStart;
    if rows != [] {
      var front, last := rows[..|rows| - 1], rows[|rows| - 1];
      DistinctStartsAreExact(q, width, front);
      assert forall r :: r in rows <==> r in front || r == last;
      assert forall s :: HasRow(q, width, rows, s) <==>
        HasRow(q, width, front, s) || s == BucketStart(q, width, last.ts);
    }
  }

  lemma StartsAreExact(q: Query, width: int, rows: seq<Row>)
    requires width > 0
    ensures Increasing(Starts(q, width, rows))
    ensures forall s :: s in Starts(q, width, rows) <==> HasRow(q, width, Where(q, rows), s)
  {
    var found := DistinctStarts(q, width, Where(q, rows));
    DistinctStartsAreExact(q, width, Where(q, rows));
    hide HasRow, DistinctStarts;
    SortSorts(found, Earlier);
    SameMembers(found, Starts(q, width, rows));
    var key := (x: int) => x;
    assert DistinctKeys(found, key);
    KeysStayDistinct(found, Sort(found, Earlier), key);
    var s := Sort(found, Earlier);
    forall i, j | 0 <= i < j < |s| ensures s[i] < s[j] {
      assert key(s[i]) != key(s[j]) && !Earlier(s[j], s[i]);
    }
  }

  lemma NextOnGrid(q: Query, width: int, a: int, b: int)
    requires width > 0 && OnGrid(q, width, a) && OnGrid(q, width, b) && a < b
    ensures b >= a + width
  {
    var k: nat :| a == GridPoint(q, width, k);
    var l: nat :| b == GridPoint(q, width, l);
    if l <= k {
      Products(l, k, width);
    } else {
      Products(k + 1, l, width);
      Distribute(k, width);
    }
  }

  lemma Distribute(k: int, width: int)
    ensures (k + 1) * width == k * width + width
  {
  }

  /** Bucket i of the answer starts at least i widths after the range start. */
  lemma {:induction false} SpreadOut(q: Query, width: int, starts: seq<int>, i: nat)
    requires width > 0 && Increasing(starts) && i < |starts|
    requires forall k :: 0 <= k < |starts| ==> OnGrid(q, width, starts[k])
    ensures starts[i] >= q.fromMs + i * width
  {
    hide OnGrid;
    if i == 0 {
      assert OnGrid(q, width, starts[0]);
      Inside(q, width, starts[0]);
    } else {
      SpreadOut(q, width, starts, i - 1);
      NextOnGrid(q, width, starts[i - 1], starts[i]);
      Distribute(i - 1, width);
    }
  }

  lemma Inside(q: Query, width: int, start: int)
    requires width > 0 && OnGrid(q, width, start)
    ensures q.fromMs <= start <= q.toMs
  {
  }

  lemma StartsInRange(q: Query, width: int, rows: seq<Row>)
    requires width > 0
    ensures forall k :: 0 <= k < |Starts(q, width, rows)| ==> OnGrid(q, width, Starts(q, width, rows)[k])
  {
    var starts := Starts(q, width, rows);
    StartsAreExact(q, width, rows);
    WhereIsExact(q, rows);
    forall k | 0 <= k < |starts| ensures OnGrid(q, width, starts[k]) {
      assert starts[k] in starts;
      var r :| r in Where(q, rows) && BucketStart(q, width, r.ts) == starts[k];
      StartIsOnGrid(q, width, r.ts);
    }
  }

  /** There are at most `buckets` + 1 occupied buckets, and one past the limit starts at exactly the range end. */
  lemma AtMostOneTooMany(q: Query, rows: seq<Row>)
    requires Normalized(q)
    ensures var starts := Starts(q, WidthMs(q), rows);
            && |starts| <= q.buckets + 1
            && (|starts| == q.buckets + 1 ==> starts[q.buckets] == q.toMs)
  {
    var width := WidthMs(q);
    var starts := Starts(q, width, rows);
    StartsAreExact(q, width, rows);
    StartsInRange(q, width, rows);
    PlanIsLeast(q);
    hide Starts, PlanQuery, OnGrid;
    assert q.buckets * width >= q.toMs - q.fromMs by {
      Rearrange(PlanQuery(q).bucketSeconds, q.buckets);
    }
    if |starts| > q.buckets {
      SpreadOut(q, width, starts, q.buckets);
      Inside(q, width, starts[|starts| - 1]);
    }
  }

  lemma Rearrange(w: int, n: int)
    ensures w * n * 1000 == n * (w * 1000)
  {
  }

  lemma {:induction false} SpreadBack(q: Query, width: int, starts: seq<int>, i: nat)
    requires width > 0 && Increasing(starts) && i < |starts|
    requires forall k :: 0 <= k < |starts| ==> OnGrid(q, width, starts[k])
    ensures starts[i] <= starts[|starts| - 1] - (|starts| - 1 - i) * width
    decreases |starts| - i
  {
    hide OnGrid;
    if i < |starts| - 1 {
      SpreadBack(q, width, starts, i + 1);
      NextOnGrid(q, width, starts[i], starts[i + 1]);
      Distribute(|starts| - 2 - i, width);
    }
  }

  lemma {:induction false} PositionAtLeast(q: Query, width: int, starts: seq<int>, k: nat) returns (i: nat)
    requires width > 0 && Increasing(starts)
    requires forall j: nat :: j <= k ==> GridPoint(q, width, j) in starts
    ensures k <= i < |starts| && starts[i] == GridPoint(q, width, k)
  {
    assert GridPoint(q, width, k) in starts;
    i :| 0 <= i < |starts| && starts[i] == GridPoint(q, width, k);
    if k > 0 {
      var before := PositionAtLeast(q, width, starts, k - 1);
      Distribute(k - 1, width);
    }
  }

  ghost predicate Overflows(q: Query, rows: seq<Row>)
    requires Normalized(q)
  {
    |Starts(q, WidthMs(q), rows)| > q.buckets
  }

  /** There are more occupied buckets than the limit exactly when all of them are occupied, up to the one that
      starts `buckets` widths after the range start. */
  lemma OverflowsIff(q: Query, rows: seq<Row>)
    requires Normalized(q)
    ensures Overflows(q, rows) <==>
      forall k: nat :: k <= q.buckets ==> HasRow(q, WidthMs(q), Where(q, rows), GridPoint(q, WidthMs(q), k))
  {
    var width := WidthMs(q);
    var starts := Starts(q, width, rows);
    StartsAreExact(q, width, rows);
    StartsInRange(q, width, rows);
    AtMostOneTooMany(q, rows);
    hide Starts, Where, WidthMs, OnGrid, HasRow;
    if Overflows(q, rows) {
      forall k: nat | k <= q.buckets ensures GridPoint(q, width, k) in starts {
        EverySlotIsTaken(q, width, starts, k);
      }
    }
    if forall k: nat :: k <= q.buckets ==> GridPoint(q, width, k) in starts {
      var i := PositionAtLeast(q, width, starts, q.buckets);
    }
  }

  lemma EverySlotIsTaken(q: Query, width: int, starts: seq<int>, k: nat)
    requires Normalized(q) && width == WidthMs(q) && Increasing(starts) && |starts| == q.buckets + 1 && k <= q.buckets
    requires forall i :: 0 <= i < |starts| ==> OnGrid(q, width, starts[i])
    ensures GridPoint(q, width, k) in starts
  {
    PlanIsLeast(q);
    Rearrange(PlanQuery(q).bucketSeconds, q.buckets);
    assert q.buckets * width >= q.toMs - q.fromMs;
    SpreadOut(q, width, starts, k);
    SpreadBack(q, width, starts, k);
    Inside(q, width, starts[q.buckets]);
    hide *;
    SplitProduct(k, q.buckets - k, width);
    assert starts[k] == q.fromMs + k * width;
    assert GridPoint(q, width, k) == q.fromMs + k * width;
  }

  lemma SplitProduct(a: int, b: int, width: int)
    ensures a * width + b * width == (a + b) * width
  {
  }

  // ----- no sample is lost -----

  function Members(starts: seq<int>): set<int> {
    set s | s in starts
  }

  function Total(buckets: seq<Bucket>): int {
    if buckets == [] then 0 else Total(buckets[..|buckets| - 1]) + buckets[|buckets| - 1].sampleCount
  }

  lemma {:induction false} OneMoreStart(q: Query, width: int, rows: seq<Row>, starts: set<int>, s: int)
    requires width > 0 && s !in starts
    ensures SamplesIn(q, width, rows, starts + {s})
      == SamplesIn(q, width, rows, starts) + SamplesIn(q, width, rows, {s})
  {
    hide BucketStart;
    if rows != [] {
      OneMoreStart(q, width, rows[..|rows| - 1], starts, s);
    }
  }

  lemma {:induction false} NoStarts(q: Query, width: int, rows: seq<Row>)
    requires width > 0
    ensures SamplesIn(q, width, rows, {}) == 0
  {
    if rows != [] {
      NoStarts(q, width, rows[..|rows| - 1]);
    }
  }

  lemma {:induction false} TotalOfBuckets(q: Query, width: int, rows: seq<Row>, starts: seq<int>)
    requires width > 0 && Increasing(starts)
    ensures Total(AsBuckets(q, width, rows, starts)) == SamplesIn(q, width, rows, Members(starts))
  {
    if starts == [] {
      NoStarts(q, width, rows);
      assert Members(starts) == {};
    } else {
      var front, last := starts[..|starts| - 1], starts[|starts| - 1];
      TotalOfBuckets(q, width, rows, front);
      OneMoreStart(q, width, rows, Members(front), last);
      assert Members(starts) == Members(front) + {last};
      var buckets := AsBuckets(q, width, rows, starts);
      assert buckets[..|starts| - 1] == AsBuckets(q, width, rows, front);
    }
  }

  /** The samples of the drone's rows with from <= ts < end. */
  function SamplesBefore(q: Query, rows: seq<Row>, end: int): nat {
    if rows == [] then 0
    else
      var last := rows[|rows| - 1];
      SamplesBefore(q, rows[..|rows| - 1], end)
      + if last.droneId == q.droneId && q.fromMs <= last.ts < end then last.samples else 0
  }

  lemma {:induction false} SamplesMatch(q: Query, width: int, rows: seq<Row>, starts: set<int>, end: int)
    requires width > 0 && end <= q.toMs + 1
    requires forall r :: r in rows && Selected(q, r) ==> (BucketStart(q, width, r.ts) in starts <==> r.ts < end)
    ensures SamplesIn(q, width, Where(q, rows), starts) == SamplesBefore(q, rows, end)
  {
    hide BucketStart;
    if rows != [] {
      var front, last := rows[..|rows| - 1], rows[|rows| - 1];
      SamplesMatch(q, width, front, starts, end);
      assert last in rows;
      if Selected(q, last) {
        assert Where(q, rows)[..|Where(q, front)|] == Where(q, front);
      } else {
        assert Where(q, rows) == Where(q, front) + [] == Where(q, front);
      }
    }
  }

  /** The starts of the returned buckets. */
  function KeptStarts(q: Query, rows: seq<Row>): seq<int>
    requires Normalized(q)
  {
    var starts := Starts(q, WidthMs(q), rows);
    if |starts| <= q.buckets then starts else starts[..q.buckets]
  }

  lemma AnswerHasKeptStarts(q: Query, rows: seq<Row>)
    requires Normalized(q)
    ensures Answer(q, rows) == AsBuckets(q, WidthMs(q), Where(q, rows), KeptStarts(q, rows))
  {
    hide Starts, Where;
  }

  lemma KeptStartsAreGood(q: Query, rows: seq<Row>)
    requires Normalized(q)
    ensures |KeptStarts(q, rows)| <= q.buckets && Increasing(KeptStarts(q, rows))
    ensures forall i :: 0 <= i < |KeptStarts(q, rows)| ==> q.fromMs <= KeptStarts(q, rows)[i] <= q.toMs
  {
    StartsAreExact(q, WidthMs(q), rows);
    StartsInRange(q, WidthMs(q), rows);
    hide Starts, WidthMs;
  }

  /** Before which time the samples of the range are in the answer. */
  ghost function EndOf(q: Query, rows: seq<Row>): int
    requires Normalized(q)
  {
    if Overflows(q, rows) then q.toMs else q.toMs + 1
  }

  /** The row is the drone's, in the range, and within the width from start on. */
  predicate InStretch(q: Query, r: Row, start: int, width: int) {
    r.droneId == q.droneId && q.fromMs <= r.ts <= q.toMs && start <= r.ts < start + width
  }

  /** The samples of the drone's rows of the range with start <= ts < start + width. */
  function SamplesWithin(q: Query, rows: seq<Row>, start: int, width: int): nat {
    if rows == [] then 0
    else
      var last := rows[|rows| - 1];
      SamplesWithin(q, rows[..|rows| - 1], start, width)
      + if InStretch(q, last, start, width) then last.samples else 0
  }

  lemma StartOnGridIff(q: Query, width: int, ts: int, start: int)
    requires width > 0 && OnGrid(q, width, start) && q.fromMs <= ts <= q.toMs
    ensures BucketStart(q, width, ts) == start <==> start <= ts < start + width
  {
    StartIsOnGrid(q, width, ts);
    var s := BucketStart(q, width, ts);
    hide BucketStart, OnGrid;
    if start <= ts < start + width && s != start {
      if s < start {
        NextOnGrid(q, width, s, start);
      } else {
        NextOnGrid(q, width, start, s);
      }
    }
  }

  lemma {:induction false} BucketHoldsItsSamples(q: Query, width: int, rows: seq<Row>, start: int)
    requires width > 0 && OnGrid(q, width, start)
    ensures SamplesIn(q, width, Where(q, rows), {start}) == SamplesWithin(q, rows, start, width)
  {
    hide BucketStart, OnGrid;
    if rows != [] {
      var front, last := rows[..|rows| - 1], rows[|rows| - 1];
      BucketHoldsItsSamples(q, width, front, start);
      if Selected(q, last) {
        StartOnGridIff(q, width, last.ts, start);
        assert Where(q, rows)[..|Where(q, front)|] == Where(q, front);
      } else {
        assert Where(q, rows) == Where(q, front) + [] == Where(q, front);
      }
    }
  }

  /** The bucket stands on the grid of the range, some row is in its stretch, and it counts the samples there. */
  ghost predicate BucketOk(q: Query, rows: seq<Row>, width: int, b: Bucket) {
    && OnGrid(q, width, b.start) && b.sampleCount == SamplesWithin(q, rows, b.start, width)
    && exists r :: r in rows && InStretch(q, r, b.start, width)
  }

  lemma StartHasRow(q: Query, width: int, rows: seq<Row>, start: int)
    requires width > 0 && start in Starts(q, width, rows)
    ensures exists r :: r in rows && InStretch(q, r, start, width)
  {
    StartsAreExact(q, width, rows);
    WhereIsExact(q, rows);
    hide Starts, Where, BucketStart, OnGrid;
    var r :| r in Where(q, rows) && BucketStart(q, width, r.ts) == start;
    assert Selected(q, r);
    StartIsOnGrid(q, width, r.ts);
  }

  lemma BucketsAreExact(q: Query, rows: seq<Row>)
    requires Normalized(q)
    ensures forall i :: 0 <= i < |Answer(q, rows)| ==> BucketOk(q, rows, WidthMs(q), Answer(q, rows)[i])
  {
    var width, kept := WidthMs(q), KeptStarts(q, rows);
    AnswerHasKeptStarts(q, rows);
    StartsInRange(q, width, rows);
    assert forall i :: 0 <= i < |kept| ==> kept[i] == Starts(q, width, rows)[i];
    hide Answer, KeptStarts, Starts, OnGrid, SamplesIn, SamplesWithin, Where, WidthMs;
    forall i | 0 <= i < |kept| ensures BucketOk(q, rows, width, Answer(q, rows)[i]) {
      BucketHoldsItsSamples(q, width, rows, kept[i]);
      StartHasRow(q, width, rows, kept[i]);
    }
  }

  /** Every row that is counted has its bucket in the answer. */
  lemma EveryRowHasItsBucket(q: Query, rows: seq<Row>, r: Row)
    requires Normalized(q) && r in rows && r.droneId == q.droneId && q.fromMs <= r.ts < EndOf(q, rows)
    ensures exists b :: b in Answer(q, rows) && b.start <= r.ts < b.start + WidthMs(q)
  {
    var width, kept := WidthMs(q), KeptStarts(q, rows);
    AnswerHasKeptStarts(q, rows);
    KeptMatches(q, rows);
    StartIsOnGrid(q, width, r.ts);
    assert Selected(q, r);
    hide Answer, KeptStarts, Starts, OnGrid, SamplesIn, Where, WidthMs, BucketStart, Overflows;
    var start := BucketStart(q, width, r.ts);
    var i :| 0 <= i < |kept| && kept[i] == start;
    assert Answer(q, rows)[i] in Answer(q, rows) && Answer(q, rows)[i].start == start;
  }

  /** Every returned bucket stands on the grid within the range, in ascending order, at most `buckets` of them, each
      with the samples of its stretch; together they count all selected samples, except that the samples at exactly the
      range end are dropped on overflow. */
  lemma AnswerIsExact(q: Query, rows: seq<Row>)
    requires Normalized(q)
    ensures var out := Answer(q, rows);
            && |out| <= q.buckets
            && (forall i :: 0 <= i < |out| ==> q.fromMs <= out[i].start <= q.toMs)
            && (forall i, j :: 0 <= i < j < |out| ==> out[i].start < out[j].start)
            && (forall i :: 0 <= i < |out| ==> BucketOk(q, rows, WidthMs(q), out[i]))
            && Total(out) == SamplesBefore(q, rows, EndOf(q, rows))
  {
    AnswerHasKeptStarts(q, rows);
    KeptStartsAreGood(q, rows);
    AnswerTotal(q, rows);
    BucketsAreExact(q, rows);
    hide KeptStarts, Answer, Starts, Where, SamplesIn, SamplesBefore, PlanQuery, WidthMs, Total, BucketOk;
  }

  lemma AnswerTotal(q: Query, rows: seq<Row>)
    requires Normalized(q)
    ensures Total(Answer(q, rows)) == SamplesBefore(q, rows, EndOf(q, rows))
  {
    var width, kept := WidthMs(q), KeptStarts(q, rows);
    assert EndOf(q, rows) <= q.toMs + 1;
    AnswerHasKeptStarts(q, rows);
    KeptStartsAreGood(q, rows);
    KeptMatches(q, rows);
    hide *;
    TotalOfBuckets(q, width, Where(q, rows), kept);
    SamplesMatch(q, width, rows, Members(kept), EndOf(q, rows));
  }

  lemma KeptMatches(q: Query, rows: seq<Row>)
    requires Normalized(q)
    ensures forall r :: r in rows && Selected(q, r) ==>
      (BucketStart(q, WidthMs(q), r.ts) in Members(KeptStarts(q, rows)) <==> r.ts < EndOf(q, rows))
  {
    var width := WidthMs(q);
    var starts := Starts(q, width, rows);
    StartsAreExact(q, width, rows);
    StartsInRange(q, width, rows);
    AtMostOneTooMany(q, rows);
    WhereIsExact(q, rows);
    forall r | r in rows && Selected(q, r)
      ensures BucketStart(q, width, r.ts) in starts
      ensures Overflows(q, rows) ==> (BucketStart(q, width, r.ts) in starts[..q.buckets] <==> r.ts < q.toMs)
    {
      var s := BucketStart(q, width, r.ts);
      assert HasRow(q, width, Where(q, rows), s);
      StartIsOnGrid(q, width, r.ts);
      if Overflows(q, rows) {
        if s in starts[..q.buckets] {
          assert s < starts[q.buckets];
          if r.ts == q.toMs {
            NextOnGrid(q, width, s, q.toMs);
          }
        } else {
          assert s == starts[q.buckets];
        }
      }
    }
  }

  // ----- aggregate sources -----

  /** The time column of the aggregate row a sample falls into. */
  function NativeStart(g: int, ts: int): (start: int)
    requires g > 0
    ensures start <= ts < start + g
    ensures start == ts <==> ts % g == 0
  {
    ts / g * g
  }

  lemma NativeStartIsMonotone(g: int, a: int, b: int)
    requires g > 0 && a <= b
    ensures NativeStart(g, a) <= NativeStart(g, b)
  {
    if a / g <= b / g {
      Products(a / g, b / g, g);
    } else {
      Distribute(b / g, g);
      Products(b / g + 1, a / g, g);
    }
  }

  /** Counts n more samples of a drone in the row of its time. */
  function Count(rows: seq<Row>, droneId: string, ts: int, n: nat): seq<Row> {
    if rows == [] then [Row(droneId, ts, n)]
    else
      var front, last := rows[..|rows| - 1], rows[|rows| - 1];
      if last.droneId == droneId && last.ts == ts then front + [Row(droneId, ts, last.samples + n)]
      else Count(front, droneId, ts, n) + [last]
  }

  /** The rows of an aggregate over these samples: one per drone and native bucket, with its count. */
  function AggregateRows(samples: seq<Row>, g: int): seq<Row>
    requires g > 0
  {
    if samples == [] then []
    else
      var last := samples[|samples| - 1];
      Count(AggregateRows(samples[..|samples| - 1], g), last.droneId, NativeStart(g, last.ts), last.samples)
  }

  lemma BeforeSnoc(q: Query, rows: seq<Row>, row: Row, end: int)
    ensures SamplesBefore(q, rows + [row], end)
         == SamplesBefore(q, rows, end)
            + if row.droneId == q.droneId && q.fromMs <= row.ts < end then row.samples else 0
  {
    assert (rows + [row])[..|rows|] == rows;
  }

  lemma {:induction false} BeforeCount(q: Query, rows: seq<Row>, droneId: string, ts: int, n: nat, end: int)
    ensures SamplesBefore(q, Count(rows, droneId, ts, n), end)
         == SamplesBefore(q, rows, end) + if droneId == q.droneId && q.fromMs <= ts < end then n else 0
  {
    if rows == [] {
      BeforeSnoc(q, [], Row(droneId, ts, n), end);
      assert [] + [Row(droneId, ts, n)] == [Row(droneId, ts, n)];
    } else {
      var front, last := rows[..|rows| - 1], rows[|rows| - 1];
      BeforeSnoc(q, front, last, end);
      assert front + [last] == rows;
      if last.droneId == droneId && last.ts == ts {
        BeforeSnoc(q, front, Row(droneId, ts, last.samples + n), end);
      } else {
        BeforeCount(q, front, droneId, ts, n, end);
        BeforeSnoc(q, Count(front, droneId, ts, n), last, end);
      }
    }
  }

  predicate Aligned(q: Query, g: int)
    requires g > 0
  {
    q.fromMs % g == 0 && (q.toMs + 1) % g == 0
  }

  /** In an aligned range a sample and its aggregate row are selected together. */
  lemma SelectedTogether(q: Query, g: int, ts: int)
    requires g > 0 && Aligned(q, g)
    ensures q.fromMs <= NativeStart(g, ts) < q.toMs + 1 <==> q.fromMs <= ts < q.toMs + 1
  {
    hide NativeStart;
    if ts >= q.fromMs {
      NativeStartIsMonotone(g, q.fromMs, ts);
    }
    if ts >= q.toMs + 1 {
      NativeStartIsMonotone(g, q.toMs + 1, ts);
    }
  }

  lemma {:induction false} AlignedRowsHoldTheSamples(q: Query, samples: seq<Row>, g: int)
    requires g > 0 && Aligned(q, g)
    ensures SamplesBefore(q, AggregateRows(samples, g), q.toMs + 1) == SamplesBefore(q, samples, q.toMs + 1)
  {
    hide Aligned, NativeStart;
    if samples != [] {
      var front, last := samples[..|samples| - 1], samples[|samples| - 1];
      AlignedRowsHoldTheSamples(q, front, g);
      BeforeCount(q, AggregateRows(front, g), last.droneId, NativeStart(g, last.ts), last.samples, q.toMs + 1);
      SelectedTogether(q, g, last.ts);
      BeforeSnoc(q, front, last, q.toMs + 1);
      assert front + [last] == samples;
    }
  }

  ghost predicate IsNative(g: int, ts: int)
    requires g > 0
  {
    exists k: int :: ts == Multiple(k, g)
  }

  function Multiple(k: int, g: int): int {
    k * g
  }

  lemma {:induction false} CountKeepsNative(rows: seq<Row>, droneId: string, ts: int, n: nat, g: int)
    requires g > 0 && IsNative(g, ts) && forall r :: r in rows ==> IsNative(g, r.ts)
    ensures forall r :: r in Count(rows, droneId, ts, n) ==> IsNative(g, r.ts)
  {
    hide IsNative;
    if rows != [] {
      CountKeepsNative(rows[..|rows| - 1], droneId, ts, n, g);
    }
  }

  lemma {:induction false} AggregateRowsAreNative(samples: seq<Row>, g: int)
    requires g > 0
    ensures forall r :: r in AggregateRows(samples, g) ==> IsNative(g, r.ts)
  {
    if samples != [] {
      var front, last := samples[..|samples| - 1], samples[|samples| - 1];
      AggregateRowsAreNative(front, g);
      assert NativeStart(g, last.ts) == Multiple(last.ts / g, g);
      CountKeepsNative(AggregateRows(front, g), last.droneId, NativeStart(g, last.ts), last.samples, g);
    }
  }

  /** On overflow some row is at exactly the range end. */
  lemma OverflowHasRowAtEnd(q: Query, rows: seq<Row>)
    requires Normalized(q) && Overflows(q, rows)
    ensures exists r :: r in rows && r.ts == q.toMs
  {
    var width := WidthMs(q);
    var starts := Starts(q, width, rows);
    AtMostOneTooMany(q, rows);
    StartsAreExact(q, width, rows);
    WhereIsExact(q, rows);
    hide Starts, Where, BucketStart, WidthMs;
    assert starts[q.buckets] in starts;
    var r :| r in Where(q, rows) && BucketStart(q, width, r.ts) == q.toMs;
    StartIsOnGrid(q, width, r.ts);
  }

  lemma NoTwoNeighbours(k: int, l: int, g: int)
    requires g > 1
    ensures Multiple(l, g) != Multiple(k, g) + 1
  {
    if l <= k {
      Products(l, k, g);
    } else {
      Products(k + 1, l, g);
      Distribute(k, g);
    }
  }

  lemma AlignedNeverOverflows(q: Query, samples: seq<Row>, g: int)
    requires Normalized(q) && g > 1 && Aligned(q, g)
    ensures !Overflows(q, AggregateRows(samples, g))
  {
    hide AggregateRows, Overflows;
    if Overflows(q, AggregateRows(samples, g)) {
      OverflowHasRowAtEnd(q, AggregateRows(samples, g));
      AggregateRowsAreNative(samples, g);
      var k: int :| q.toMs == Multiple(k, g);
      assert q.toMs + 1 == Multiple((q.toMs + 1) / g, g);
      NoTwoNeighbours(k, (q.toMs + 1) / g, g);
    }
  }

  /** The returned counts add up to the samples of the range. */
  predicate Conserves(q: Query, samples: seq<Row>, g: int)
    requires Normalized(q) && g > 0
  {
    Total(Answer(q, AggregateRows(samples, g))) == SamplesBefore(q, samples, q.toMs + 1)
  }

  lemma AlignedConserves(q: Query, samples: seq<Row>, g: int)
    requires Normalized(q) && g > 1 && Aligned(q, g)
    ensures Conserves(q, samples, g)
  {
    hide Overflows, AggregateRows, Answer, Total, SamplesBefore, Aligned;
    AnswerTotal(q, AggregateRows(samples, g));
    AlignedNeverOverflows(q, samples, g);
    AlignedRowsHoldTheSamples(q, samples, g);
  }

  lemma {:induction false} FewerSelected(q: Query, rows: seq<Row>)
    ensures |Where(q, rows)| <= |rows|
  {
    if rows != [] {
      FewerSelected(q, rows[..|rows| - 1]);
    }
  }

  lemma {:induction false} FewerStarts(q: Query, width: int, rows: seq<Row>)
    requires width > 0
    ensures |DistinctStarts(q, width, rows)| <= |rows|
  {
    hide BucketStart;
    if rows != [] {
      FewerStarts(q, width, rows[..|rows| - 1]);
    }
  }

  lemma OneRowNeverOverflows(q: Query, row: Row)
    requires Normalized(q)
    ensures !Overflows(q, [row])
  {
    FewerSelected(q, [row]);
    FewerStarts(q, WidthMs(q), Where(q, [row]));
    hide Where, DistinctStarts, WidthMs;
  }

  /** One sample, just outside or just inside an unaligned range, is enough. */
  lemma UnalignedDoesNotConserve(q: Query, ts: int, g: int)
    requires Normalized(q) && g > 0
    requires (q.fromMs <= NativeStart(g, ts) <= q.toMs) != (q.fromMs <= ts <= q.toMs)
    ensures !Conserves(q, [Row(q.droneId, ts, 1)], g)
  {
    var sample, row := Row(q.droneId, ts, 1), Row(q.droneId, NativeStart(g, ts), 1);
    assert [sample][..0] == [];
    assert AggregateRows([sample], g) == [row];
    hide NativeStart, Answer, AggregateRows, Overflows;
    AnswerIsExact(q, [row]);
    OneRowNeverOverflows(q, row);
    BeforeSnoc(q, [], row, q.toMs + 1);
    BeforeSnoc(q, [], sample, q.toMs + 1);
    assert [] + [row] == [row] && [] + [sample] == [sample];
  }

  /** Read from an aggregate, the answer conserves the samples of the range, whatever they are, if and only if the
      range starts on a row boundary of the aggregate and ends just before one. */
  lemma AggregateConservesIff(q: Query, g: int)
    requires Normalized(q) && g > 1
    ensures (forall samples :: Conserves(q, samples, g)) <==> Aligned(q, g)
  {
    hide Conserves, NativeStart;
    if Aligned(q, g) {
      forall samples ensures Conserves(q, samples, g) {
        AlignedConserves(q, samples, g);
      }
    } else if q.fromMs % g != 0 {
      UnalignedDoesNotConserve(q, q.fromMs, g);
    } else {
      NativeStartIsMonotone(g, q.fromMs, q.toMs + 1);
      UnalignedDoesNotConserve(q, q.toMs + 1, g);
    }
  }

  /** So it is for the aggregate the plan reads, unless the plan reads the raw samples. */
  lemma PlannedAggregateConservesIff(q: Query)
    requires Normalized(q) && PlanQuery(q).source != Raw
    ensures var g := Granularity(PlanQuery(q).source) * 1000;
            g > 1 && ((forall samples :: Conserves(q, samples, g)) <==> Aligned(q, g))
  {
    AggregateConservesIff(q, Granularity(PlanQuery(q).source) * 1000);
  }

  /** Half past to half past: a sample in the range is in an aggregate row that starts before the range. */
  lemma UnalignedHour(q: Query)
    requires q == Query("d", 1_800_000, 5_400_000, 1)
    ensures PlanQuery(q).source == Hours && !Conserves(q, [Row("d", 1_800_000, 1)], 3_600_000)
  {
    PlanIsLeast(q);
    UnalignedDoesNotConserve(q, 1_800_000, 3_600_000);
  }
}
