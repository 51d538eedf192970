/** Historical telemetry queries: validation, the downsampling plan, and what the grouped query returns.
    Times are whole milliseconds. */
module History {
  import opened SharedTypes
  import opened Sorting

  const DEFAULT_BUCKETS := 500
  const MAX_BUCKETS := 5000

  datatype RawBuckets = Unset | Text(text: string) | Number(value: real)

  datatype Input = Input(droneId: Option<string>, from: string, to: string, buckets: RawBuckets)

  /** The runtime's own parsers: the time a string denotes, the number a string denotes. */
  datatype Parsers = Parsers(time: string -> Option<int>, number: string -> Option<real>)

  datatype Query = Query(droneId: string, fromMs: int, toMs: int, buckets: int)

  datatype Invalid = MissingDrone | BadFrom | BadTo | InvertedRange | BadBuckets

  predicate IsSpace(c: char) {
    c in "\t\n\r "
      || c in ['\U{0B}', '\U{0C}', '\U{A0}', '\U{1680}', '\U{2028}', '\U{2029}', '\U{202F}', '\U{205F}', '\U{3000}',
         '\U{FEFF}']
    || '\U{2000}' <= c <= '\U{200A}'
  }

  function TrimStart(s: string): string {
    if s != [] && IsSpace(s[0]) then TrimStart(s[1..]) else s
  }

  function TrimEnd(s: string): string {
    if s != [] && IsSpace(s[|s| - 1]) then TrimEnd(s[..|s| - 1]) else s
  }

  function Trim(s: string): string {
    TrimEnd(TrimStart(s))
  }

  function IsWhole(x: real): bool {
    x == x.Floor as real
  }

  function ResolveBuckets(p: Parsers, raw: RawBuckets): Option<int> {
    if raw.Unset? || (raw.Text? && Trim(raw.text) == "") then Some(DEFAULT_BUCKETS)
    else
      var parsed := if raw.Number? then Some(raw.value) else p.number(raw.text);
      if parsed.None? || !IsWhole(parsed.value) || parsed.value < 1.0 then None
      else if parsed.value.Floor < MAX_BUCKETS then Some(parsed.value.Floor) else Some(MAX_BUCKETS)
  }

  function ValidateHistoryQuery(p: Parsers, input: Input): Result<Query, Invalid> {
    if input.droneId.None? || Trim(input.droneId.value) == "" then Err(MissingDrone)
    else
      var from, to := p.time(input.from), p.time(input.to);
      if from.None? then Err(BadFrom)
      else if to.None? then Err(BadTo)
      else if from.value > to.value then Err(InvertedRange)
      else
        var buckets := ResolveBuckets(p, input.buckets);
        if buckets.None? then Err(BadBuckets)
        else Ok(Query(Trim(input.droneId.value), from.value, to.value, buckets.value))
  }

  datatype Source = Raw | Minutes | Hours

  datatype Plan = Plan(source: Source, bucketSeconds: int, limit: int)

  function Ceil(x: real): int {
    -((-x).Floor)
  }

  predicate Normalized(q: Query) {
    q.fromMs <= q.toMs && 1 <= q.buckets <= MAX_BUCKETS
  }

  function PlanQuery(q: Query): Plan
    requires Normalized(q)
  {
    var rangeSeconds := (q.toMs - q.fromMs) as real / 1000.0;
    var needed := Ceil(rangeSeconds / q.buckets as real);
    var bucketSeconds := if needed >= 1 then needed else 1;
    var source := if bucketSeconds >= 3600 then Hours else if bucketSeconds >= 60 then Minutes else Raw;
    Plan(source, bucketSeconds, q.buckets)
  }

  // ----- the grouped query -----

  /** A row of the relation that is read: its time column and how many samples it stands for. */
  datatype Row = Row(droneId: string, ts: int, samples: nat)

  datatype Bucket = Bucket(start: int, sampleCount: int)

  /** time_bucket with the range start as its origin. */
  function BucketStart(q: Query, width: int, ts: int): int
    requires width > 0
  {
    q.fromMs + (ts - q.fromMs) / width * width
  }

  predicate Selected(q: Query, row: Row) {
    row.droneId == q.droneId && q.fromMs <= row.ts <= q.toMs
  }

  function Where(q: Query, rows: seq<Row>): seq<Row> {
    if rows == [] then []
    else
      var last := rows[|rows| - 1];
      Where(q, rows[..|rows| - 1]) + if Selected(q, last) then [last] else []
  }

  function DistinctStarts(q: Query, width: int, rows: seq<Row>): seq<int>
    requires width > 0
  {
    if rows == [] then []
    else
      var front := DistinctStarts(q, width, rows[..|rows| - 1]);
      var start := BucketStart(q, width, rows[|rows| - 1].ts);
      if start in front then front else front + [start]
  }

  predicate Earlier(a: int, b: int) {
    a < b
  }

  /** The samples of the rows whose bucket is one of starts. */
  function SamplesIn(q: Query, width: int, rows: seq<Row>, starts: set<int>): nat
    requires width > 0
  {
    if rows == [] then 0
    else
      var last := rows[|rows| - 1];
      SamplesIn(q, width, rows[..|rows| - 1], starts)
      + if BucketStart(q, width, last.ts) in starts then last.samples else 0
  }

  /** The occupied buckets, in ascending order. */
  function Starts(q: Query, width: int, rows: seq<Row>): seq<int>
    requires width > 0
  {
    Sort(DistinctStarts(q, width, Where(q, rows)), Earlier)
  }

  function AsBuckets(q: Query, width: int, rows: seq<Row>, starts: seq<int>): seq<Bucket>
    requires width > 0
  {
    seq(|starts|, i requires 0 <= i < |starts| => Bucket(starts[i], SamplesIn(q, width, rows, {starts[i]})))
  }

  /** Select by drone and range, group by bucket, order by bucket, keep the first `limit`. */
  function Answer(q: Query, rows: seq<Row>): seq<Bucket>
    requires Normalized(q)
  {
    var plan := PlanQuery(q);
    var width := WidthMs(q);
    var starts := Starts(q, width, rows);
    AsBuckets(q, width, Where(q, rows), if |starts| <= plan.limit then starts else starts[..plan.limit])
  }

  function WidthMs(q: Query): (ms: int)
    requires Normalized(q)
    ensures ms >= 1000
  {
    PlanQuery(q).bucketSeconds * 1000
  }
}
