/** The query trend: forty buckets over a span of the query log. */
module Trend {
  import opened Bytes

  const POINTS := 40
  const DAY_SECS := 86_400
  const I64_MAX := 0x7FFF_FFFF_FFFF_FFFF
  const I64_MIN := -0x8000_0000_0000_0000

  /** A saturated 64-bit signed result. */
  function Saturated(x: int): (r: int)
    ensures I64_MIN <= r <= I64_MAX
  {
    if x > I64_MAX then I64_MAX else if x < I64_MIN then I64_MIN else x
  }

  /** A result that wraps around in 64 signed bits. */
  function Wrapped(x: int): (r: int)
    ensures I64_MIN <= r <= I64_MAX
    ensures I64_MIN <= x <= I64_MAX ==> r == x
  {
    (x - I64_MIN) % 0x1_0000_0000_0000_0000 + I64_MIN
  }

  /** The bits of an unsigned value read as a signed one. */
  function AsI64(x: u64): int {
    if x > I64_MAX then x - 0x1_0000_0000_0000_0000 else x
  }

  datatype Action = Blocked | Forwarded | OtherAction

  /** One query-log row. */
  datatype Row = Row(at: int, action: Action)

  /** What a point counts: all rows, those blocked and those forwarded. */
  datatype Counter = Total | BlockedOnly | ForwardedOnly

  datatype Counts = Counts(total: nat, blocked: nat, forwarded: nat) {
    function Get(c: Counter): nat {
      match c
      case Total => total
      case BlockedOnly => blocked
      case ForwardedOnly => forwarded
    }
  }

  const NO_ROWS := Counts(0, 0, 0)

  predicate IsCounted(r: Row, c: Counter) {
    match c
    case Total => true
    case BlockedOnly => r.action.Blocked?
    case ForwardedOnly => r.action.Forwarded?
  }

  // ----- the time axis -----

  datatype Axis = Axis(start: int, bucket: int, end: int)

  /** The earliest row, if there is one. */
  function Earliest(rows: seq<Row>, fallback: int, i: nat): int
    requires i <= |rows|
  {
    if i == 0 then fallback
    else if i == 1 then rows[0].at
    else
      var m := Earliest(rows, fallback, i - 1);
      if rows[i - 1].at < m then rows[i - 1].at else m
  }

  function RetainedStart(rows: seq<Row>, end: int, retention: u64): int {
    if retention == 0 then Earliest(rows, Saturated(end - POINTS), |rows|)
    else Saturated(end - Saturated(AsI64(retention) * DAY_SECS))
  }

  function BucketSecs(start: int, end: int): (b: int)
    ensures b >= 1
  {
    var secs := Truncated(Saturated(Saturated(end - start) + POINTS - 1), POINTS);
    if secs < 1 then 1 else secs
  }

  function AxisOf(rows: seq<Row>, end: int, requested: u64, retention: u64): (a: Axis)
    ensures a.bucket >= 1 && a.end == end
  {
    var retained := RetainedStart(rows, end, retention);
    var wanted := if requested == 0 then retained else Saturated(end - Saturated(AsI64(requested) * DAY_SECS));
    var start := if wanted < retained then retained else wanted;
    Axis(start, BucketSecs(start, end), end)
  }

  function Timestamp(a: Axis, k: nat): int {
    var t := Wrapped(a.start + Wrapped((k + 1) * a.bucket));
    if t < a.end then t else a.end
  }

  predicate Selected(a: Axis, r: Row) {
    a.start <= r.at <= a.end
  }

  lemma DivisionBounds(x: nat, b: nat)
    requires b >= 1
    ensures x / b * b <= x < (x / b + 1) * b
  {
  }

  /** The bucket of a selected row; every other row goes nowhere. */
  function Place(a: Axis, r: Row): (p: int)
    requires a.bucket >= 1
    ensures -1 <= p < POINTS && (p >= 0 <==> Selected(a, r))
  {
    if !Selected(a, r) then -1
    else
      var x := r.at - a.start;
      DivisionBounds(x, a.bucket);
      var b := Truncated(x, a.bucket);
      if b < POINTS - 1 then b else POINTS - 1
  }

  /** The axis arithmetic stays within 64 bits. */
  predicate Fits(a: Axis) {
    a.bucket >= 1 && POINTS * a.bucket <= I64_MAX && I64_MIN <= a.start && a.start + POINTS * a.bucket <= I64_MAX
  }

  /** The timestamp of a bucket in unbounded integers. */
  function BucketEnd(a: Axis, k: nat): int {
    if a.start + (k + 1) * a.bucket < a.end then a.start + (k + 1) * a.bucket else a.end
  }

  lemma MultiplesAscend(b: int, j: nat, k: nat)
    requires 1 <= b && j <= k
    ensures j * b <= k * b
  {
  }

  lemma PlainTimestamp(a: Axis, k: nat)
    requires Fits(a) && k < POINTS
    ensures Timestamp(a, k) == BucketEnd(a, k)
  {
    MultiplesAscend(a.bucket, k + 1, POINTS);
    MultiplesAscend(a.bucket, 0, k + 1);
  }

  /** Timestamps never go back and never pass the end. */
  lemma TimestampsAscend(a: Axis, k: nat)
    requires Fits(a) && k + 1 < POINTS
    ensures Timestamp(a, k) <= Timestamp(a, k + 1) <= a.end
  {
    PlainTimestamp(a, k);
    PlainTimestamp(a, k + 1);
    assert (k + 2) * a.bucket == (k + 1) * a.bucket + a.bucket;
  }

  /** Forty buckets of a span stay within 64 bits by themselves, and reach its end unless the span saturates. */
  lemma BucketsOfSpan(start: int, end: int)
    requires I64_MIN <= start <= end <= I64_MAX
    ensures var b := BucketSecs(start, end);
            && POINTS * b <= I64_MAX
            && (start + POINTS * b >= end <==> end - start <= I64_MAX - 7)
            && (end <= I64_MAX - POINTS ==> start + POINTS * b <= end + POINTS <= I64_MAX)
  {
    DivisionBounds(Saturated(Saturated(end - start) + POINTS - 1), POINTS);
  }

  /**
   The last timestamp is the end exactly if the span's arithmetic does not saturate and adding forty buckets
   to the start does not overflow, which it never does forty seconds or more below the largest value.
   */
  lemma LastTimestampIff(start: int, end: int)
    requires I64_MIN <= start <= end <= I64_MAX
    ensures var b := BucketSecs(start, end);
            && (Timestamp(Axis(start, b, end), POINTS - 1) == end <==>
                end - start <= I64_MAX - 7 && start + POINTS * b <= I64_MAX)
            && (end <= I64_MAX - POINTS ==> start + POINTS * b <= I64_MAX)
  {
    BucketsOfSpan(start, end);
  }

  lemma RowBetweenEnds(a: Axis, r: Row)
    requires a.bucket >= 1 && Selected(a, r) && BucketEnd(a, POINTS - 1) == a.end
    ensures (if Place(a, r) == 0 then a.start else BucketEnd(a, Place(a, r) - 1)) <= r.at <= BucketEnd(a, Place(a, r))
  {
    var q := (r.at - a.start) / a.bucket;
    DivisionBounds(r.at - a.start, a.bucket);
    if q >= POINTS - 1 {
      MultiplesAscend(a.bucket, POINTS - 1, q);
    }
  }

  /** A selected row lies between the timestamps around its bucket, the start standing before the first. */
  lemma RowBetweenTimestamps(a: Axis, r: Row)
    requires Fits(a) && Selected(a, r) && Timestamp(a, POINTS - 1) == a.end
    ensures (if Place(a, r) == 0 then a.start else Timestamp(a, Place(a, r) - 1)) <= r.at <= Timestamp(a, Place(a, r))
  {
    var k := Place(a, r);
    PlainTimestamp(a, POINTS - 1);
    PlainTimestamp(a, k);
    if k > 0 {
      PlainTimestamp(a, k - 1);
    }
    RowBetweenEnds(a, r);
  }

  /** So every row of a span that does not saturate lies between the timestamps around its bucket. */
  lemma RowOnChart(start: int, end: int, r: Row)
    requires I64_MIN <= start <= end <= I64_MAX - POINTS && end - start <= I64_MAX - 7 && start <= r.at <= end
    ensures var a := Axis(start, BucketSecs(start, end), end);
            var k := Place(a, r);
            && 0 <= k < POINTS
            && (if k == 0 then start else Timestamp(a, k - 1)) <= r.at <= Timestamp(a, k)
  {
    BucketsOfSpan(start, end);
    LastTimestampIff(start, end);
    RowBetweenTimestamps(Axis(start, BucketSecs(start, end), end), r);
  }

  // ----- counting -----

  function Places(rows: seq<Row>, a: Axis): (ps: seq<int>)
    requires a.bucket >= 1
    ensures |ps| == |rows| && forall i :: 0 <= i < |ps| ==> ps[i] == Place(a, rows[i])
  {
    seq(|rows|, i requires 0 <= i < |rows| => Place(a, rows[i]))
  }

  /** The counted rows among the first `i` whose places are from `from` up to but not including `to`. */
  function Tally(rows: seq<Row>, places: seq<int>, c: Counter, from: int, to: int, i: nat): nat
    requires i <= |rows| == |places|
  {
    if i == 0 then 0
    else
      Tally(rows, places, c, from, to, i - 1)
      + if from <= places[i - 1] < to && IsCounted(rows[i - 1], c) then 1 else 0
  }

  function InBucket(rows: seq<Row>, places: seq<int>, k: int): (r: Counts)
    requires |rows| == |places|
  {
    Counts(Tally(rows, places, Total, k, k + 1, |rows|),
           Tally(rows, places, BlockedOnly, k, k + 1, |rows|),
           Tally(rows, places, ForwardedOnly, k, k + 1, |rows|))
  }

  /** The counted rows among the first `i` that lie on the axis. */
  function TallyAll(rows: seq<Row>, a: Axis, c: Counter, i: nat): nat
    requires i <= |rows|
  {
    if i == 0 then 0
    else TallyAll(rows, a, c, i - 1) + if Selected(a, rows[i - 1]) && IsCounted(rows[i - 1], c) then 1 else 0
  }

  datatype Point = Point(timestamp: int, counts: Counts)

  function SumPoints(points: seq<Point>, c: Counter, n: nat): nat
    requires n <= |points|
  {
    if n == 0 then 0 else SumPoints(points, c, n - 1) + points[n - 1].counts.Get(c)
  }

  ghost predicate IsTrend(rows: seq<Row>, a: Axis, points: seq<Point>) {
    && a.bucket >= 1 && |points| == POINTS
    && forall k :: 0 <= k < POINTS ==> points[k] == Point(Timestamp(a, k), InBucket(rows, Places(rows, a), k))
  }

  lemma {:induction false} TallySplits(rows: seq<Row>, places: seq<int>, c: Counter, mid: nat, i: nat)
    requires i <= |rows| == |places|
    ensures Tally(rows, places, c, 0, mid + 1, i) ==
              Tally(rows, places, c, 0, mid, i) + Tally(rows, places, c, mid, mid + 1, i)
  {
    if i == 0 {
    } else {
      TallySplits(rows, places, c, mid, i - 1);
    }
  }

  lemma {:induction false} NoRowsInNoBuckets(rows: seq<Row>, places: seq<int>, c: Counter, i: nat)
    requires i <= |rows| == |places|
    ensures Tally(rows, places, c, 0, 0, i) == 0
  {
    if i == 0 {
    } else {
      NoRowsInNoBuckets(rows, places, c, i - 1);
    }
  }

  lemma {:induction false} AllRowsInSomeBucket(rows: seq<Row>, places: seq<int>, a: Axis, c: Counter, i: nat)
    requires i <= |rows| == |places|
    requires forall k :: 0 <= k < |rows| ==> -1 <= places[k] < POINTS && (places[k] >= 0 <==> Selected(a, rows[k]))
    ensures Tally(rows, places, c, 0, POINTS, i) == TallyAll(rows, a, c, i)
  {
    if i == 0 {
    } else {
      AllRowsInSomeBucket(rows, places, a, c, i - 1);
    }
  }

  lemma {:induction false} SumIsTally(rows: seq<Row>, places: seq<int>, points: seq<Point>, c: Counter, n: nat)
    requires |rows| == |places| && n <= |points|
    requires forall k :: 0 <= k < n ==> points[k].counts == InBucket(rows, places, k)
    ensures SumPoints(points, c, n) == Tally(rows, places, c, 0, n, |rows|)
  {
    if n == 0 {
      NoRowsInNoBuckets(rows, places, c, |rows|);
    } else {
      SumIsTally(rows, places, points, c, n - 1);
      assert points[n - 1].counts == InBucket(rows, places, n - 1);
      TallySplits(rows, places, c, n - 1, |rows|);
    }
  }

  /** The forty points add up to the rows on the axis: none is lost and none is counted twice. */
  lemma TrendConserves(rows: seq<Row>, a: Axis, points: seq<Point>, c: Counter)
    requires IsTrend(rows, a, points)
    ensures SumPoints(points, c, POINTS) == TallyAll(rows, a, c, |rows|)
  {
    var places := Places(rows, a);
    assert forall k :: 0 <= k < |rows| ==> places[k] == Place(a, rows[k]);
    SumIsTally(rows, places, points, c, POINTS);
    AllRowsInSomeBucket(rows, places, a, c, |rows|);
  }

  /** Without a limit on retention the chart starts at the earliest row, whatever the rows. */
  lemma {:induction false} EarliestIsLeast(rows: seq<Row>, fallback: int, i: nat)
    requires i <= |rows|
    ensures forall k :: 0 <= k < i ==> Earliest(rows, fallback, i) <= rows[k].at
    ensures i > 0 ==> exists k :: 0 <= k < i && Earliest(rows, fallback, i) == rows[k].at
  {
    if i == 1 {
      assert Earliest(rows, fallback, i) == rows[0].at;
    } else if i > 1 {
      EarliestIsLeast(rows, fallback, i - 1);
      assert Earliest(rows, fallback, i) == rows[i - 1].at ||
             Earliest(rows, fallback, i) == Earliest(rows, fallback, i - 1);
    }
  }

  /**
   Without limits the axis starts at the earliest row, so every row up to the end is on the chart; without
   rows it covers the forty seconds before the end.
   */
  lemma UnlimitedAxis(rows: seq<Row>, end: int)
    ensures var a := AxisOf(rows, end, 0, 0);
            && (rows == [] ==> a.start == Saturated(end - POINTS))
            && (rows != [] ==> exists k :: 0 <= k < |rows| && a.start == rows[k].at)
            && forall k :: 0 <= k < |rows| ==> (Selected(a, rows[k]) <==> rows[k].at <= end)
  {
    EarliestIsLeast(rows, Saturated(end - POINTS), |rows|);
  }

  /**
   With limits, in days before the end: the axis starts at the later of the range asked for and the range
   kept, and where nothing limits what is kept, at the earliest row if that is later.
   */
  lemma LimitedAxis(rows: seq<Row>, end: int, requested: u64, retention: u64)
    requires 0 <= end <= I64_MAX && 86_400 * requested <= I64_MAX && 86_400 * retention <= I64_MAX
    ensures var a := AxisOf(rows, end, requested, retention);
            && a.end == end && a.bucket == BucketSecs(a.start, end)
            && (requested > 0 && retention > 0 ==>
                  a.start == end - 86_400 * if requested < retention then requested else retention)
            && (requested == 0 && retention > 0 ==> a.start == end - 86_400 * retention)
            && (requested > 0 && retention == 0 && rows == [] ==> a.start == end - 40)
            && (requested > 0 && retention == 0 && rows != [] ==>
                  && a.start >= end - 86_400 * requested
                  && (forall k :: 0 <= k < |rows| ==> a.start <= rows[k].at || a.start == end - 86_400 * requested)
                  && (a.start == end - 86_400 * requested || exists k :: 0 <= k < |rows| && a.start == rows[k].at))
  {
    EarliestIsLeast(rows, Saturated(end - POINTS), |rows|);
  }

  /** A bucket is a fortieth of the span, rounded up, and at least a second. */
  lemma BucketWidth(start: int, end: int)
    requires start <= end && end - start <= I64_MAX - 39
    ensures var b := BucketSecs(start, end);
            b >= 1 && end - start <= 40 * b && (b > 1 ==> 40 * (b - 1) < end - start)
  {
  }

  /** Buckets are whole widths from the start, and the last one also takes what is left. */
  lemma PlaceByNumbers(a: Axis, r: Row)
    requires a.bucket >= 1 && Selected(a, r)
    ensures var p := Place(a, r);
            && a.start + p * a.bucket <= r.at && (p < 39 ==> r.at < a.start + (p + 1) * a.bucket) && p <= 39
  {
    DivisionBounds(r.at - a.start, a.bucket);
    if (r.at - a.start) / a.bucket > 39 {
      MultiplesAscend(a.bucket, 39, (r.at - a.start) / a.bucket);
    }
  }

  /** What one row counts for in its bucket, by its action. */
  lemma OneRowCounts(r: Row, place: int)
    ensures InBucket([r], [place], place) ==
            match r.action
            case Blocked => Counts(1, 1, 0)
            case Forwarded => Counts(1, 0, 1)
            case OtherAction => Counts(1, 0, 0)
  {
    assert Tally([r], [place], Total, place, place + 1, 0) == 0;
    assert Tally([r], [place], BlockedOnly, place, place + 1, 0) == 0;
    assert Tally([r], [place], ForwardedOnly, place, place + 1, 0) == 0;
  }

  // ----- the query and its result -----

  /** One row of the grouped query. */
  datatype Group = Group(bucket: int, counts: Counts)

  predicate Listed(groups: seq<Group>, n: nat, k: int)
    requires n <= |groups|
  {
    exists j :: 0 <= j < n && groups[j].bucket == k
  }

  /** What GROUP BY promises: one group for each bucket that holds a selected row, with its counts. */
  ghost predicate IsGrouping(groups: seq<Group>, rows: seq<Row>, places: seq<int>)
    requires |places| == |rows|
  {
    && (forall i, j :: 0 <= i < j < |groups| ==> groups[i].bucket != groups[j].bucket)
    && (forall i :: 0 <= i < |groups| ==> groups[i].counts == InBucket(rows, places, groups[i].bucket))
    && (forall k :: 0 <= k < POINTS && InBucket(rows, places, k) != NO_ROWS ==> Listed(groups, |groups|, k))
  }

  /** Fills the buckets from the groups, in whatever order they come, and puts them on the axis. */
  method GetQueryTrend(rows: seq<Row>, end: int, requested: u64, retention: u64, groups: seq<Group>)
    returns (points: seq<Point>)
    requires IsGrouping(groups, rows, Places(rows, AxisOf(rows, end, requested, retention)))
    ensures IsTrend(rows, AxisOf(rows, end, requested, retention), points)
  {
    var a := AxisOf(rows, end, requested, retention);
    ghost var places := Places(rows, a);
    var buckets := FillBuckets(rows, places, groups);
    points := seq(POINTS, k requires 0 <= k < |buckets| => Point(Timestamp(a, k), buckets[k]));
  }

  method FillBuckets(ghost rows: seq<Row>, ghost places: seq<int>, groups: seq<Group>) returns (counts: seq<Counts>)
    requires |places| == |rows| && IsGrouping(groups, rows, places)
    ensures |counts| == POINTS && forall k :: 0 <= k < POINTS ==> counts[k] == InBucket(rows, places, k)
  {
    var buckets := new Counts[POINTS](_ => NO_ROWS);
    for i := 0 to |groups|
      invariant forall k :: 0 <= k < POINTS ==>
                  buckets[k] == if Listed(groups, i, k) then InBucket(rows, places, k) else NO_ROWS
    {
      var g := groups[i];
      forall k ensures Listed(groups, i + 1, k) <==> Listed(groups, i, k) || g.bucket == k {
        if g.bucket == k { assert groups[i].bucket == k; }
      }
      if 0 <= g.bucket < POINTS {
        buckets[g.bucket] := g.counts;
      }
    }
    counts := buckets[..];
  }
}
