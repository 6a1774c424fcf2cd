/**
 * The routing history: its bucket axis, and the per-channel series over that axis. Instants are
 * nanoseconds since the epoch, UTC; a bucket label is the instant at which the bucket begins.
 */
module RoutingHistory {
  import opened Wrappers
  import opened BoundedInts
  import opened Division

  datatype Result<+T> = Ok(value: T) | BadRequest(message: string)

  datatype BucketUnit = Hour | Day

  const NANOS: nat := 1_000_000_000
  const HOUR: nat := 3600 * NANOS
  const DAY: nat := 86400 * NANOS

  function StepOf(unit: BucketUnit): nat {
    if unit.Day? then DAY else HOUR
  }

  /** The beginning of the bucket that contains `t`. */
  function Floor(t: int, step: nat): int
    requires step > 0
  {
    t - t % step
  }

  /** An instant is absent when its text is not a valid date. */
  function UnitFor(start: Option<int>, end: Option<int>): Result<BucketUnit> {
    if start.None? then BadRequest("Invalid start datetime")
    else if end.None? then BadRequest("Invalid end datetime")
    else if end.value <= start.value then BadRequest("end must be after start")
    else Ok(if (end.value - start.value) / NANOS < 172_800 then Hour else Day)
  }

  /** The bucket beginnings from `cursor` up to `end`. */
  function Axis(cursor: int, end: int, step: nat): seq<int>
    requires step > 0
    decreases end - cursor
  {
    if cursor > end then [] else [cursor] + Axis(cursor + step, end, step)
  }

  method RoutingHistoryBucketAxis(start: Option<int>, end: Option<int>, unit: BucketUnit) returns (r: Result<seq<int>>)
    ensures start.None? ==> r == BadRequest("Invalid start datetime")
    ensures start.Some? && end.None? ==> r == BadRequest("Invalid end datetime")
    ensures start.Some? && end.Some? ==> r == Ok(Axis(Floor(start.value, StepOf(unit)), end.value, StepOf(unit)))
  {
    if start.None? {
      return BadRequest("Invalid start datetime");
    }
    if end.None? {
      return BadRequest("Invalid end datetime");
    }
    var step := StepOf(unit);
    var first := Floor(start.value, step);
    var cursor := first;
    var axis: seq<int> := [];
    while cursor <= end.value
      invariant axis + Axis(cursor, end.value, step) == Axis(first, end.value, step)
      decreases end.value - cursor
    {
      var rest := Axis(cursor + step, end.value, step);
      assert axis + ([cursor] + rest) == (axis + [cursor]) + rest;
      axis := axis + [cursor];
      cursor := cursor + step;
    }
    assert axis + [] == axis;
    r := Ok(axis);
  }

  // ---- Completeness of the axis ----

  predicate InBucket(t: int, bucket: int, step: nat) {
    bucket <= t < bucket + step
  }

  lemma {:induction false} AxisRange(cursor: int, end: int, step: nat)
    requires step > 0
    ensures forall b :: b in Axis(cursor, end, step) ==> cursor <= b <= end
    decreases end - cursor
  {
    if cursor <= end {
      AxisRange(cursor + step, end, step);
    }
  }

  /** Every instant of the range lies in the bucket of exactly one axis entry. */
  lemma {:induction false} AxisCovers(cursor: int, end: int, step: nat, t: int)
    requires step > 0 && cursor <= t <= end
    ensures exists k :: 0 <= k < |Axis(cursor, end, step)| && InBucket(t, Axis(cursor, end, step)[k], step)
    decreases end - cursor
  {
    var axis := Axis(cursor, end, step);
    if t < cursor + step {
      assert InBucket(t, axis[0], step);
    } else {
      AxisCovers(cursor + step, end, step, t);
      var k :| 0 <= k < |axis[1..]| && InBucket(t, axis[1..][k], step);
      assert InBucket(t, axis[k + 1], step);
    }
  }

  lemma {:induction false} AxisApart(cursor: int, end: int, step: nat, i: nat, j: nat)
    requires step > 0 && i < j < |Axis(cursor, end, step)|
    ensures Axis(cursor, end, step)[i] + step <= Axis(cursor, end, step)[j]
    decreases end - cursor
  {
    var rest := Axis(cursor + step, end, step);
    if i == 0 {
      AxisRange(cursor + step, end, step);
      assert rest[j - 1] in rest;
    } else {
      AxisApart(cursor + step, end, step, i - 1, j - 1);
    }
  }

  lemma AlignedStep(cursor: int, step: nat)
    requires step > 0 && cursor % step == 0
    ensures (cursor + step) % step == 0
  {
    var q := cursor / step;
    assert cursor == q * step;
    assert cursor + step == (q + 1) * step;
    MultipleIsAligned(q + 1, step);
  }

  lemma MultipleIsAligned(q: int, step: nat)
    requires step > 0
    ensures (q * step) % step == 0
  {
    DivisionUnique(q * step, q, 0, step);
  }

  lemma {:induction false} AxisAligned(cursor: int, end: int, step: nat)
    requires step > 0 && cursor % step == 0
    ensures forall b :: b in Axis(cursor, end, step) ==> b % step == 0
    decreases end - cursor
  {
    if cursor <= end {
      AlignedStep(cursor, step);
      AxisAligned(cursor + step, end, step);
    }
  }

  lemma FloorAligned(t: int, step: nat)
    requires step > 0
    ensures Floor(t, step) % step == 0 && InBucket(t, Floor(t, step), step)
  {
    var q := t / step;
    assert t == q * step + t % step;
    MultipleIsAligned(q, step);
  }

  lemma AlignedIsFloor(t: int, b: int, step: nat)
    requires step > 0 && b % step == 0 && InBucket(t, b, step)
    ensures Floor(t, step) == b
  {
    var q := b / step;
    assert b == q * step;
    DivisionUnique(t, q, t - b, step);
  }

  /**
   * The axis of a range is complete: each instant in it falls into exactly one axis bucket, the one
   * whose label is the truncated instant.
   */
  lemma AxisIsComplete(start: int, end: int, step: nat, t: int)
    requires step > 0 && start <= t <= end
    ensures var axis := Axis(Floor(start, step), end, step);
            && Floor(t, step) in axis
            && (forall i, j :: 0 <= i < |axis| && 0 <= j < |axis| &&
                  InBucket(t, axis[i], step) && InBucket(t, axis[j], step)
                  ==> i == j)
            && (forall i :: 0 <= i < |axis| ==> (InBucket(t, axis[i], step) <==> axis[i] == Floor(t, step)))
  {
    var first := Floor(start, step);
    var axis := Axis(first, end, step);
    FloorAligned(start, step);
    FloorAligned(t, step);
    AxisCovers(first, end, step, t);
    AxisAligned(first, end, step);
    forall i | 0 <= i < |axis| && InBucket(t, axis[i], step)
      ensures axis[i] == Floor(t, step)
    {
      assert axis[i] in axis;
      AlignedIsFloor(t, axis[i], step);
    }
    forall i, j | 0 <= i < j < |axis|
      ensures axis[i] + step <= axis[j]
    {
      AxisApart(first, end, step, i, j);
    }
    hide Axis, Floor;
  }

  lemma {:induction false} HourlySize(cursor: int, end: int)
    requires cursor <= end
    ensures |Axis(cursor, end, HOUR)| * HOUR <= end - cursor + HOUR
    decreases end - cursor
  {
    if cursor + HOUR <= end {
      HourlySize(cursor + HOUR, end);
    } else {
      assert Axis(cursor + HOUR, end, HOUR) == [];
    }
  }

  /** An hourly axis, chosen for ranges under two days, has at most 49 buckets. */
  lemma HourlyAxisHasAtMost49(start: int, end: int)
    requires UnitFor(Some(start), Some(end)) == Ok(Hour)
    ensures |Axis(Floor(start, HOUR), end, HOUR)| <= 49
  {
    FloorAligned(start, HOUR);
    HourlySize(Floor(start, HOUR), end);
    WholeSeconds(end - start);
  }

  /** The unit of a range, or the error of a malformed one: hours below two days, in nanoseconds. */
  lemma UnitIff(start: Option<int>, end: Option<int>)
    ensures start.None? ==> UnitFor(start, end) == BadRequest("Invalid start datetime")
    ensures start.Some? && end.None? ==> UnitFor(start, end) == BadRequest("Invalid end datetime")
    ensures start.Some? && end.Some? && end.value <= start.value ==>
              UnitFor(start, end) == BadRequest("end must be after start")
    ensures start.Some? && end.Some? && start.value < end.value ==>
              && (UnitFor(start, end) == Ok(Hour) <==> end.value - start.value < 172_800_000_000_000)
              && (UnitFor(start, end) == Ok(Day) <==> end.value - start.value >= 172_800_000_000_000)
  {
  }

  /** Whole hours or days since the epoch, in nanoseconds. */
  function Length(unit: BucketUnit): nat {
    match unit
    case Hour => 3_600_000_000_000
    case Day => 86_400_000_000_000
  }

  lemma {:induction false} AxisSteps(cursor: int, end: int, step: nat)
    requires step > 0 && cursor <= end
    ensures var axis := Axis(cursor, end, step);
            && axis != [] && axis[0] == cursor
            && (forall i :: 0 < i < |axis| ==> axis[i] == axis[i - 1] + step)
            && axis[|axis| - 1] <= end < axis[|axis| - 1] + step
    decreases end - cursor
  {
    var rest := Axis(cursor + step, end, step);
    assert Axis(cursor, end, step) == [cursor] + rest;
    assert cursor + step > end ==> rest == [];
    hide Axis;
    if cursor + step <= end {
      AxisSteps(cursor + step, end, step);
      forall i | 0 < i < |[cursor] + rest|
        ensures ([cursor] + rest)[i] == ([cursor] + rest)[i - 1] + step
      {
        assert i > 1 ==> rest[i - 1] == rest[i - 2] + step;
      }
    }
  }

  /**
   * The axis of a range in its unit: it begins with the whole hour or day that contains the start, goes
   * on hour by hour or day by day, and ends with the one that contains the end.
   */
  lemma AxisIsSpaced(start: int, end: int, unit: BucketUnit)
    requires start <= end
    ensures var axis, length := Axis(Floor(start, StepOf(unit)), end, StepOf(unit)), Length(unit);
            && axis != []
            && axis[0] % length == 0 && axis[0] <= start < axis[0] + length
            && (forall i :: 0 < i < |axis| ==> axis[i] == axis[i - 1] + length)
            && axis[|axis| - 1] <= end < axis[|axis| - 1] + length
  {
    FloorAligned(start, StepOf(unit));
    AxisSteps(Floor(start, StepOf(unit)), end, StepOf(unit));
    hide Axis, Floor;
  }

  lemma WholeSeconds(d: int)
    requires d / NANOS < 172_800
    ensures d < 172_800 * NANOS
  {
  }

  // ---- The series ----

  /** One row of the grouped query. */
  datatype Row = Row(channel: string, bucket: int, requests: u64, successes: u64)

  datatype Point = Point(requests: u64, successes: u64)

  type Points = map<string, map<int, Point>>

  function PointAt(points: Points, channel: string, bucket: int): Point {
    if channel in points && bucket in points[channel] then points[channel][bucket] else Point(0, 0)
  }

  /** What the rows of one channel and bucket add up to, saturating. */
  function RowsPoint(rows: seq<Row>, channel: string, bucket: int): Point {
    if rows == [] then Point(0, 0)
    else
      var before, row := RowsPoint(rows[..|rows| - 1], channel, bucket), rows[|rows| - 1];
      if row.channel == channel && row.bucket == bucket
      then Point(SaturatingAdd(before.requests, row.requests), SaturatingAdd(before.successes, row.successes))
      else before
  }

  /** The points accumulated from the rows, and one channel's series over the axis. */
  method BuildSeries(rows: seq<Row>, channel: string, axis: seq<int>) returns (requests: seq<u64>, successes: seq<u64>)
    ensures |requests| == |successes| == |axis|
    ensures forall i :: 0 <= i < |axis| ==>
              Point(requests[i], successes[i]) == RowsPoint(rows, channel, axis[i])
  {
    var points: Points := map[];
    for i := 0 to |rows|
      invariant forall c, b :: PointAt(points, c, b) == RowsPoint(rows[..i], c, b)
    {
      var row := rows[i];
      assert rows[..i + 1][..i] == rows[..i];
      var entry := if row.channel in points then points[row.channel] else map[];
      var point := if row.bucket in entry then entry[row.bucket] else Point(0, 0);
      assert point == PointAt(points, row.channel, row.bucket);
      point := Point(SaturatingAdd(point.requests, row.requests), SaturatingAdd(point.successes, row.successes));
      points := points[row.channel := entry[row.bucket := point]];
    }
    assert rows[..|rows|] == rows;
    requests := seq(|axis|, i requires 0 <= i < |axis| => PointAt(points, channel, axis[i]).requests);
    successes := seq(|axis|, i requires 0 <= i < |axis| => PointAt(points, channel, axis[i]).successes);
  }

  function Total(rows: seq<Row>, channel: string): nat {
    if rows == [] then 0
    else
      var last := rows[|rows| - 1];
      Total(rows[..|rows| - 1], channel) + if last.channel == channel then last.requests else 0
  }

  function SeriesSum(rows: seq<Row>, channel: string, axis: seq<int>): nat {
    if axis == [] then 0 else RowsPoint(rows, channel, axis[0]).requests + SeriesSum(rows, channel, axis[1..])
  }

  lemma {:induction false} PointBelowTotal(rows: seq<Row>, channel: string, bucket: int)
    ensures RowsPoint(rows, channel, bucket).requests <= Total(rows, channel)
    decreases |rows|
  {
    if rows != [] {
      PointBelowTotal(rows[..|rows| - 1], channel, bucket);
    }
  }

  /** One more row raises exactly the entry of its bucket. */
  lemma {:induction false} OneMoreRow(rows: seq<Row>, channel: string, axis: seq<int>)
    requires rows != [] && Total(rows, channel) < U64_LIMIT
    requires forall i, j :: 0 <= i < j < |axis| ==> axis[i] != axis[j]
    ensures var row := rows[|rows| - 1];
            SeriesSum(rows, channel, axis) == SeriesSum(rows[..|rows| - 1], channel, axis) +
              if row.channel == channel && row.bucket in axis then row.requests else 0
    decreases |axis|
  {
    if axis != [] {
      OneMoreRow(rows, channel, axis[1..]);
      PointBelowTotal(rows[..|rows| - 1], channel, axis[0]);
      assert axis == [axis[0]] + axis[1..];
    }
  }

  lemma {:induction false} EmptySeries(channel: string, axis: seq<int>)
    ensures SeriesSum([], channel, axis) == 0
    decreases |axis|
  {
    if axis != [] {
      EmptySeries(channel, axis[1..]);
    }
  }

  lemma {:induction false} SeriesSumsToTotal(rows: seq<Row>, channel: string, axis: seq<int>)
    requires Total(rows, channel) < U64_LIMIT
    requires forall i, j :: 0 <= i < j < |axis| ==> axis[i] != axis[j]
    requires forall i :: 0 <= i < |rows| ==> rows[i].bucket in axis
    ensures SeriesSum(rows, channel, axis) == Total(rows, channel)
    decreases |rows|
  {
    if rows == [] {
      EmptySeries(channel, axis);
    } else {
      SeriesSumsToTotal(rows[..|rows| - 1], channel, axis);
      OneMoreRow(rows, channel, axis);
    }
  }

  /**
   * Nothing is dropped or doubled: when each row is the bucket of some instant in the queried range,
   * a channel's series adds up to all requests grouped for it, unless they exceed 64 bits.
   */
  lemma SeriesIsComplete(rows: seq<Row>, channel: string, start: int, end: int, unit: BucketUnit, instants: seq<int>)
    requires |instants| == |rows| && Total(rows, channel) < U64_LIMIT
    requires forall i :: 0 <= i < |rows| ==>
               start <= instants[i] <= end && rows[i].bucket == Floor(instants[i], StepOf(unit))
    ensures SeriesSum(rows, channel, Axis(Floor(start, StepOf(unit)), end, StepOf(unit))) == Total(rows, channel)
  {
    var step := StepOf(unit);
    var axis := Axis(Floor(start, step), end, step);
    forall i | 0 <= i < |rows|
      ensures rows[i].bucket in axis
    {
      AxisIsComplete(start, end, step, instants[i]);
    }
    forall i, j | 0 <= i < j < |axis|
      ensures axis[i] != axis[j]
    {
      AxisApart(Floor(start, step), end, step, i, j);
    }
    hide Axis, Floor;
    SeriesSumsToTotal(rows, channel, axis);
  }
}
