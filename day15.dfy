/** Beacon exclusion zone: each sensor sees every point within the
    Manhattan distance of its closest beacon; the points a row has in
    sight are merged into disjoint ranges. */
module Day15 {
  import opened Common

  datatype Point = Point(x: int, y: int)

  datatype Sensor = Sensor(position: Point, closestBeacon: Point)

  /** An inclusive range of x values; `start > end` covers nothing. */
  datatype Range = Range(start: int, end: int)

  /** `TUNING_FACTOR_X`. */
  const TuningFactor := 4000000

  function ManhattanDistance(first: Point, second: Point): (d: nat)
    ensures d == 0 <==> first == second
    ensures d >= Abs(first.x - second.x) && d >= Abs(first.y - second.y)
  {
    Abs(first.x - second.x) + Abs(first.y - second.y)
  }

  lemma ManhattanSymmetric(first: Point, second: Point)
    ensures ManhattanDistance(first, second) == ManhattanDistance(second, first)
  {
  }

  /** The radius a sensor sees: the distance to its closest beacon. */
  function Radius(sensor: Sensor): nat {
    ManhattanDistance(sensor.position, sensor.closestBeacon)
  }

  predicate Reaches(sensor: Sensor, p: Point) {
    ManhattanDistance(sensor.position, p) <= Radius(sensor)
  }

  predicate Seen(sensors: seq<Sensor>, p: Point) {
    exists i :: 0 <= i < |sensors| && Reaches(sensors[i], p)
  }

  /** With `maxPos` given, only columns `0..maxPos` count. */
  predicate InColumns(x: int, maxPos: Option<int>) {
    maxPos.None? || 0 <= x <= maxPos.value
  }

  // ---------------------------------------------------------------------
  // Ranges

  predicate Covers(r: Range, x: int) {
    r.start <= x <= r.end
  }

  predicate CoveredBy(ranges: seq<Range>, x: int) {
    exists r :: r in ranges && Covers(r, x)
  }

  predicate Proper(ranges: seq<Range>) {
    forall i :: 0 <= i < |ranges| ==> ranges[i].start <= ranges[i].end
  }

  predicate SortedByStart(ranges: seq<Range>) {
    forall j, k :: 0 <= j < k < |ranges| ==> ranges[j].start <= ranges[k].start
  }

  /** Ascending starts, and a gap of at least one column between a range
      and every later one. */
  predicate Separated(ranges: seq<Range>) {
    forall j, k :: 0 <= j < k < |ranges| ==> ranges[j].start <= ranges[k].start && ranges[j].end + 1 < ranges[k].start
  }

  /** A column lies in at most one range of a separated list. */
  lemma SeparatedDisjoint(ranges: seq<Range>, j: int, k: int, x: int)
    requires Separated(ranges) && 0 <= j < k < |ranges|
    ensures !(Covers(ranges[j], x) && Covers(ranges[k], x))
  {
  }

  /** `add` on the insertion-ordered set the source uses. */
  function AddUnique(ranges: seq<Range>, r: Range): (out: seq<Range>)
    ensures r in out && forall s :: s in out <==> s in ranges || s == r
  {
    if r in ranges then ranges else ranges + [r]
  }

  /** Stable insertion of `r` behind every range whose start is not
      larger. */
  function Insert(sorted: seq<Range>, r: Range): (out: seq<Range>)
    ensures multiset(out) == multiset(sorted) + multiset{r}
  {
    if sorted == [] || sorted[|sorted| - 1].start <= r.start then sorted + [r]
    else
      var init := sorted[..|sorted| - 1];
      assert sorted == init + [sorted[|sorted| - 1]];
      Insert(init, r) + [sorted[|sorted| - 1]]
  }

  /** Inserting a range whose start is at most `bound` into a list whose
      starts are all at most `bound` keeps every start at most `bound`. */
  lemma {:induction false} InsertBounded(sorted: seq<Range>, r: Range, bound: int)
    requires forall k :: 0 <= k < |sorted| ==> sorted[k].start <= bound
    requires r.start <= bound
    ensures forall k :: 0 <= k < |Insert(sorted, r)| ==> Insert(sorted, r)[k].start <= bound
  {
    if sorted != [] && sorted[|sorted| - 1].start > r.start {
      var init := sorted[..|sorted| - 1];
      assert forall k :: 0 <= k < |init| ==> init[k] == sorted[k];
      InsertBounded(init, r, bound);
    }
  }

  /** Inserting into a list sorted by start keeps it sorted. */
  lemma {:induction false} InsertKeepsSorted(sorted: seq<Range>, r: Range)
    requires SortedByStart(sorted)
    ensures SortedByStart(Insert(sorted, r))
  {
    if sorted != [] && sorted[|sorted| - 1].start > r.start {
      var init := sorted[..|sorted| - 1];
      var last := sorted[|sorted| - 1];
      assert forall k :: 0 <= k < |init| ==> init[k] == sorted[k];
      InsertKeepsSorted(init, r);
      InsertBounded(init, r, last.start);
      var inner := Insert(init, r);
      var out := inner + [last];
      assert Insert(sorted, r) == out;
      forall j, k | 0 <= j < k < |out|
        ensures out[j].start <= out[k].start
      {
        assert out[j] == inner[j];
        if k < |inner| {
          assert out[k] == inner[k];
        }
      }
    } else if sorted != [] {
      var out := sorted + [r];
      forall j, k | 0 <= j < k < |out|
        ensures out[j].start <= out[k].start
      {
        if k < |sorted| {
          assert out[j] == sorted[j] && out[k] == sorted[k];
        } else {
          assert out[j] == sorted[j];
        }
      }
    }
  }

  /** The result of `SortByStart` is sorted by start. */
  lemma {:induction false} SortByStartSorted(ranges: seq<Range>)
    ensures SortedByStart(SortByStart(ranges))
  {
    if ranges != [] {
      var init := ranges[..|ranges| - 1];
      SortByStartSorted(init);
      InsertKeepsSorted(SortByStart(init), ranges[|ranges| - 1]);
    }
  }

  /** `sortedBy { it.start }`. */
  function SortByStart(ranges: seq<Range>): (sorted: seq<Range>)
    ensures multiset(sorted) == multiset(ranges)
  {
    if ranges == [] then []
    else
      assert ranges == ranges[..|ranges| - 1] + [ranges[|ranges| - 1]];
      Insert(SortByStart(ranges[..|ranges| - 1]), ranges[|ranges| - 1])
  }

  /** The merge loop of `combineRanges` over the rest `s` of the sorted
      ranges, with the range being grown `current` and the ranges already
      emitted `result`. */
  function MergeSorted(s: seq<Range>, current: Range, result: seq<Range>): seq<Range>
    decreases |s|
  {
    if s == [] then AddUnique(result, current)
    else if s[0].start <= current.end + 1 then
      MergeSorted(s[1..], Range(current.start, if s[0].end > current.end then s[0].end else current.end), result)
    else
      MergeSorted(s[1..], s[0], AddUnique(result, current))
  }

  /** `combineRanges` as a function of its input. */
  function Combined(ranges: seq<Range>): seq<Range> {
    if |ranges| <= 1 then ranges
    else
      var sorted := SortByStart(ranges);
      MergeSorted(sorted[1..], sorted[0], [])
  }

  lemma {:induction false} MergeSortedSpec(s: seq<Range>, current: Range, result: seq<Range>)
    requires SortedByStart(s)
    requires forall k :: 0 <= k < |s| ==> current.start <= s[k].start
    requires Separated(result)
    requires forall j :: 0 <= j < |result| ==> result[j].start <= current.start && result[j].end + 1 < current.start
    ensures var out := MergeSorted(s, current, result);
      && Separated(out)
      && (forall x :: CoveredBy(out, x) <==> CoveredBy(result, x) || Covers(current, x) || CoveredBy(s, x))
      && (Proper(result) && current.start <= current.end && Proper(s) ==> Proper(out))
    decreases |s|
  {
    if s == [] {
      AddCurrent(result, current);
      assert forall x :: !CoveredBy(s, x);
    } else {
      var tail := s[1..];
      HeadTail(s);
      assert forall x :: CoveredBy(s, x) <==> Covers(s[0], x) || CoveredBy(tail, x);
      assert Proper(s) ==> s[0].start <= s[0].end by {
        if Proper(s) {
          assert s[0] == s[0];
        }
      }
      if s[0].start <= current.end + 1 {
        var grown := Range(current.start, if s[0].end > current.end then s[0].end else current.end);
        MergeSortedSpec(tail, grown, result);
        assert forall x :: Covers(grown, x) <==> Covers(current, x) || Covers(s[0], x);
      } else {
        AddCurrent(result, current);
        AddedBefore(result, current, s[0]);
        MergeSortedSpec(tail, s[0], AddUnique(result, current));
      }
    }
  }

  /** Emitting `current` behind ranges that all end before it keeps the
      emitted ranges separated, and adds exactly its columns. */
  lemma AddCurrent(result: seq<Range>, current: Range)
    requires Separated(result)
    requires forall j :: 0 <= j < |result| ==> result[j].start <= current.start && result[j].end + 1 < current.start
    ensures Separated(AddUnique(result, current))
    ensures forall x :: CoveredBy(AddUnique(result, current), x) <==> CoveredBy(result, x) || Covers(current, x)
    ensures Proper(result) && current.start <= current.end ==> Proper(AddUnique(result, current))
  {
    var added := AddUnique(result, current);
    if current !in result {
      forall j, k | 0 <= j < k < |added|
        ensures added[j].start <= added[k].start && added[j].end + 1 < added[k].start
      {
        if k == |result| {
          assert added[j] == result[j];
        }
      }
    }
    if Proper(result) && current.start <= current.end {
      forall i | 0 <= i < |added|
        ensures added[i].start <= added[i].end
      {
        if i < |result| {
          assert added[i] == result[i];
        }
      }
    }
  }

  /** After `current` is emitted, a range starting after a gap behind it
      starts after every emitted range. */
  lemma AddedBefore(result: seq<Range>, current: Range, next: Range)
    requires forall j :: 0 <= j < |result| ==> result[j].start <= current.start && result[j].end + 1 < current.start
    requires current.start <= next.start && current.end + 1 < next.start
    ensures forall j :: 0 <= j < |AddUnique(result, current)| ==>
      AddUnique(result, current)[j].start <= next.start && AddUnique(result, current)[j].end + 1 < next.start
  {
    var added := AddUnique(result, current);
    forall j | 0 <= j < |added|
      ensures added[j].start <= next.start && added[j].end + 1 < next.start
    {
      if j < |result| {
        assert added[j] == result[j];
      }
    }
  }


  /** Two orderings of the same ranges have the same members. */
  lemma SameMembers(a: seq<Range>, b: seq<Range>)
    requires multiset(a) == multiset(b)
    ensures forall r :: r in a <==> r in b
    ensures Proper(a) ==> Proper(b)
  {
    assert forall r :: r in a <==> r in multiset(a);
    assert forall r :: r in b <==> r in multiset(b);
    if Proper(a) {
      forall i | 0 <= i < |b|
        ensures b[i].start <= b[i].end
      {
        assert b[i] in multiset(a);
        var j :| 0 <= j < |a| && a[j] == b[i];
      }
    }
  }

  lemma HeadTail(s: seq<Range>)
    requires s != []
    ensures forall r :: r in s <==> r == s[0] || r in s[1..]
    ensures Proper(s) ==> Proper(s[1..])
    ensures SortedByStart(s) ==> SortedByStart(s[1..]) && forall k :: 0 <= k < |s[1..]| ==> s[0].start <= s[1..][k].start
  {
    assert s == [s[0]] + s[1..];
    assert forall k :: 0 <= k < |s[1..]| ==> s[1..][k] == s[k + 1];
  }

  /** What `combineRanges` promises: ascending, separated ranges that
      cover exactly the columns its input covers; non-empty ranges stay
      non-empty. */
  lemma CombinedSpec(ranges: seq<Range>)
    ensures Separated(Combined(ranges)) || |ranges| <= 1
    ensures forall x :: CoveredBy(Combined(ranges), x) <==> CoveredBy(ranges, x)
    ensures Proper(ranges) ==> Proper(Combined(ranges))
  {
    if |ranges| > 1 {
      var sorted := SortByStart(ranges);
      SortByStartSorted(ranges);
      SameMembers(ranges, sorted);
      HeadTail(sorted);
      MergeSortedSpec(sorted[1..], sorted[0], []);
    }
  }

  /** A single range, or none, is separated. */
  lemma ShortSeparated(ranges: seq<Range>)
    requires |ranges| <= 1
    ensures Separated(ranges)
  {
  }

  /** `combineRanges`. */
  method CombineRanges(ranges: seq<Range>) returns (result: seq<Range>)
    ensures result == Combined(ranges)
    ensures Separated(result)
    ensures forall x :: CoveredBy(result, x) <==> CoveredBy(ranges, x)
    ensures |ranges| <= 1 ==> result == ranges
  {
    CombinedSpec(ranges);
    if |ranges| <= 1 {
      ShortSeparated(ranges);
      return ranges;
    }
    var sortedRanges := SortByStart(ranges);
    var currentStart := sortedRanges[0].start;
    var currentEnd := sortedRanges[0].end;
    result := [];
    for i := 1 to |sortedRanges|
      invariant MergeSorted(sortedRanges[i..], Range(currentStart, currentEnd), result) == Combined(ranges)
    {
      var range := sortedRanges[i];
      assert sortedRanges[i..][1..] == sortedRanges[i + 1..];
      if range.start <= currentEnd + 1 {
        if range.end > currentEnd {
          currentEnd := range.end;
        }
      } else {
        result := AddUnique(result, Range(currentStart, currentEnd));
        currentStart := range.start;
        currentEnd := range.end;
      }
    }
    result := AddUnique(result, Range(currentStart, currentEnd));
  }

  // ---------------------------------------------------------------------
  // Coverage of a row

  /** The range one sensor sees on row `y`: `None` when the row is
      beyond its radius, clamped to `0..maxPos` when that is given (the
      clamp can leave `start > end`). */
  function RowCoverage(sensor: Sensor, y: int, maxPos: Option<int>): Option<Range> {
    var distance := ManhattanDistance(sensor.position, sensor.closestBeacon);
    var sx := sensor.position.x;
    var sy := sensor.position.y;
    if (y >= sy - distance && y <= sy) || (y >= sy && y <= sy + distance) then
      var difference := Abs(sy - y);
      match maxPos
      case Some(m) => Some(Range(Max(sx - distance + difference, 0), Min(sx + distance - difference, m)))
      case None => Some(Range(sx - distance + difference, sx + distance - difference))
    else
      None
  }

  /** A sensor covers row `y` exactly when the row is within its radius,
      and then its range holds exactly the columns it reaches (within
      `0..maxPos` when that is given). */
  lemma RowCoverageMeaning(sensor: Sensor, y: int, maxPos: Option<int>)
    ensures RowCoverage(sensor, y, maxPos).Some? <==> Abs(sensor.position.y - y) <= Radius(sensor)
    ensures RowCoverage(sensor, y, maxPos).Some? ==>
      forall x :: Covers(RowCoverage(sensor, y, maxPos).value, x) <==> Reaches(sensor, Point(x, y)) && InColumns(x, maxPos)
  {
  }

  /** The ranges of `getCoverageRanges` before they are combined. */
  function Coverage(y: int, sensors: seq<Sensor>, maxPos: Option<int>): seq<Range> {
    if sensors == [] then []
    else
      var rest := Coverage(y, sensors[..|sensors| - 1], maxPos);
      match RowCoverage(sensors[|sensors| - 1], y, maxPos)
      case None => rest
      case Some(r) => AddUnique(rest, r)
  }

  lemma {:induction false} CoverageMeaning(y: int, sensors: seq<Sensor>, maxPos: Option<int>, x: int)
    ensures CoveredBy(Coverage(y, sensors, maxPos), x) <==> Seen(sensors, Point(x, y)) && InColumns(x, maxPos)
    ensures maxPos.None? ==> Proper(Coverage(y, sensors, maxPos))
  {
    if sensors != [] {
      var init := sensors[..|sensors| - 1];
      var last := sensors[|sensors| - 1];
      CoverageMeaning(y, init, maxPos, x);
      RowCoverageMeaning(last, y, maxPos);
      assert forall i :: 0 <= i < |init| ==> init[i] == sensors[i];
      if Seen(sensors, Point(x, y)) && !Seen(init, Point(x, y)) {
        var i :| 0 <= i < |sensors| && Reaches(sensors[i], Point(x, y));
        assert i == |sensors| - 1;
      }
      if maxPos.None? {
        var rest := Coverage(y, init, maxPos);
        match RowCoverage(last, y, maxPos)
        case None =>
        case Some(r) =>
          var out := AddUnique(rest, r);
          forall i | 0 <= i < |out|
            ensures out[i].start <= out[i].end
          {
            if i < |rest| {
              assert out[i] == rest[i];
            }
          }
      }
    }
  }

  /** `getCoverageRanges`: the merged ranges of the columns of row `y`
      that some sensor sees. */
  method GetCoverageRanges(y: int, sensors: seq<Sensor>, maxPos: Option<int>) returns (merged: seq<Range>)
    ensures merged == Combined(Coverage(y, sensors, maxPos))
    ensures Separated(merged)
    ensures forall x :: CoveredBy(merged, x) <==> Seen(sensors, Point(x, y)) && InColumns(x, maxPos)
  {
    var ranges := [];
    for k := 0 to |sensors|
      invariant ranges == Coverage(y, sensors[..k], maxPos)
    {
      assert sensors[..k + 1][..k] == sensors[..k];
      var sensor := sensors[k];
      var distance := ManhattanDistance(sensor.position, sensor.closestBeacon);
      if (y >= sensor.position.y - distance && y <= sensor.position.y) ||
         (y >= sensor.position.y && y <= sensor.position.y + distance) {
        var difference := Abs(sensor.position.y - y);
        var range := match maxPos
          case Some(m) => Range(Max(sensor.position.x - distance + difference, 0), Min(sensor.position.x + distance - difference, m))
          case None => Range(sensor.position.x - distance + difference, sensor.position.x + distance - difference);
        ranges := AddUnique(ranges, range);
      }
    }
    assert sensors[..|sensors|] == sensors;
    merged := CombineRanges(ranges);
    forall x
      ensures CoveredBy(merged, x) <==> Seen(sensors, Point(x, y)) && InColumns(x, maxPos)
    {
      CoverageMeaning(y, sensors, maxPos, x);
    }
  }

  // ---------------------------------------------------------------------
  // Part one

  /** `sensors.flatMap { listOf(position, closestBeacon) }.filter { y }`. */
  function Devices(sensors: seq<Sensor>, y: int): (points: seq<Point>)
    ensures forall p :: p in points <==> p.y == y && exists i :: 0 <= i < |sensors| && (p == sensors[i].position || p == sensors[i].closestBeacon)
  {
    if sensors == [] then []
    else
      var s := sensors[0];
      var here := (if s.position.y == y then [s.position] else []) + (if s.closestBeacon.y == y then [s.closestBeacon] else []);
      assert forall i :: 1 <= i < |sensors| ==> sensors[i] == sensors[1..][i - 1];
      here + Devices(sensors[1..], y)
  }

  /** `sumOf { it.end - it.start + 1 }`. */
  function TotalLength(ranges: seq<Range>): int {
    if ranges == [] then 0 else ranges[0].end - ranges[0].start + 1 + TotalLength(ranges[1..])
  }

  predicate HoldsDevice(r: Range, points: seq<Point>) {
    exists p :: p in points && Covers(r, p.x)
  }

  /** `count { range -> points.any { it in range } }`. */
  function RangesWithDevice(ranges: seq<Range>, points: seq<Point>): nat {
    if ranges == [] then 0
    else (if HoldsDevice(ranges[0], points) then 1 else 0) + RangesWithDevice(ranges[1..], points)
  }

  /** The columns `a..b`. */
  function Interval(a: int, b: int): (cols: set<int>)
    ensures forall x :: x in cols <==> a <= x <= b
    decreases b - a
  {
    if b < a then {} else Interval(a, b - 1) + {b}
  }

  /** The columns a list of ranges covers. */
  function CoveredColumns(ranges: seq<Range>): set<int> {
    if ranges == [] then {} else Interval(ranges[0].start, ranges[0].end) + CoveredColumns(ranges[1..])
  }

  /** The columns of row `y` that one sensor sees. */
  function SensorColumns(sensor: Sensor, y: int): set<int> {
    set x | sensor.position.x - Radius(sensor) <= x <= sensor.position.x + Radius(sensor) && Reaches(sensor, Point(x, y))
  }

  /** The columns of row `y` that some sensor sees. */
  function RowSeen(sensors: seq<Sensor>, y: int): set<int> {
    if sensors == [] then {} else SensorColumns(sensors[0], y) + RowSeen(sensors[1..], y)
  }

  lemma {:induction false} RowSeenMeaning(sensors: seq<Sensor>, y: int, x: int)
    ensures x in RowSeen(sensors, y) <==> Seen(sensors, Point(x, y))
  {
    if sensors != [] {
      RowSeenMeaning(sensors[1..], y, x);
      assert forall i :: 1 <= i < |sensors| ==> sensors[1..][i - 1] == sensors[i];
      var s := sensors[0];
      assert ManhattanDistance(s.position, Point(x, y)) >= Abs(s.position.x - x);
      if Seen(sensors, Point(x, y)) && !Reaches(s, Point(x, y)) {
        var i :| 0 <= i < |sensors| && Reaches(sensors[i], Point(x, y));
        assert Seen(sensors[1..], Point(x, y));
      }
    }
  }

  lemma {:induction false} IntervalSize(a: int, b: int)
    requires a <= b + 1
    ensures |Interval(a, b)| == b - a + 1
    decreases b - a
  {
    if a <= b {
      IntervalSize(a, b - 1);
    }
  }

  /** The length of separated, non-empty ranges is the number of columns
      they cover. */
  lemma {:induction false} TotalLengthCounts(ranges: seq<Range>)
    requires Separated(ranges) && Proper(ranges)
    ensures TotalLength(ranges) == |CoveredColumns(ranges)|
  {
    if ranges != [] {
      var r := ranges[0];
      var rest := ranges[1..];
      SeparatedTail(ranges);
      TotalLengthCounts(rest);
      HeadDisjoint(ranges);
      IntervalSize(r.start, r.end);
    }
  }

  lemma SeparatedTail(ranges: seq<Range>)
    requires Separated(ranges) && Proper(ranges) && ranges != []
    ensures Separated(ranges[1..]) && Proper(ranges[1..])
  {
    assert forall i :: 0 <= i < |ranges[1..]| ==> ranges[1..][i] == ranges[i + 1];
  }

  /** The first range of a separated list shares no column with the rest. */
  lemma HeadDisjoint(ranges: seq<Range>)
    requires Separated(ranges) && ranges != []
    ensures Interval(ranges[0].start, ranges[0].end) !! CoveredColumns(ranges[1..])
  {
    var rest := ranges[1..];
    forall x | x in CoveredColumns(rest)
      ensures x !in Interval(ranges[0].start, ranges[0].end)
    {
      CoveredColumnsMeaning(rest, x);
      var q :| q in rest && Covers(q, x);
      var i :| 0 <= i < |rest| && rest[i] == q;
      assert ranges[i + 1] == q;
    }
  }


  lemma {:induction false} CoveredColumnsMeaning(ranges: seq<Range>, x: int)
    ensures x in CoveredColumns(ranges) <==> CoveredBy(ranges, x)
  {
    if ranges != [] {
      CoveredColumnsMeaning(ranges[1..], x);
      assert ranges[0] in ranges;
      if CoveredBy(ranges, x) && !Covers(ranges[0], x) {
        var r :| r in ranges && Covers(r, x);
        var i :| 0 <= i < |ranges| && ranges[i] == r;
        assert ranges[1..][i - 1] == r;
      }
      if CoveredBy(ranges[1..], x) {
        var r :| r in ranges[1..] && Covers(r, x);
        var i :| 0 <= i < |ranges[1..]| && ranges[1..][i] == r;
        assert ranges[i + 1] == r;
      }
    }
  }

  /** `part1`: the merged length of the row minus the number of merged
      ranges that hold a sensor or beacon of that row. */
  method Part1(sensors: seq<Sensor>, y: int) returns (count: int)
    ensures count == |RowSeen(sensors, y)| - RangesWithDevice(Combined(Coverage(y, sensors, None)), Devices(sensors, y))
  {
    var combinedRanges := GetCoverageRanges(y, sensors, None);
    var sensorsAndBeaconsInY := Devices(sensors, y);
    var sumRangesSize := TotalLength(combinedRanges);
    var numSensorsAndBeaconsInRanges := RangesWithDevice(combinedRanges, sensorsAndBeaconsInY);
    count := sumRangesSize - numSensorsAndBeaconsInRanges;
    SeenColumns(sensors, y, combinedRanges);
  }

  /** The merged ranges of part one cover exactly the seen columns, and
      their total length counts them. */
  lemma SeenColumns(sensors: seq<Sensor>, y: int, merged: seq<Range>)
    requires merged == Combined(Coverage(y, sensors, None))
    ensures TotalLength(merged) == |RowSeen(sensors, y)|
  {
    var ranges := Coverage(y, sensors, None);
    CoverageMeaning(y, sensors, None, 0);
    CombinedSpec(ranges);
    if |ranges| <= 1 {
      ShortSeparated(ranges);
    }
    TotalLengthCounts(merged);
    forall x
      ensures x in CoveredColumns(merged) <==> x in RowSeen(sensors, y)
    {
      CoveredColumnsMeaning(merged, x);
      CoverageMeaning(y, sensors, None, x);
      RowSeenMeaning(sensors, y, x);
    }
    assert CoveredColumns(merged) == RowSeen(sensors, y);
  }

  /** The columns of row `y` that hold a sensor or a beacon. */
  function DeviceColumns(sensors: seq<Sensor>, y: int): set<int> {
    set p | p in Devices(sensors, y) :: p.x
  }

  /** Every sensor and every beacon on row `y` is seen: a sensor is at
      distance 0 from itself, a beacon at exactly its sensor's radius. */
  lemma DevicesSeen(sensors: seq<Sensor>, y: int)
    ensures DeviceColumns(sensors, y) <= RowSeen(sensors, y)
  {
    forall x | x in DeviceColumns(sensors, y)
      ensures x in RowSeen(sensors, y)
    {
      var p :| p in Devices(sensors, y) && p.x == x;
      var i :| 0 <= i < |sensors| && (p == sensors[i].position || p == sensors[i].closestBeacon);
      assert Reaches(sensors[i], p);
      assert Point(x, y) == p;
      RowSeenMeaning(sensors, y, x);
    }
  }

  lemma SubsetCardinality(whole: set<int>, part: set<int>)
    requires part <= whole
    ensures |whole - part| == |whole| - |part|
  {
    assert whole == (whole - part) + part;
  }

  /** What `part1` evidently intends: the seen columns of row `y` that
      hold neither a sensor nor a beacon, each column of a sensor or
      beacon subtracted once. */
  method Part1Fixed(sensors: seq<Sensor>, y: int) returns (count: int)
    ensures count == |RowSeen(sensors, y) - DeviceColumns(sensors, y)|
  {
    var combinedRanges := GetCoverageRanges(y, sensors, None);
    SeenColumns(sensors, y, combinedRanges);
    DevicesSeen(sensors, y);
    SubsetCardinality(RowSeen(sensors, y), DeviceColumns(sensors, y));
    count := TotalLength(combinedRanges) - |DeviceColumns(sensors, y)|;
  }

  // ---------------------------------------------------------------------
  // Part two

  /** `windowed(2).first { it[1].start > it[0].end + 1 }`: the first
      adjacent pair with a gap between them. */
  function FirstGap(ranges: seq<Range>): (k: Option<nat>)
    ensures k.Some? ==> k.value + 1 < |ranges| && ranges[k.value + 1].start > ranges[k.value].end + 1
    ensures k.None? ==> forall j :: 0 <= j < |ranges| - 1 ==> ranges[j + 1].start <= ranges[j].end + 1
  {
    if |ranges| < 2 then None
    else if ranges[1].start > ranges[0].end + 1 then Some(0)
    else
      match FirstGap(ranges[1..])
      case Some(k) => Some(k + 1)
      case None =>
        assert forall j :: 1 <= j < |ranges| - 1 ==> ranges[j] == ranges[1..][j - 1] && ranges[j + 1] == ranges[1..][j];
        None
  }

  /** In a separated list the first pair already has a gap. */
  lemma SeparatedGap(ranges: seq<Range>)
    requires Separated(ranges) && |ranges| > 1
    ensures FirstGap(ranges) == Some(0)
  {
  }

  /** One row of `part2`: when the clamped coverage of row `y` splits
      into more than one range, the column after the end of the first
      range followed by a gap. */
  function RowSplit(sensors: seq<Sensor>, maxPos: int, y: int): Option<Point> {
    var combined := Combined(Coverage(y, sensors, Some(maxPos)));
    if |combined| > 1 then
      CombinedSpec(Coverage(y, sensors, Some(maxPos)));
      SeparatedGap(combined);
      Some(Point(combined[FirstGap(combined).value].end + 1, y))
    else
      None
  }

  /** The row search of `part2`, from row `y` on: the split of the first
      row that has one. */
  function SplitSearch(sensors: seq<Sensor>, maxPos: int, y: int): Option<Point>
    decreases maxPos + 1 - y
  {
    if y > maxPos then None
    else
      match RowSplit(sensors, maxPos, y)
      case Some(p) => Some(p)
      case None => SplitSearch(sensors, maxPos, y + 1)
  }

  /** `rangeX * TUNING_FACTOR_X + y`, or -1 when nothing was found. */
  function Frequency(found: Option<Point>): int {
    match found
    case None => -1
    case Some(p) => p.x * TuningFactor + p.y
  }

  /** `part2`. */
  method Part2(sensors: seq<Sensor>, maxPos: int) returns (result: int)
    ensures result == Frequency(SplitSearch(sensors, maxPos, 0))
  {
    var y := 0;
    while y <= maxPos
      invariant SplitSearch(sensors, maxPos, y) == SplitSearch(sensors, maxPos, 0)
      decreases maxPos + 1 - y
    {
      var combinedRanges := GetCoverageRanges(y, sensors, Some(maxPos));
      if |combinedRanges| > 1 {
        SeparatedGap(combinedRanges);
        var rangeX := combinedRanges[FirstGap(combinedRanges).value].end + 1;
        return rangeX * TuningFactor + y;
      }
      y := y + 1;
    }
    return -1;
  }

  /** The column after the first range of a separated list is covered
      by none of its ranges. */
  lemma AfterFirstUncovered(ranges: seq<Range>)
    requires Separated(ranges) && ranges != []
    ensures !CoveredBy(ranges, ranges[0].end + 1)
  {
    forall r | r in ranges
      ensures !Covers(r, ranges[0].end + 1)
    {
      var i :| 0 <= i < |ranges| && ranges[i] == r;
    }
  }

  /** The combined coverage of a split row is separated, and the column
      after its first range is covered by none of the row's ranges. */
  lemma SplitColumnUncovered(ranges: seq<Range>)
    requires |Combined(ranges)| > 1
    ensures Separated(Combined(ranges))
    ensures !CoveredBy(ranges, Combined(ranges)[0].end + 1)
  {
    CombinedSpec(ranges);
    AfterFirstUncovered(Combined(ranges));
  }

  /** A row whose coverage splits ends the search with an uncovered
      column. */
  lemma SplitRow(sensors: seq<Sensor>, maxPos: int, y: int)
    requires y <= maxPos && |Combined(Coverage(y, sensors, Some(maxPos)))| > 1
    ensures SplitSearch(sensors, maxPos, y).Some?
    ensures var p := SplitSearch(sensors, maxPos, y).value;
      p.y == y && !(Seen(sensors, p) && InColumns(p.x, Some(maxPos)))
  {
    var ranges := Coverage(y, sensors, Some(maxPos));
    SplitColumnUncovered(ranges);
    SplitSearchHere(sensors, maxPos, y);
    UncoveredUnseen(y, sensors, maxPos, Combined(ranges)[0].end + 1);
  }

  /** On a row whose coverage splits the search stops after the first
      range of that row. */
  lemma SplitSearchHere(sensors: seq<Sensor>, maxPos: int, y: int)
    requires y <= maxPos && |Combined(Coverage(y, sensors, Some(maxPos)))| > 1
    ensures SplitSearch(sensors, maxPos, y) == Some(Point(Combined(Coverage(y, sensors, Some(maxPos)))[0].end + 1, y))
  {
    var combined := Combined(Coverage(y, sensors, Some(maxPos)));
    CombinedSpec(Coverage(y, sensors, Some(maxPos)));
    SeparatedGap(combined);
  }

  /** A column of row `y` that no range covers is unseen or outside the
      square. */
  lemma UncoveredUnseen(y: int, sensors: seq<Sensor>, maxPos: int, x: int)
    requires !CoveredBy(Coverage(y, sensors, Some(maxPos)), x)
    ensures !(Seen(sensors, Point(x, y)) && InColumns(x, Some(maxPos)))
  {
    CoverageMeaning(y, sensors, Some(maxPos), x);
  }

  /** What the row search finds: on the first row whose coverage splits,
      a column that no range of that row covers, so either no sensor sees
      it or it lies outside `0..maxPos`. */
  lemma {:induction false} SplitSearchMeaning(sensors: seq<Sensor>, maxPos: int, y: int)
    ensures SplitSearch(sensors, maxPos, y).None? ==>
      forall row :: y <= row <= maxPos ==> |Combined(Coverage(row, sensors, Some(maxPos)))| <= 1
    ensures SplitSearch(sensors, maxPos, y).Some? ==>
      var p := SplitSearch(sensors, maxPos, y).value;
      && y <= p.y <= maxPos
      && |Combined(Coverage(p.y, sensors, Some(maxPos)))| > 1
      && !(Seen(sensors, p) && InColumns(p.x, Some(maxPos)))
    decreases maxPos + 1 - y
  {
    if y <= maxPos {
      var ranges := Coverage(y, sensors, Some(maxPos));
      var combined := Combined(ranges);
      if |combined| > 1 {
        SplitRow(sensors, maxPos, y);
      } else {
        assert SplitSearch(sensors, maxPos, y) == SplitSearch(sensors, maxPos, y + 1);
        SplitSearchMeaning(sensors, maxPos, y + 1);
        if SplitSearch(sensors, maxPos, y).None? {
          forall row | y <= row <= maxPos
            ensures |Combined(Coverage(row, sensors, Some(maxPos)))| <= 1
          {
            if row == y {
              assert |combined| <= 1;
            }
          }
        }
      }
    }
  }

  // ---------------------------------------------------------------------
  // Part two, as evidently intended

  predicate InSquare(p: Point, maxPos: int) {
    0 <= p.x <= maxPos && 0 <= p.y <= maxPos
  }

  /** Row-major order: `q` is searched before `p`. */
  predicate Before(q: Point, p: Point) {
    q.y < p.y || (q.y == p.y && q.x < p.x)
  }

  /** The ranges that cover at least one column, in order. */
  function ProperOnly(ranges: seq<Range>): (out: seq<Range>)
    ensures forall r :: r in out <==> r in ranges && r.start <= r.end
  {
    if ranges == [] then []
    else
      assert forall r :: r in ranges <==> r == ranges[0] || r in ranges[1..] by {
        assert ranges == [ranges[0]] + ranges[1..];
      }
      (if ranges[0].start <= ranges[0].end then [ranges[0]] else []) + ProperOnly(ranges[1..])
  }

  lemma SeparatedCons(head: Range, rest: seq<Range>)
    requires Separated(rest)
    requires forall r :: r in rest ==> head.start <= r.start && head.end + 1 < r.start
    ensures Separated([head] + rest)
  {
    var out := [head] + rest;
    forall j, k | 0 <= j < k < |out|
      ensures out[j].start <= out[k].start && out[j].end + 1 < out[k].start
    {
      assert out[k] == rest[k - 1];
      assert out[k] in rest;
      if j > 0 {
        assert out[j] == rest[j - 1];
      }
    }
  }

  /** Dropping the empty ranges keeps a list separated. */
  lemma {:induction false} ProperOnlySeparated(ranges: seq<Range>)
    requires Separated(ranges)
    ensures Separated(ProperOnly(ranges)) && Proper(ProperOnly(ranges))
  {
    if ranges != [] {
      var head := ranges[0];
      var tail := ranges[1..];
      assert Separated(tail) by {
        assert forall i :: 0 <= i < |tail| ==> tail[i] == ranges[i + 1];
      }
      ProperOnlySeparated(tail);
      var rest := ProperOnly(tail);
      if head.start <= head.end {
        forall r | r in rest
          ensures head.start <= r.start && head.end + 1 < r.start
        {
          var i :| 0 <= i < |tail| && tail[i] == r;
          assert ranges[i + 1] == r;
        }
        SeparatedCons(head, rest);
        assert ProperOnly(ranges) == [head] + rest;
      } else {
        assert ProperOnly(ranges) == rest;
      }
    }
  }

  /** The first column from 0 on that the ranges leave uncovered, when
      they are separated, non-empty and start at 0 or later. */
  function FirstUncovered(ranges: seq<Range>): int {
    if ranges == [] || ranges[0].start > 0 then 0 else ranges[0].end + 1
  }

  lemma FirstUncoveredMeaning(ranges: seq<Range>)
    requires Separated(ranges) && Proper(ranges)
    requires forall r :: r in ranges ==> r.start >= 0
    ensures var x := FirstUncovered(ranges);
      x >= 0 && !CoveredBy(ranges, x) && forall c :: 0 <= c < x ==> CoveredBy(ranges, c)
  {
    if ranges == [] || ranges[0].start > 0 {
      forall r | r in ranges
        ensures !Covers(r, 0)
      {
        var i :| 0 <= i < |ranges| && ranges[i] == r;
      }
    } else {
      AfterFirstUncovered(ranges);
      assert ranges[0] in ranges;
    }
  }

  /** One row of the intended search: the first uncovered column of the
      row's non-empty merged ranges is the first column no sensor sees. */
  lemma RowSearch(sensors: seq<Sensor>, maxPos: int, y: int, merged: seq<Range>)
    requires Separated(merged)
    requires forall x :: CoveredBy(merged, x) <==> Seen(sensors, Point(x, y)) && InColumns(x, Some(maxPos))
    ensures var x := FirstUncovered(ProperOnly(merged));
      && x >= 0
      && (x <= maxPos ==> !Seen(sensors, Point(x, y)))
      && (forall c :: 0 <= c < x && c <= maxPos ==> Seen(sensors, Point(c, y)))
  {
    var proper := ProperOnly(merged);
    ProperOnlySeparated(merged);
    forall r | r in proper
      ensures r.start >= 0
    {
      assert Covers(r, r.start);
      assert CoveredBy(merged, r.start);
    }
    forall x
      ensures CoveredBy(proper, x) <==> CoveredBy(merged, x)
    {
      if CoveredBy(merged, x) {
        var r :| r in merged && Covers(r, x);
        assert r in proper;
      }
    }
    FirstUncoveredMeaning(proper);
  }

  /** One row of the intended search: the first column from 0 on that no
      sensor sees in row `y`, or a column past `maxPos` when the sensors
      see the whole row of the square. */
  method SearchRow(sensors: seq<Sensor>, maxPos: int, y: int) returns (x: int)
    ensures x >= 0
    ensures x <= maxPos ==> !Seen(sensors, Point(x, y))
    ensures forall c :: 0 <= c < x && c <= maxPos ==> Seen(sensors, Point(c, y))
  {
    var combinedRanges := GetCoverageRanges(y, sensors, Some(maxPos));
    RowSearch(sensors, maxPos, y, combinedRanges);
    x := FirstUncovered(ProperOnly(combinedRanges));
  }

  /** The search `part2` evidently intends: the first position of the
      square, row by row, that no sensor sees, or none if the sensors
      see the whole square. */
  method Part2Fixed(sensors: seq<Sensor>, maxPos: int) returns (found: Option<Point>)
    ensures found.None? ==> forall p :: InSquare(p, maxPos) ==> Seen(sensors, p)
    ensures found.Some? ==> InSquare(found.value, maxPos) && !Seen(sensors, found.value)
    ensures found.Some? ==> forall q :: InSquare(q, maxPos) && Before(q, found.value) ==> Seen(sensors, q)
  {
    var y := 0;
    while y <= maxPos
      invariant forall q :: InSquare(q, maxPos) && q.y < y ==> Seen(sensors, q)
      decreases maxPos + 1 - y
    {
      var x := SearchRow(sensors, maxPos, y);
      if x <= maxPos {
        forall q | InSquare(q, maxPos) && Before(q, Point(x, y))
          ensures Seen(sensors, q)
        {
          if q.y == y {
            assert Point(q.x, y) == q;
          }
        }
        return Some(Point(x, y));
      }
      forall q | InSquare(q, maxPos) && q.y < y + 1
        ensures Seen(sensors, q)
      {
        if q.y == y {
          assert Point(q.x, y) == q;
        }
      }
      y := y + 1;
    }
    return None;
  }

  // ---------------------------------------------------------------------
  // Part two as written reports a position outside the square

  /** Two sensors around a 2x2 square (`maxPos` = 1): the first sees only
      columns left of the square, the second sees the whole square. */
  const OutsideExample := [Sensor(Point(-10, 0), Point(-10, 1)), Sensor(Point(0, 0), Point(0, 5))]

  lemma InsertBehind(sorted: seq<Range>, r: Range)
    requires sorted == [] || sorted[|sorted| - 1].start <= r.start
    ensures Insert(sorted, r) == sorted + [r]
  {
  }

  /** `sortedBy` leaves a list sorted by start as it is. */
  lemma {:induction false} SortSorted(ranges: seq<Range>)
    requires SortedByStart(ranges)
    ensures SortByStart(ranges) == ranges
  {
    if ranges != [] {
      var init := ranges[..|ranges| - 1];
      var last := ranges[|ranges| - 1];
      assert SortedByStart(init);
      SortSorted(init);
      SplitLast(ranges);
      InsertBehind(init, last);
    }
  }

  /** Two sensors that both see row `y`, with different ranges: the row's
      ranges in sensor order. */
  lemma CoverageOfTwo(y: int, a: Sensor, b: Sensor, maxPos: Option<int>, ra: Range, rb: Range)
    requires RowCoverage(a, y, maxPos) == Some(ra) && RowCoverage(b, y, maxPos) == Some(rb) && ra != rb
    ensures Coverage(y, [a, b], maxPos) == [ra, rb]
  {
    assert [a, b][..1] == [a] && [a][..0] == [];
    assert Coverage(y, [a], maxPos) == [ra];
  }

  /** The example row: the first sensor's clamped range is empty. */
  lemma OutsideRow()
    ensures Coverage(0, OutsideExample, Some(1)) == [Range(0, -9), Range(0, 1)]
  {
    OutsideRowCoverage(OutsideExample[0], OutsideExample[1]);
    CoverageOfTwo(0, OutsideExample[0], OutsideExample[1], Some(1), Range(0, -9), Range(0, 1));
  }

  lemma OutsideRowCoverage(left: Sensor, centre: Sensor)
    requires left == Sensor(Point(-10, 0), Point(-10, 1)) && centre == Sensor(Point(0, 0), Point(0, 5))
    ensures RowCoverage(left, 0, Some(1)) == Some(Range(0, -9))
    ensures RowCoverage(centre, 0, Some(1)) == Some(Range(0, 1))
  {
    assert Radius(left) == 1 && Radius(centre) == 5;
  }


  /** The two ranges of the example row combine to themselves, the empty
      one first, and the gap between them is the first. */
  lemma OutsideRowCombined(ranges: seq<Range>)
    requires ranges == [Range(0, -9), Range(0, 1)]
    ensures Combined(ranges) == ranges
    ensures FirstGap(ranges) == Some(0)
  {
    assert SortedByStart(ranges);
    SortSorted(ranges);
    assert ranges[1..] == [Range(0, 1)];
    assert [Range(0, 1)][1..] == [];
    assert MergeSorted([Range(0, 1)], Range(0, -9), []) == MergeSorted([], Range(0, 1), [Range(0, -9)]);
    assert MergeSorted([], Range(0, 1), [Range(0, -9)]) == ranges;
  }

  /** The second sensor of the example sees the whole 2x2 square. */
  lemma OutsideSquareSeen()
    ensures forall p :: InSquare(p, 1) ==> Seen(OutsideExample, p)
  {
    forall p | InSquare(p, 1)
      ensures Seen(OutsideExample, p)
    {
      assert Reaches(OutsideExample[1], p);
    }
  }

  /** The clamp turns the first sensor's row into the empty range
      `0..-9`, which sorts first and splits the row, so `part2` reports
      column -8 although every position of the square is seen. */
  lemma Part2ReportsOutside()
    ensures SplitSearch(OutsideExample, 1, 0) == Some(Point(-8, 0))
    ensures Frequency(SplitSearch(OutsideExample, 1, 0)) == -32000000
    ensures forall p :: InSquare(p, 1) ==> Seen(OutsideExample, p)
  {
    OutsideRow();
    OutsideRowCombined([Range(0, -9), Range(0, 1)]);
    OutsideSquareSeen();
  }

  // ---------------------------------------------------------------------
  // Part one as written counts ranges, not sensors and beacons

  /** Two sensors whose rows merge into one range of row 0 holding both
      beacons: (0, 1) with its beacon at (2, 0), (4, 1) with its beacon
      at (5, 0). */
  const MergedExample := [Sensor(Point(0, 1), Point(2, 0)), Sensor(Point(4, 1), Point(5, 0))]

  /** Row 0 of the example: the two rows of sight `-2..2` and `3..5`. */
  lemma MergedRow()
    ensures Coverage(0, MergedExample, None) == [Range(-2, 2), Range(3, 5)]
  {
    MergedRowCoverage(MergedExample[0], MergedExample[1]);
    CoverageOfTwo(0, MergedExample[0], MergedExample[1], None, Range(-2, 2), Range(3, 5));
  }

  lemma MergedRowCoverage(left: Sensor, right: Sensor)
    requires left == Sensor(Point(0, 1), Point(2, 0)) && right == Sensor(Point(4, 1), Point(5, 0))
    ensures RowCoverage(left, 0, None) == Some(Range(-2, 2))
    ensures RowCoverage(right, 0, None) == Some(Range(3, 5))
  {
    assert Radius(left) == 3 && Radius(right) == 2;
  }


  /** The two touching ranges merge into `-2..5`. */
  lemma MergedRowCombined(ranges: seq<Range>)
    requires ranges == [Range(-2, 2), Range(3, 5)]
    ensures Combined(ranges) == [Range(-2, 5)]
  {
    assert SortedByStart(ranges);
    SortSorted(ranges);
    assert ranges[1..] == [Range(3, 5)];
    assert [Range(3, 5)][1..] == [];
    assert MergeSorted([Range(3, 5)], Range(-2, 2), []) == MergeSorted([], Range(-2, 5), []);
    assert MergeSorted([], Range(-2, 5), []) == [Range(-2, 5)];
  }

  /** The sensors and beacons of row 0 are the two beacons. */
  lemma MergedRowDevices()
    ensures Devices(MergedExample, 0) == [Point(2, 0), Point(5, 0)]
    ensures DeviceColumns(MergedExample, 0) == {2, 5}
  {
    var devices := Devices(MergedExample, 0);
    assert MergedExample[1..][1..] == [];
    assert Devices(MergedExample[1..], 0) == [Point(5, 0)];
    assert devices == [Point(2, 0), Point(5, 0)];
    assert forall p :: p in devices <==> p == Point(2, 0) || p == Point(5, 0);
  }

  /** Both beacons of row 0 lie in the one merged range, so `part1`
      subtracts one where two columns hold a beacon: its count is one
      more than the seen columns without a sensor or beacon. */
  lemma Part1CountsRanges(sensors: seq<Sensor>)
    requires sensors == MergedExample
    ensures RangesWithDevice(Combined(Coverage(0, sensors, None)), Devices(sensors, 0)) == 1
    ensures |DeviceColumns(sensors, 0)| == 2
    ensures |RowSeen(sensors, 0)| - RangesWithDevice(Combined(Coverage(0, sensors, None)), Devices(sensors, 0))
      == |RowSeen(sensors, 0) - DeviceColumns(sensors, 0)| + 1
  {
    MergedRowRanges();
    MergedRowDevices();
    DevicesSeen(sensors, 0);
    SubsetCardinality(RowSeen(sensors, 0), DeviceColumns(sensors, 0));
  }

  /** The one merged range of row 0 holds a beacon. */
  lemma MergedRowRanges()
    ensures RangesWithDevice(Combined(Coverage(0, MergedExample, None)), Devices(MergedExample, 0)) == 1
  {
    MergedRow();
    MergedRowCombined([Range(-2, 2), Range(3, 5)]);
    MergedRowDevices();
    MergedRangeHoldsBeacon([Range(-2, 5)], [Point(2, 0), Point(5, 0)]);
  }

  lemma MergedRangeHoldsBeacon(ranges: seq<Range>, devices: seq<Point>)
    requires ranges == [Range(-2, 5)] && devices == [Point(2, 0), Point(5, 0)]
    ensures RangesWithDevice(ranges, devices) == 1
  {
    assert HoldsDevice(ranges[0], devices) by {
      assert devices[0] in devices;
    }
    assert ranges[1..] == [];
  }
}
