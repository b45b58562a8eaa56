/** The run-length scan that 006-grid-cluster and 007-nested-organic use to turn
    a yes/no region predicate into grid lines.  Along one line the predicate is
    sampled at `x = 50, 58, ..., 746` (every `x <= 750` in steps of 8); a run of
    true samples becomes one segment from its first sample to its last one,
    except that a run still open after the last sample is closed at the fixed
    coordinate 750. */
module ScanLines {

  /** Coordinate of the first sample. */
  const First := 50
  /** Coordinate at which a trailing run is closed; the scan runs while `x <= Last`. */
  const Last := 750
  const GridSize := 8
  /** Samples per line: `50 + 8 * k <= 750` for `k` in 0 .. 87. */
  const SampleCount := 88
  /** Lines per direction: `50 + 8 * k < 750` for `k` in 0 .. 87. */
  const LineCount := 88

  /** Coordinate of the `k`-th sample (or line). */
  function Coord(k: int): (x: int)
  {
    First + GridSize * k
  }

  /** Index of the sample at coordinate `x` (rounded down between samples). */
  function SampleIndex(x: int): (k: int)
  {
    (x - First) / GridSize
  }

  datatype Segment = Segment(start: int, end: int)
  datatype Point = Point(x: int, y: int)
  datatype Line = Line(from: Point, to: Point)

  /** The predicate's values at the sample coordinates of one line. */
  function LineSamples(line: int -> bool): (s: seq<bool>)
    ensures |s| == SampleCount
    ensures forall k :: 0 <= k < SampleCount ==> s[k] == line(Coord(k))
  {
    seq(SampleCount, k => line(Coord(k)))
  }

  // ---------------------------------------------------------------------
  // Reference definition of the segments of a line
  // ---------------------------------------------------------------------

  /** The first index at or after `k` whose sample is false (or `|s|`). */
  function RunEnd(s: seq<bool>, k: nat): (e: nat)
    requires k <= |s|
    ensures k <= e <= |s|
    ensures forall m :: k <= m < e ==> s[m]
    ensures e < |s| ==> !s[e]
    decreases |s| - k
  {
    if k == |s| || !s[k] then k else RunEnd(s, k + 1)
  }

  /** The segments for the runs of true samples at index `k` or later: a run
      `[a, e)` becomes `[Coord(a), Coord(e) - GridSize]`, or `[Coord(a), Last]`
      when it reaches the end of the line. */
  function SegmentsFrom(s: seq<bool>, k: nat): (segs: seq<Segment>)
    decreases |s| - k
  {
    if k >= |s| then []
    else if !s[k] then SegmentsFrom(s, k + 1)
    else
      var e := RunEnd(s, k);
      [Segment(Coord(k), if e < |s| then Coord(e) - GridSize else Last)] + SegmentsFrom(s, e + 1)
  }

  function Segments(s: seq<bool>): (segs: seq<Segment>)
  {
    SegmentsFrom(s, 0)
  }

  /** Index `k` is not inside a run that began earlier. */
  predicate StartsFresh(s: seq<bool>, k: nat)
  {
    k == 0 || k > |s| || !s[k - 1]
  }

  /** `x` is the coordinate of a true sample whose predecessor, if any, is false. */
  predicate Opens(s: seq<bool>, x: int)
  {
    var a := SampleIndex(x);
    0 <= a < |s| && Coord(a) == x && s[a] && (a == 0 || !s[a - 1])
  }

  /** `x` is one grid step before a false sample that follows a true one. */
  predicate ClosesMidLine(s: seq<bool>, x: int)
  {
    var e := SampleIndex(x) + 1;
    0 < e < |s| && Coord(e) - GridSize == x && s[e - 1] && !s[e]
  }

  /** `x` is the fixed closing coordinate and the last sample is true. */
  predicate ClosesAtLineEnd(s: seq<bool>, x: int)
  {
    x == Last && 0 < |s| && s[|s| - 1]
  }

  predicate Covers(seg: Segment, x: int)
  {
    seg.start <= x <= seg.end
  }

  /** Number of false-to-true transitions at index `k` or later, a true first
      sample counting as one. */
  function RisingFrom(s: seq<bool>, k: nat): (count: nat)
    decreases |s| - k
  {
    if k >= |s| then 0
    else (if s[k] && (k == 0 || !s[k - 1]) then 1 else 0) + RisingFrom(s, k + 1)
  }

  // ---------------------------------------------------------------------
  // The scan as the sketches run it
  // ---------------------------------------------------------------------

  /** One pass of the inner scan loop: `inLine` and `lineStart` are updated
      sample by sample, a segment is emitted when a run ends, and a run still
      open at the end is closed at `Last`. */
  method ScanLine(line: int -> bool) returns (segs: seq<Segment>)
    ensures segs == Segments(LineSamples(line))
  {
    ghost var s := LineSamples(line);
    segs := [];
    var inLine := false;
    var lineStart := 0;
    ghost var a: nat := 0;
    ghost var k: nat := 0;
    var x := First;
    while x <= Last
      invariant k <= SampleCount && x == Coord(k)
      invariant Scanned(s, k, inLine, a, segs)
      invariant inLine ==> lineStart == Coord(a)
      decreases Last - x
    {
      var draw := line(x);
      assert draw == s[k];
      ScanStep(s, k, inLine, a, segs);
      if draw && !inLine {
        inLine := true;
        lineStart := x;
        a := k;
      } else if !draw && inLine {
        segs := segs + [Segment(lineStart, x - GridSize)];
        inLine := false;
      }
      x := x + GridSize;
      k := k + 1;
    }
    ScanDone(s, inLine, a, segs);
    if inLine {
      segs := segs + [Segment(lineStart, Last)];
    }
  }

  /** The scan has read the samples before `k` and emitted `segs`; when
      `inLine`, a run of true samples is open since the fresh index `a`. */
  ghost predicate Scanned(s: seq<bool>, k: nat, inLine: bool, a: nat, segs: seq<Segment>)
  {
    if inLine then
      a < k <= |s| && StartsFresh(s, a) && (forall m :: a <= m < k ==> s[m])
      && Segments(s) == segs + SegmentsFrom(s, a)
    else
      k <= |s| && StartsFresh(s, k) && Segments(s) == segs + SegmentsFrom(s, k)
  }

  /** Reading sample `k` opens a run at a rising edge, extends an open run,
      closes an open run at a false sample, or skips a false sample. */
  lemma ScanStep(s: seq<bool>, k: nat, inLine: bool, a: nat, segs: seq<Segment>)
    requires k < |s| && Scanned(s, k, inLine, a, segs)
    ensures s[k] && !inLine ==> Scanned(s, k + 1, true, k, segs)
    ensures s[k] && inLine ==> Scanned(s, k + 1, true, a, segs)
    ensures !s[k] && inLine ==> Scanned(s, k + 1, false, a, segs + [Segment(Coord(a), Coord(k) - GridSize)])
    ensures !s[k] && !inLine ==> Scanned(s, k + 1, false, a, segs)
  {
    if !s[k] && inLine {
      RunClosedAt(s, a, k);
      AppendSegment(segs, Segment(Coord(a), Coord(k) - GridSize), SegmentsFrom(s, k + 1));
    }
  }

  /** After the last sample, an open run is closed at `Last`. */
  lemma ScanDone(s: seq<bool>, inLine: bool, a: nat, segs: seq<Segment>)
    requires Scanned(s, |s|, inLine, a, segs)
    ensures inLine ==> Segments(s) == segs + [Segment(Coord(a), Last)]
    ensures !inLine ==> Segments(s) == segs
  {
    if inLine {
      RunClosedAt(s, a, |s|);
    }
  }

  lemma AppendSegment(segs: seq<Segment>, seg: Segment, rest: seq<Segment>)
    ensures segs + ([seg] + rest) == (segs + [seg]) + rest
  {
  }

  /** A run of true samples over `[a, k)` that starts fresh and ends at a
      false sample or at the end of the line is one segment, closed one step
      before `k` or at `Last`. */
  lemma RunClosedAt(s: seq<bool>, a: nat, k: nat)
    requires a < k <= |s|
    requires forall m :: a <= m < k ==> s[m]
    requires k == |s| || !s[k]
    ensures k < |s| ==> SegmentsFrom(s, a) == [Segment(Coord(a), Coord(k) - GridSize)] + SegmentsFrom(s, k + 1)
    ensures k == |s| ==> SegmentsFrom(s, a) == [Segment(Coord(a), Last)]
  {
    RunEndAt(s, a, k);
  }

  /** A run of true samples over `[a, k)` ending at a false sample or at the
      end of the line ends exactly at `k`. */
  lemma {:induction false} RunEndAt(s: seq<bool>, a: nat, k: nat)
    requires a <= k <= |s|
    requires forall m :: a <= m < k ==> s[m]
    requires k == |s| || !s[k]
    ensures RunEnd(s, a) == k
    decreases k - a
  {
    if a < k {
      RunEndAt(s, a + 1, k);
    }
  }

  // ---------------------------------------------------------------------
  // Properties of the segments of one line
  // ---------------------------------------------------------------------

  lemma SampleIndexOfCoord(k: int)
    ensures SampleIndex(Coord(k)) == k
    ensures SampleIndex(Coord(k) - GridSize) + 1 == k
  {
  }

  /** `seg` lies in the drawing area, opens at a rising edge, covers only
      true samples, and closes one step before a false sample or, when it is
      the `last` one, at `Last`. */
  predicate SegmentOfRun(s: seq<bool>, seg: Segment, last: bool)
  {
    && First <= seg.start <= seg.end <= Last
    && Opens(s, seg.start)
    && (forall m :: 0 <= m < |s| && Covers(seg, Coord(m)) ==> s[m])
    && (ClosesMidLine(s, seg.end) || (last && ClosesAtLineEnd(s, seg.end)))
  }

  /** The `i`-th segment from index `k` lies at or after `Coord(k)` and is the
      segment of a run. */
  lemma {:induction false} SegmentAt(s: seq<bool>, k: nat, i: nat)
    requires |s| == SampleCount && StartsFresh(s, k) && i < |SegmentsFrom(s, k)|
    ensures var R := SegmentsFrom(s, k);
      Coord(k) <= R[i].start && SegmentOfRun(s, R[i], i == |R| - 1)
    decreases |s| - k
  {
    if !s[k] {
      SegmentAt(s, k + 1, i);
    } else if i == 0 {
      FirstSegment(s, k);
    } else {
      var e := RunEnd(s, k);
      SegmentAt(s, e + 1, i - 1);
      LaterSegment(s, k, i);
    }
  }

  /** Past the first run, the segments from `k` are those after the run. */
  lemma LaterSegment(s: seq<bool>, k: nat, i: nat)
    requires k < |s| && s[k] && 0 < i < |SegmentsFrom(s, k)|
    ensures var R, rest := SegmentsFrom(s, k), SegmentsFrom(s, RunEnd(s, k) + 1);
      |R| == |rest| + 1 && R[i] == rest[i - 1]
  {
  }

  /** The segment of the run that starts at a fresh true sample `k`. */
  lemma FirstSegment(s: seq<bool>, k: nat)
    requires |s| == SampleCount && StartsFresh(s, k) && k < |s| && s[k]
    ensures var R := SegmentsFrom(s, k);
      0 < |R| && Coord(k) == R[0].start && SegmentOfRun(s, R[0], |R| == 1)
  {
    var e := RunEnd(s, k);
    var seg := SegmentsFrom(s, k)[0];
    SampleIndexOfCoord(k);
    SampleIndexOfCoord(e);
    if e < |s| {
      assert seg.end == Coord(e) - GridSize;
      assert ClosesMidLine(s, seg.end);
    } else {
      assert seg.end == Last;
      assert |SegmentsFrom(s, e + 1)| == 0;
    }
  }

  /** Consecutive segments from index `k` are separated by a gap. */
  lemma {:induction false} SegmentsApart(s: seq<bool>, k: nat, i: nat)
    requires |s| == SampleCount && StartsFresh(s, k) && i + 1 < |SegmentsFrom(s, k)|
    ensures SegmentsFrom(s, k)[i].end < SegmentsFrom(s, k)[i + 1].start
    decreases |s| - k
  {
    if !s[k] {
      SegmentsApart(s, k + 1, i);
    } else {
      var e := RunEnd(s, k);
      var rest := SegmentsFrom(s, e + 1);
      assert SegmentsFrom(s, k)[i + 1] == rest[i];
      if i == 0 {
        SegmentAt(s, e + 1, 0);
      } else {
        SegmentsApart(s, e + 1, i - 1);
        assert SegmentsFrom(s, k)[i] == rest[i - 1];
      }
    }
  }

  /** Every true sample from index `k` on lies in a segment from `k`;
      `i` is that segment's position. */
  lemma {:induction false} TrueSampleCovered(s: seq<bool>, k: nat, m: nat) returns (i: nat)
    requires |s| == SampleCount && k <= m < |s| && s[m]
    ensures i < |SegmentsFrom(s, k)| && Covers(SegmentsFrom(s, k)[i], Coord(m))
    decreases |s| - k
  {
    if !s[k] {
      i := TrueSampleCovered(s, k + 1, m);
    } else {
      var e := RunEnd(s, k);
      if m < e {
        i := 0;
      } else {
        var j := TrueSampleCovered(s, e + 1, m);
        i := j + 1;
        assert SegmentsFrom(s, k)[i] == SegmentsFrom(s, e + 1)[j];
      }
    }
  }

  /** A sequence of segments whose consecutive members are apart is ordered. */
  lemma {:induction false} ApartIsOrdered(R: seq<Segment>)
    requires forall i :: 0 <= i < |R| ==> R[i].start <= R[i].end
    requires forall i :: 0 <= i < |R| - 1 ==> R[i].end < R[i + 1].start
    ensures forall i, j :: 0 <= i < j < |R| ==> R[i].end < R[j].start
  {
    if |R| > 1 {
      var tail := R[1..];
      ApartIsOrdered(tail);
      assert forall j :: 1 < j < |R| ==> R[j] == tail[j - 1];
      assert forall j :: 0 < j < |tail| ==> tail[0].end < tail[j].start;
    }
  }

  /** Segments come out in increasing order, do not overlap, and each has
      `start <= end`. */
  lemma SegmentsOrdered(s: seq<bool>)
    requires |s| == SampleCount
    ensures var R := Segments(s);
      && (forall i :: 0 <= i < |R| ==> First <= R[i].start <= R[i].end <= Last)
      && (forall i, j :: 0 <= i < j < |R| ==> R[i].end < R[j].start)
  {
    var R := Segments(s);
    forall i | 0 <= i < |R| ensures First <= R[i].start <= R[i].end <= Last {
      SegmentAt(s, 0, i);
    }
    forall i | 0 <= i < |R| - 1 ensures R[i].end < R[i + 1].start {
      SegmentsApart(s, 0, i);
    }
    ApartIsOrdered(R);
  }

  /** A segment opens only at a true sample whose predecessor, if any, is
      false. */
  lemma SegmentsOpenAtRisingEdge(s: seq<bool>)
    requires |s| == SampleCount
    ensures forall i :: 0 <= i < |Segments(s)| ==> Opens(s, Segments(s)[i].start)
  {
    forall i | 0 <= i < |Segments(s)| ensures Opens(s, Segments(s)[i].start) {
      SegmentAt(s, 0, i);
    }
  }

  /** A segment closes one grid step before the first false sample after its
      run; only the last segment can instead close at the fixed coordinate
      `Last`, and then the last sample is true. */
  lemma SegmentsClose(s: seq<bool>)
    requires |s| == SampleCount
    ensures var R := Segments(s);
      forall i :: 0 <= i < |R| ==>
        ClosesMidLine(s, R[i].end) || (i == |R| - 1 && ClosesAtLineEnd(s, R[i].end))
  {
    var R := Segments(s);
    forall i | 0 <= i < |R|
      ensures ClosesMidLine(s, R[i].end) || (i == |R| - 1 && ClosesAtLineEnd(s, R[i].end))
    {
      SegmentAt(s, 0, i);
    }
  }

  /** Every true sample lies in exactly one segment, and no false sample lies
      in any. */
  lemma SegmentsCoverTrueSamples(s: seq<bool>)
    requires |s| == SampleCount
    ensures var R := Segments(s);
      forall m :: 0 <= m < |s| ==>
        (s[m] <==> exists i :: 0 <= i < |R| && Covers(R[i], Coord(m)))
    ensures var R := Segments(s);
      forall m, i, j ::
        (0 <= m < |s| && 0 <= i < |R| && 0 <= j < |R|
         && Covers(R[i], Coord(m)) && Covers(R[j], Coord(m))) ==> i == j
  {
    var R := Segments(s);
    forall m | 0 <= m < |s| ensures s[m] <==> exists i :: 0 <= i < |R| && Covers(R[i], Coord(m)) {
      if s[m] {
        var i := TrueSampleCovered(s, 0, m);
      } else {
        forall i | 0 <= i < |R| ensures !Covers(R[i], Coord(m)) {
          SegmentAt(s, 0, i);
        }
      }
    }
    SegmentsOrdered(s);
  }

  /** Sample-wise rising edges over a run `[m - 1, e)` of true samples add
      nothing. */
  lemma {:induction false} RisingInRun(s: seq<bool>, m: nat, e: nat)
    requires 1 <= m <= e <= |s|
    requires forall t :: m - 1 <= t < e ==> s[t]
    ensures RisingFrom(s, m) == RisingFrom(s, e)
    decreases e - m
  {
    if m < e {
      RisingInRun(s, m + 1, e);
    }
  }

  lemma {:induction false} SegmentsFromCount(s: seq<bool>, k: nat)
    requires StartsFresh(s, k)
    ensures |SegmentsFrom(s, k)| == RisingFrom(s, k)
    decreases |s| - k
  {
    if k >= |s| {
    } else if !s[k] {
      SegmentsFromCount(s, k + 1);
    } else {
      var e := RunEnd(s, k);
      SegmentsFromCount(s, e + 1);
      RisingInRun(s, k + 1, e);
    }
  }

  /** The number of segments is the number of false-to-true transitions, a
      true first sample counting as one. */
  lemma SegmentCountIsRisingEdges(s: seq<bool>)
    ensures |Segments(s)| == RisingFrom(s, 0)
  {
    SegmentsFromCount(s, 0);
  }

  /** A line whose samples are all true gives the single segment
      `[First, Last]`, reaching past the last sample at 746; a line with no
      true sample gives no segment. */
  lemma UniformLines(s: seq<bool>)
    requires |s| == SampleCount
    ensures (forall m :: 0 <= m < |s| ==> s[m]) ==> Segments(s) == [Segment(First, Last)]
    ensures (forall m :: 0 <= m < |s| ==> !s[m]) ==> Segments(s) == []
  {
    if forall m :: 0 <= m < |s| ==> s[m] {
      RunEndAt(s, 0, |s|);
      assert SegmentsFrom(s, |s| + 1) == [];
    }
    if forall m :: 0 <= m < |s| ==> !s[m] {
      NoTrueSampleNoSegment(s, 0);
    }
  }

  lemma {:induction false} NoTrueSampleNoSegment(s: seq<bool>, k: nat)
    requires forall m :: k <= m < |s| ==> !s[m]
    ensures SegmentsFrom(s, k) == []
    decreases |s| - k
  {
    if k < |s| {
      NoTrueSampleNoSegment(s, k + 1);
    }
  }

  // ---------------------------------------------------------------------
  // The outer loops: horizontal lines row by row, vertical lines column by column
  // ---------------------------------------------------------------------

  function RowSamples(inside: (int, int) -> bool, y: int): (s: seq<bool>)
  {
    seq(SampleCount, k => inside(Coord(k), y))
  }

  function ColumnSamples(inside: (int, int) -> bool, x: int): (s: seq<bool>)
  {
    seq(SampleCount, k => inside(x, Coord(k)))
  }

  /** Row `y` of the region, as a line of its own. */
  function RowOf(inside: (int, int) -> bool, y: int): (line: int -> bool)
  {
    x => inside(x, y)
  }

  /** Column `x` of the region, as a line of its own. */
  function ColumnOf(inside: (int, int) -> bool, x: int): (line: int -> bool)
  {
    y => inside(x, y)
  }

  lemma RowOfSamples(inside: (int, int) -> bool, y: int)
    ensures LineSamples(RowOf(inside, y)) == RowSamples(inside, y)
  {
    assert forall k :: 0 <= k < SampleCount ==> LineSamples(RowOf(inside, y))[k] == RowSamples(inside, y)[k];
  }

  lemma ColumnOfSamples(inside: (int, int) -> bool, x: int)
    ensures LineSamples(ColumnOf(inside, x)) == ColumnSamples(inside, x)
  {
    assert forall k :: 0 <= k < SampleCount ==> LineSamples(ColumnOf(inside, x))[k] == ColumnSamples(inside, x)[k];
  }

  function RowLines(y: int, segs: seq<Segment>): (lines: seq<Line>)
  {
    seq(|segs|, i requires 0 <= i < |segs| => Line(Point(segs[i].start, y), Point(segs[i].end, y)))
  }

  function ColumnLines(x: int, segs: seq<Segment>): (lines: seq<Line>)
  {
    seq(|segs|, i requires 0 <= i < |segs| => Line(Point(x, segs[i].start), Point(x, segs[i].end)))
  }

  /** The horizontal lines of the first `n` rows, top row first. */
  function HorizontalRows(inside: (int, int) -> bool, n: nat): (lines: seq<Line>)
  {
    if n == 0 then []
    else HorizontalRows(inside, n - 1) + RowLines(Coord(n - 1), Segments(RowSamples(inside, Coord(n - 1))))
  }

  /** The vertical lines of the first `n` columns, left column first. */
  function VerticalColumns(inside: (int, int) -> bool, n: nat): (lines: seq<Line>)
  {
    if n == 0 then []
    else VerticalColumns(inside, n - 1) + ColumnLines(Coord(n - 1), Segments(ColumnSamples(inside, Coord(n - 1))))
  }

  /** `for (let y = 50; y < 750; y += gridSize)` around the scan of one row. */
  method HorizontalLines(inside: (int, int) -> bool) returns (lines: seq<Line>)
    ensures lines == HorizontalRows(inside, LineCount)
  {
    lines := [];
    var y := First;
    ghost var r: nat := 0;
    while y < Last
      invariant r <= LineCount && y == Coord(r)
      invariant lines == HorizontalRows(inside, r)
      decreases Last - y
    {
      var segs := ScanLine(RowOf(inside, y));
      RowOfSamples(inside, y);
      lines := lines + RowLines(y, segs);
      y := y + GridSize;
      r := r + 1;
    }
    assert r == LineCount;
  }

  /** `for (let x = 50; x < 750; x += gridSize)` around the scan of one column. */
  method VerticalLines(inside: (int, int) -> bool) returns (lines: seq<Line>)
    ensures lines == VerticalColumns(inside, LineCount)
  {
    lines := [];
    var x := First;
    ghost var c: nat := 0;
    while x < Last
      invariant c <= LineCount && x == Coord(c)
      invariant lines == VerticalColumns(inside, c)
      decreases Last - x
    {
      var segs := ScanLine(ColumnOf(inside, x));
      ColumnOfSamples(inside, x);
      lines := lines + ColumnLines(x, segs);
      x := x + GridSize;
      c := c + 1;
    }
    assert c == LineCount;
  }

  /** A horizontal line on a row coordinate, running left to right inside the
      drawing area. */
  predicate HorizontalInArea(l: Line)
  {
    l.from.y == l.to.y && First <= l.from.y < Last && First <= l.from.x <= l.to.x <= Last
  }

  /** A vertical line on a column coordinate, running top to bottom inside
      the drawing area. */
  predicate VerticalInArea(l: Line)
  {
    l.from.x == l.to.x && First <= l.from.x < Last && First <= l.from.y <= l.to.y <= Last
  }

  /** Segments that lie in [First, Last], each with `start <= end`. */
  predicate SegmentsInRange(segs: seq<Segment>)
  {
    forall i :: 0 <= i < |segs| ==> First <= segs[i].start <= segs[i].end <= Last
  }

  lemma SegmentsOfLineInRange(s: seq<bool>)
    requires |s| == SampleCount
    ensures SegmentsInRange(Segments(s))
  {
    SegmentsOrdered(s);
  }

  lemma RowLinesInArea(y: int, segs: seq<Segment>)
    requires First <= y < Last && SegmentsInRange(segs)
    ensures forall l :: l in RowLines(y, segs) ==> HorizontalInArea(l)
  {
  }

  lemma ColumnLinesInArea(x: int, segs: seq<Segment>)
    requires First <= x < Last && SegmentsInRange(segs)
    ensures forall l :: l in ColumnLines(x, segs) ==> VerticalInArea(l)
  {
  }

  /** Every horizontal line of the first `n` rows lies on a row coordinate
      and runs left to right inside the drawing area. */
  lemma {:induction false} HorizontalLinesInArea(inside: (int, int) -> bool, n: nat)
    requires n <= LineCount
    ensures forall l :: l in HorizontalRows(inside, n) ==> HorizontalInArea(l)
  {
    if n > 0 {
      HorizontalLinesInArea(inside, n - 1);
      SegmentsOfLineInRange(RowSamples(inside, Coord(n - 1)));
      RowLinesInArea(Coord(n - 1), Segments(RowSamples(inside, Coord(n - 1))));
    }
  }

  /** Every vertical line of the first `n` columns lies on a column
      coordinate and runs top to bottom inside the drawing area. */
  lemma {:induction false} VerticalLinesInArea(inside: (int, int) -> bool, n: nat)
    requires n <= LineCount
    ensures forall l :: l in VerticalColumns(inside, n) ==> VerticalInArea(l)
  {
    if n > 0 {
      VerticalLinesInArea(inside, n - 1);
      SegmentsOfLineInRange(ColumnSamples(inside, Coord(n - 1)));
      ColumnLinesInArea(Coord(n - 1), Segments(ColumnSamples(inside, Coord(n - 1))));
    }
  }
}
