/**
 * Bresenham lines between two grid points. The line is traced along its
 * major axis (y when the line is steeper than 45 degrees, x otherwise), from
 * the end with the smaller major coordinate; if that end is the second
 * point, the traced list is reversed in place at the end.
 */
module Bresenham {
  import Maps

  datatype Point = Point(x: int, y: int)

  function Abs(n: int): nat {
    if n < 0 then -n else n
  }

  function Max(a: int, b: int): int {
    if a >= b then a else b
  }

  /** The coordinate along the major axis. */
  function Major(steep: bool, p: Point): int {
    if steep then p.y else p.x
  }

  /** The coordinate along the minor axis. */
  function Minor(steep: bool, p: Point): int {
    if steep then p.x else p.y
  }

  /** The point pushed for a major and a minor coordinate: swapped back when steep. */
  function Emit(steep: bool, major: int, minor: int): (p: Point)
    ensures Major(steep, p) == major && Minor(steep, p) == minor
  {
    if steep then Point(minor, major) else Point(major, minor)
  }

  /** A point is determined by its two coordinates. */
  lemma EmitOfCoordinates(steep: bool, p: Point)
    ensures Emit(steep, Major(steep, p), Minor(steep, p)) == p
  {
  }

  /** The line in major/minor coordinates, from (x1, y1) to (x2, y2) with x1 <= x2. */
  datatype Frame = Frame(steep: bool, reversed: bool, x1: int, y1: int, x2: int, y2: int)

  /** The line is steep when its y extent exceeds its x extent. */
  predicate Steep(a: Point, b: Point) {
    Abs(b.y - a.y) > Abs(b.x - a.x)
  }

  /**
   * The normalisation at the head of `get_line`: axes swapped when steep,
   * then the ends ordered along the major axis, `reversed` recording a swap.
   */
  function Normalized(a: Point, b: Point): (f: Frame)
    ensures f.steep == Steep(a, b)
    ensures f.x1 <= f.x2 && Abs(f.y2 - f.y1) <= f.x2 - f.x1
    ensures f.x2 - f.x1 == Max(Abs(b.x - a.x), Abs(b.y - a.y))
    ensures !f.reversed ==> Emit(f.steep, f.x1, f.y1) == a && Emit(f.steep, f.x2, f.y2) == b
    ensures f.reversed ==> Emit(f.steep, f.x1, f.y1) == b && Emit(f.steep, f.x2, f.y2) == a
  {
    var steep := Steep(a, b);
    var x1, y1, x2, y2 := Major(steep, a), Minor(steep, a), Major(steep, b), Minor(steep, b);
    if x1 > x2 then Frame(steep, true, x2, y2, x1, y1) else Frame(steep, false, x1, y1, x2, y2)
  }

  /** Reading a sequence back to front. */
  function Reversed<T>(s: seq<T>): (r: seq<T>)
    ensures |r| == |s|
  {
    seq(|s|, i requires 0 <= i < |s| => s[|s| - 1 - i])
  }

  /** A multiple of a positive `d` strictly between -d and d is zero. */
  lemma MultipleInOpenRange(m: int, d: int)
    requires d > 0 && -d < m * d < d
    ensures m == 0
  {
    if m >= 1 {
      Maps.MulAtLeast(m, d);
    } else if m <= -1 {
      Maps.MulAtLeast(-m, d);
    }
  }

  /**
   * At the far end of a trace, an error term of `dx / 2 + m * dx` that lies
   * in [0, dx) means `m` is zero: the minor coordinate has reached its target.
   */
  lemma ErrorPinsEnd(dx: int, err: int, m: int)
    requires dx > 0 && err == dx / 2 + m * dx && 0 <= err < dx
    ensures m == 0
  {
    MultipleInOpenRange(m, dx);
  }

  /** `k` copies of `d` added up. */
  function Times(k: nat, d: int): int {
    if k == 0 then 0 else Times(k - 1, d) + d
  }

  lemma {:induction false} TimesIsProduct(k: nat, d: int)
    ensures Times(k, d) == k * d
  {
    if k > 0 {
      TimesIsProduct(k - 1, d);
      assert (k - 1) * d + d == k * d;
    }
  }

  /**
   * The error term after k points with the minor coordinate moved m times:
   * h (half the major extent), less k decrements d, plus m major extents dx,
   * kept in [0, dx).
   */
  predicate ErrorTerm(h: int, dx: int, d: int, k: nat, m: nat, err: int) {
    err == h - Times(k, d) + Times(m, dx) && 0 <= err && (err < dx || dx == 0)
  }

  /** One step of the error update keeps the error term: subtract d, and on a negative result move once and add dx. */
  lemma ErrorTermStep(h: int, dx: int, d: int, k: nat, m: nat, err: int)
    requires 0 <= d <= dx && ErrorTerm(h, dx, d, k, m, err)
    ensures err - d < 0 ==> ErrorTerm(h, dx, d, k + 1, m + 1, err - d + dx)
    ensures err - d >= 0 ==> ErrorTerm(h, dx, d, k + 1, m, err - d)
  {
  }

  /** At the far end, k == dx, the error term pins the number of moves to d. */
  lemma ErrorTermAtEnd(dx: nat, d: int, m: nat, err: int)
    requires dx > 0 && ErrorTerm(dx / 2, dx, d, dx, m, err)
    ensures m == d
  {
    TimesIsProduct(dx, d);
    TimesIsProduct(m, dx);
    assert m * dx - dx * d == (m - d) * dx;
    ErrorPinsEnd(dx, err, m - d);
  }

  /** The k-th point has major coordinate start + k. */
  predicate Ascending(steep: bool, points: seq<Point>, start: int) {
    forall k | 0 <= k < |points| :: Major(steep, points[k]) == start + k
  }

  /** The k-th point has major coordinate start - k. */
  predicate Descending(steep: bool, points: seq<Point>, start: int) {
    forall k | 0 <= k < |points| :: Major(steep, points[k]) == start - k
  }

  /** Consecutive points differ by at most one along the minor axis. */
  predicate MinorUnit(steep: bool, points: seq<Point>) {
    forall k | 0 < k < |points| :: Abs(Minor(steep, points[k]) - Minor(steep, points[k - 1])) <= 1
  }

  /** Two points are grid neighbours one apart along the major axis. */
  predicate Adjacent(steep: bool, p: Point, q: Point) {
    Abs(Major(steep, q) - Major(steep, p)) == 1 && Abs(Minor(steep, q) - Minor(steep, p)) <= 1
  }

  /** Consecutive points are grid neighbours one apart along the major axis. */
  predicate Neighbours(steep: bool, points: seq<Point>) {
    forall k | 0 < k < |points| :: Adjacent(steep, points[k - 1], points[k])
  }

  /** Reading an ascending line backwards gives a descending one from its last major coordinate. */
  lemma ReversedDescending(steep: bool, points: seq<Point>, start: int)
    requires Ascending(steep, points, start)
    ensures Descending(steep, Reversed(points), start + |points| - 1)
  {
    var r := Reversed(points);
    forall k | 0 <= k < |r|
      ensures Major(steep, r[k]) == start + |points| - 1 - k
    {
      var j := |points| - 1 - k;
      assert r[k] == points[j];
    }
  }

  /** Reading a line backwards keeps its unit minor steps. */
  lemma ReversedMinorUnit(steep: bool, points: seq<Point>)
    requires MinorUnit(steep, points)
    ensures MinorUnit(steep, Reversed(points))
  {
    var r := Reversed(points);
    forall k | 0 < k < |r|
      ensures Abs(Minor(steep, r[k]) - Minor(steep, r[k - 1])) <= 1
    {
      var j := |points| - k;
      assert r[k] == points[j - 1] && r[k - 1] == points[j];
      assert Abs(Minor(steep, points[j]) - Minor(steep, points[j - 1])) <= 1;
    }
  }

  /** A line walking the major axis one way, with unit minor steps, is a chain of neighbours. */
  lemma MonotoneNeighbours(steep: bool, points: seq<Point>, start: int)
    requires Ascending(steep, points, start) || Descending(steep, points, start)
    requires MinorUnit(steep, points)
    ensures Neighbours(steep, points)
  {
    forall k | 0 < k < |points|
      ensures Adjacent(steep, points[k - 1], points[k])
    {
      var p, q := points[k - 1], points[k];
      assert Abs(Minor(steep, q) - Minor(steep, p)) <= 1;
    }
  }

  /** The points pushed for minor coordinates `ys` at consecutive major coordinates from `x1`. */
  function EmitAll(steep: bool, x1: int, ys: seq<int>): (points: seq<Point>)
    ensures |points| == |ys|
  {
    seq(|ys|, k requires 0 <= k < |ys| => Emit(steep, x1 + k, ys[k]))
  }

  /** Pushing one more point extends the emitted sequence by it. */
  lemma EmitAllPush(steep: bool, x1: int, ys: seq<int>, y: int)
    ensures EmitAll(steep, x1, ys + [y]) == EmitAll(steep, x1, ys) + [Emit(steep, x1 + |ys|, y)]
  {
  }

  /** Minor coordinates that stay or move by one `ystep` at a time give a stepwise line. */
  lemma EmitAllStepwise(steep: bool, x1: int, ys: seq<int>, ystep: int)
    requires ystep == 1 || ystep == -1
    requires forall k | 0 < k < |ys| :: ys[k] == ys[k - 1] || ys[k] == ys[k - 1] + ystep
    ensures Ascending(steep, EmitAll(steep, x1, ys), x1)
    ensures MinorUnit(steep, EmitAll(steep, x1, ys))
  {
  }

  /** The direction the minor coordinate moves in. */
  function StepOf(f: Frame): int {
    if f.y1 < f.y2 then 1 else -1
  }

  /** The minor coordinates start at y1 and each stays or moves one step; `y` is the next one. */
  predicate MinorsFollow(f: Frame, y: int, ys: seq<int>) {
    (ys == [] ==> y == f.y1) &&
    (ys != [] ==> ys[0] == f.y1 && (y == ys[|ys| - 1] || y == ys[|ys| - 1] + StepOf(f))) &&
    forall k | 0 < k < |ys| :: ys[k] == ys[k - 1] || ys[k] == ys[k - 1] + StepOf(f)
  }

  /** Pushing `y` keeps the minor coordinates stepwise, whether `y` then stays or moves. */
  lemma MinorsFollowPush(f: Frame, y: int, ys: seq<int>, y': int)
    requires MinorsFollow(f, y, ys) && (y' == y || y' == y + StepOf(f))
    ensures MinorsFollow(f, y', ys + [y])
  {
  }

  /** A finished trace: one point per major coordinate, starting at (x1, y1), stepwise, ending at minor `ys`'s last. */
  lemma TraceFinished(f: Frame, y: int, ys: seq<int>)
    requires f.x1 <= f.x2 && MinorsFollow(f, y, ys) && |ys| == f.x2 - f.x1 + 1
    ensures var points := EmitAll(f.steep, f.x1, ys);
      |points| == f.x2 - f.x1 + 1 &&
      points[0] == Emit(f.steep, f.x1, f.y1) &&
      Ascending(f.steep, points, f.x1) && MinorUnit(f.steep, points) &&
      points[|points| - 1] == Emit(f.steep, f.x2, ys[|ys| - 1]) &&
      forall k | 0 <= k < |points| :: Minor(f.steep, points[k]) == ys[k]
  {
    EmitAllStepwise(f.steep, f.x1, ys, StepOf(f));
  }

  /** The decrement of the error term: the signed minor delta as written, or its size. */
  predicate Decrement(f: Frame, d: int) {
    d == f.y2 - f.y1 || d == Abs(f.y2 - f.y1)
  }

  /**
   * The state of the tracing loop before the point at major coordinate x,
   * `steps` being the number of moves of the minor coordinate so far. A
   * negative decrement only ever increases the error term, so nothing
   * moves; otherwise the error term tracks the moves, and the last point
   * reaches y2.
   */
  predicate Traced(f: Frame, d: int, x: int, y: int, err: int, ys: seq<int>, steps: nat) {
    f.x1 <= f.x2 && f.x1 <= x <= f.x2 + 1 && |ys| == x - f.x1 && MinorsFollow(f, y, ys) &&
    (d < 0 ==> y == f.y1 && err >= 0 && forall k | 0 <= k < |ys| :: ys[k] == f.y1) &&
    (d >= 0 ==>
      y == (if StepOf(f) == 1 then f.y1 + steps else f.y1 - steps) &&
      ErrorTerm((f.x2 - f.x1) / 2, f.x2 - f.x1, d, x - f.x1, steps, err) &&
      (x == f.x2 + 1 ==> ys[|ys| - 1] == f.y2))
  }

  /** One iteration of the loop keeps its state. */
  lemma TracedStep(f: Frame, d: int, x: int, y: int, err: int, ys: seq<int>, steps: nat)
    requires f.x1 <= f.x2 && Abs(f.y2 - f.y1) <= f.x2 - f.x1 && Decrement(f, d)
    requires Traced(f, d, x, y, err, ys, steps) && x < f.x2 + 1
    ensures err - d < 0 ==> Traced(f, d, x + 1, y + StepOf(f), err - d + (f.x2 - f.x1), ys + [y], steps + 1)
    ensures err - d >= 0 ==> Traced(f, d, x + 1, y, err - d, ys + [y], steps)
  {
    var dx := f.x2 - f.x1;
    if d >= 0 {
      if x == f.x2 && dx > 0 {
        ErrorTermAtEnd(dx, d, steps, err);
      }
      ErrorTermStep(dx / 2, dx, d, x - f.x1, steps, err);
    }
    MinorsFollowPush(f, y, ys, if err - d < 0 then y + StepOf(f) else y);
  }

  /** The state at the end of the tracing loop gives the traced line its properties. */
  lemma TracedFinished(f: Frame, d: int, y: int, err: int, ys: seq<int>, steps: nat)
    requires Traced(f, d, f.x2 + 1, y, err, ys, steps)
    ensures var points := EmitAll(f.steep, f.x1, ys);
      |points| == f.x2 - f.x1 + 1 &&
      points[0] == Emit(f.steep, f.x1, f.y1) &&
      Ascending(f.steep, points, f.x1) && MinorUnit(f.steep, points) &&
      (d < 0 ==> forall k | 0 <= k < |points| :: Minor(f.steep, points[k]) == f.y1) &&
      (d >= 0 ==> points[|points| - 1] == Emit(f.steep, f.x2, f.y2))
  {
    TraceFinished(f, y, ys);
  }

  /** The body of the tracing loop after the push: subtract `d`, and on a negative error move one step and add `dx`. */
  method Advance(f: Frame, d: int, dx: int, ystep: int, x: int, y: int, err: int, ghost ys: seq<int>, ghost steps: nat)
    returns (y': int, err': int, ghost steps': nat)
    requires f.x1 <= f.x2 && Abs(f.y2 - f.y1) <= f.x2 - f.x1 && Decrement(f, d)
    requires dx == f.x2 - f.x1 && ystep == StepOf(f)
    requires Traced(f, d, x, y, err, ys, steps) && x < f.x2 + 1
    ensures Traced(f, d, x + 1, y', err', ys + [y], steps')
  {
    TracedStep(f, d, x, y, err, ys, steps);
    y', err', steps' := y, err - d, steps;
    if err' < 0 {
      y' := y + ystep;
      steps' := steps + 1;
      err' := err' + dx;
    }
  }

  /**
   * The tracing loop of `get_line`, the error term decreased by `d` at every
   * point. With a negative `d` (the signed delta of a line whose minor
   * coordinate falls) the minor coordinate never moves; with `d` the size of
   * the delta the last point is the far end.
   */
  method Trace(f: Frame, d: int) returns (points: seq<Point>)
    requires f.x1 <= f.x2 && Abs(f.y2 - f.y1) <= f.x2 - f.x1 && Decrement(f, d)
    ensures |points| == f.x2 - f.x1 + 1
    ensures points[0] == Emit(f.steep, f.x1, f.y1)
    ensures Ascending(f.steep, points, f.x1) && MinorUnit(f.steep, points)
    ensures d < 0 ==> forall k | 0 <= k < |points| :: Minor(f.steep, points[k]) == f.y1
    ensures d >= 0 ==> points[|points| - 1] == Emit(f.steep, f.x2, f.y2)
  {
    var dx := f.x2 - f.x1;
    var err := dx / 2;
    var y := f.y1;
    var ystep := if f.y1 < f.y2 then 1 else -1;
    ghost var steps: nat := 0;
    ghost var ys: seq<int> := [];
    points := [];
    var x := f.x1;
    while x < f.x2 + 1
      invariant Traced(f, d, x, y, err, ys, steps)
      invariant points == EmitAll(f.steep, f.x1, ys)
    {
      EmitAllPush(f.steep, f.x1, ys, y);
      points := points + [Emit(f.steep, x, y)];
      ghost var before := ys;
      ys := ys + [y];
      y, err, steps := Advance(f, d, dx, ystep, x, y, err, before, steps);
      x := x + 1;
    }
    TracedFinished(f, d, y, err, ys, steps);
  }

  /** The first i and last i places of `points` hold `s` reversed; the middle holds `s`. */
  predicate SwappedUpTo(s: seq<Point>, points: seq<Point>, i: int) {
    |points| == |s| &&
    (forall j | 0 <= j < |s| && (j < i || j > |s| - 1 - i) :: points[j] == s[|s| - 1 - j]) &&
    (forall j | 0 <= j < |s| && i <= j <= |s| - 1 - i :: points[j] == s[j])
  }

  /** Swapping places i and len - 1 - i extends the reversed ends by one. */
  lemma SwapStep(s: seq<Point>, points: seq<Point>, i: int)
    requires SwappedUpTo(s, points, i) && 0 <= i < |s| - 1 - i
    ensures SwappedUpTo(s, points[i := points[|s| - 1 - i]][|s| - 1 - i := points[i]], i + 1)
  {
    var end := |s| - 1;
    var next := points[i := points[end - i]][end - i := points[i]];
    forall j | 0 <= j < |s| && j != i && j != end - i
      ensures next[j] == points[j]
    {
    }
  }

  /** Once the first half is swapped, the whole sequence is reversed. */
  lemma SwappedAll(s: seq<Point>, points: seq<Point>)
    requires SwappedUpTo(s, points, |s| / 2)
    ensures points == Reversed(s)
  {
    var r := Reversed(s);
    forall j | 0 <= j < |s|
      ensures points[j] == r[j]
    {
      if |s| / 2 <= j <= |s| - 1 - |s| / 2 {
        assert j == |s| - 1 - j;
      }
    }
  }

  /** The reversal loop of `get_line`: swaps i with len - 1 - i for every i in the first half. */
  method ReverseInPlace(s: seq<Point>) returns (points: seq<Point>)
    ensures points == Reversed(s)
  {
    points := s;
    var i := 0;
    while i < |points| / 2
      invariant 0 <= i <= |s| / 2 && SwappedUpTo(s, points, i)
    {
      var end := |points| - 1;
      SwapStep(s, points, i);
      points := points[i := points[end - i]][end - i := points[i]];
      i := i + 1;
    }
    SwappedAll(s, points);
  }

  /**
   * The common tail of `get_line`: normalise, trace with decrement `d`
   * (chosen from the normalised frame), and reverse when the ends were
   * swapped. The line walks the major axis from `a` toward `b`, one
   * neighbour at a time.
   */
  method Line(a: Point, b: Point, f: Frame, d: int) returns (points: seq<Point>)
    requires f == Normalized(a, b) && Decrement(f, d)
    ensures |points| == Max(Abs(b.x - a.x), Abs(b.y - a.y)) + 1
    ensures Neighbours(f.steep, points)
    ensures Major(f.steep, a) <= Major(f.steep, b) ==> Ascending(f.steep, points, Major(f.steep, a))
    ensures Major(f.steep, a) > Major(f.steep, b) ==> Descending(f.steep, points, Major(f.steep, a))
    ensures !f.reversed ==> points[0] == Emit(f.steep, f.x1, f.y1)
    ensures f.reversed ==> points[|points| - 1] == Emit(f.steep, f.x1, f.y1)
    ensures d < 0 ==> forall k | 0 <= k < |points| :: Minor(f.steep, points[k]) == f.y1
    ensures d >= 0 && !f.reversed ==> points[|points| - 1] == Emit(f.steep, f.x2, f.y2)
    ensures d >= 0 && f.reversed ==> points[0] == Emit(f.steep, f.x2, f.y2)
  {
    var generated := Trace(f, d);
    if f.reversed {
      points := ReverseInPlace(generated);
      ReversedDescending(f.steep, generated, f.x1);
      ReversedMinorUnit(f.steep, generated);
      MonotoneNeighbours(f.steep, points, f.x2);
    } else {
      points := generated;
      MonotoneNeighbours(f.steep, points, f.x1);
    }
  }

  /**
   * `get_line` as written, the error term decreased by the signed minor
   * delta. Its length, its walk along the major axis and its neighbour
   * steps are as intended, and so are its two ends when the normalised minor
   * delta is not negative; when it is negative every point keeps the minor
   * coordinate of the normalised start.
   */
  method GetLineAsWritten(a: Point, b: Point) returns (points: seq<Point>)
    ensures |points| == Max(Abs(b.x - a.x), Abs(b.y - a.y)) + 1
    ensures Neighbours(Steep(a, b), points)
    ensures var s := Steep(a, b);
      Major(s, a) <= Major(s, b) ==> Ascending(s, points, Major(s, a))
    ensures var s := Steep(a, b);
      Major(s, a) > Major(s, b) ==> Descending(s, points, Major(s, a))
    ensures var f := Normalized(a, b);
      f.y1 <= f.y2 ==> points[0] == a && points[|points| - 1] == b
    ensures var f := Normalized(a, b);
      f.y2 < f.y1 ==> forall k | 0 <= k < |points| :: Minor(f.steep, points[k]) == f.y1
  {
    var f := Normalized(a, b);
    points := Line(a, b, f, f.y2 - f.y1);
  }

  /** The line from (0, 2) to (2, 0) never leaves row 2 and so ends at (2, 2), not at (2, 0). */
  method AsWrittenMissesFarEnd() returns (points: seq<Point>)
    ensures points == [Point(0, 2), Point(1, 2), Point(2, 2)]
  {
    points := GetLineAsWritten(Point(0, 2), Point(2, 0));
    var f := Normalized(Point(0, 2), Point(2, 0));
    assert !f.steep && f.y1 == 2 && f.y2 == 0;
    assert points[0] == Point(0, 2) && points[1] == Point(1, 2) && points[2] == Point(2, 2);
  }

  /**
   * `get_line` with the error term decreased by the size of the minor delta:
   * the line starts at `a`, ends at `b`, has one point per step of the
   * longer extent, walks the major axis from `a` toward `b` and consecutive
   * points are grid neighbours.
   */
  method GetLine(a: Point, b: Point) returns (points: seq<Point>)
    ensures |points| == Max(Abs(b.x - a.x), Abs(b.y - a.y)) + 1
    ensures points[0] == a && points[|points| - 1] == b
    ensures Neighbours(Steep(a, b), points)
    ensures var s := Steep(a, b);
      Major(s, a) <= Major(s, b) ==> Ascending(s, points, Major(s, a))
    ensures var s := Steep(a, b);
      Major(s, a) > Major(s, b) ==> Descending(s, points, Major(s, a))
  {
    var f := Normalized(a, b);
    points := Line(a, b, f, Abs(f.y2 - f.y1));
  }
}
