/** threadSINCalculations: an interval cut into segments by repeated halving, the sum over one
    segment, and its distribution over threads. The integrand is any function f. */
module Segments {
  import opened Common
  import opened Reals

  const LEFT_CORNER := 0.001
  const RIGHT_CORNER := 1.0
  const SEGMENT_NUMBER: nat := 20
  const SEGMENTATION: nat := 100000000

  datatype Interval = Interval(left: real, right: real)

  /** length halved k times. */
  function Halved(length: real, k: nat): real {
    if k == 0 then length else Halved(length, k - 1) / 2.0
  }

  lemma {:induction false} HalvedPositive(length: real, k: nat)
    requires length > 0.0
    ensures Halved(length, k) > 0.0
  {
    if k > 0 {
      HalvedPositive(length, k - 1);
    }
  }

  /** The end of segment i among n, as a distance from the left corner. */
  function Reach(length: real, n: nat, i: nat): real
    requires i < n
  {
    Halved(length, n - 1 - i)
  }

  function Tile(left: real, length: real, n: nat, i: nat): Interval
    requires i < n
  {
    Interval(if i == 0 then left else left + Reach(length, n, i - 1), left + Reach(length, n, i))
  }

  /** n segments of an interval that begins at left: the last ends at its end, and every other end
      is half as far from left as the next. */
  function Tiles(left: real, length: real, n: nat): (range: seq<Interval>) {
    seq(n, i requires 0 <= i < n => Tile(left, length, n, i))
  }

  /** The loop of createIntervalSegmentation, from the last segment down. */
  method Place(left: real, length: real, n: nat) returns (range: array<Interval>)
    requires n >= 1
    ensures fresh(range) && range[..] == Tiles(left, length, n)
  {
    range := new Interval[n](_ => Interval(0.0, 0.0));
    var rest := length;
    var i := n - 1;
    while i >= 0
      invariant -1 <= i < n && forall j :: i < j < n ==> range[j] == Tile(left, length, n, j)
      invariant i >= 0 ==> rest == Reach(length, n, i)
    {
      var right := left + rest;
      if i == 0 {
        range[i] := Interval(left, right);
      } else {
        rest := rest / 2.0;
        range[i] := Interval(left + rest, right);
      }
      i := i - 1;
    }
  }

  /** The segments tile the interval: neighbours share an end, none is empty, and each end is half
      as far from the left corner as the next. */
  lemma TilesTheInterval(left: real, length: real, n: nat)
    requires n >= 1 && length > 0.0
    ensures var range := Tiles(left, length, n);
            && range[0].left == left && range[n - 1].right == left + length
            && (forall i :: 0 < i < n ==> range[i].left == range[i - 1].right)
            && (forall i :: 0 < i < n ==> range[i - 1].right - left == (range[i].right - left) / 2.0)
            && (forall i :: 0 <= i < n ==> range[i].left < range[i].right)
  {
    var range := Tiles(left, length, n);
    forall i: nat | i < n ensures range[i].left < range[i].right {
      HalvedPositive(length, n - 1 - i);
    }
  }

  /** createIntervalSegmentation */
  method CreateIntervalSegmentation() returns (range: array<Interval>)
    ensures fresh(range) && range[..] == Tiles(LEFT_CORNER, RIGHT_CORNER - LEFT_CORNER, SEGMENT_NUMBER)
  {
    range := Place(LEFT_CORNER, RIGHT_CORNER - LEFT_CORNER, SEGMENT_NUMBER);
  }

  // One segment.

  /** The value of f at point i. */
  function At(f: real -> real, left: real, step: real, i: nat): real {
    f(left + i as real * step)
  }

  /** The area of panel i, between points i - 1 and i. */
  function Panel(f: real -> real, left: real, step: real, i: nat): real
    requires i >= 1
  {
    step * (At(f, left, step, i) + At(f, left, step, i - 1)) / 2.0
  }

  /** The first k panels. */
  function Trapezoid(f: real -> real, left: real, step: real, k: nat): real {
    if k == 0 then 0.0 else Trapezoid(f, left, step, k - 1) + Panel(f, left, step, k)
  }

  /** cOneInterval */
  method COneInterval(f: real -> real, left: real, right: real) returns (res: real)
    ensures res == OneInterval(f, left, right)
  {
    res := 0.0;
    var step := (right - left) / SEGMENTATION as real;
    var i := 1;
    while i != SEGMENTATION
      invariant 1 <= i <= SEGMENTATION
      invariant res == Trapezoid(f, left, step, i - 1)
      decreases SEGMENTATION - i
    {
      res := res + step * (At(f, left, step, i) + At(f, left, step, i - 1)) / 2.0;
      i := i + 1;
    }
  }

  /** What cOneInterval computes: all panels but the last. */
  function OneInterval(f: real -> real, left: real, right: real): real {
    Trapezoid(f, left, (right - left) / SEGMENTATION as real, SEGMENTATION - 1)
  }

  /** The values at points 1 to k. */
  function Inner(f: real -> real, left: real, step: real, k: nat): real {
    if k == 0 then 0.0 else Inner(f, left, step, k - 1) + At(f, left, step, k)
  }

  /** The panels telescope: the inner points count fully, the two outer ones by half. */
  lemma {:induction false} Telescopes(f: real -> real, left: real, step: real, k: nat)
    requires k >= 1
    ensures Trapezoid(f, left, step, k) ==
              step * (At(f, left, step, 0) / 2.0 + Inner(f, left, step, k - 1) + At(f, left, step, k) / 2.0)
  {
    if k == 1 {
      assert Trapezoid(f, left, step, 0) == 0.0;
    } else {
      Telescopes(f, left, step, k - 1);
      var first, inner := At(f, left, step, 0) / 2.0, Inner(f, left, step, k - 2);
      var p, q := At(f, left, step, k - 1), At(f, left, step, k);
      Distribute(step, first + inner + p / 2.0, p / 2.0 + q / 2.0);
      Distribute(step / 2.0, q, p);
      assert step * (q + p) / 2.0 == step * (p / 2.0 + q / 2.0);
    }
  }

  lemma Distribute(s: real, x: real, y: real)
    ensures s * (x + y) == s * x + s * y
  {
  }

  /** The panel the loop does not reach. */
  lemma LastPanel(f: real -> real, left: real, right: real)
    ensures var step := (right - left) / SEGMENTATION as real;
            Trapezoid(f, left, step, SEGMENTATION)
              == OneInterval(f, left, right) + step * (f(right) + f(right - step)) / 2.0
  {
    var n := SEGMENTATION as real;
    var step := (right - left) / n;
    assert step * n == right - left;
    assert left + n * step == right;
    assert (SEGMENTATION - 1) as real * step == n * step - step;
    assert Panel(f, left, step, SEGMENTATION) == step * (f(right) + f(right - step)) / 2.0;
  }

  /** The loop stops one panel short of the trapezoid sum over the segment: it gives that sum
      exactly when the last panel has no area. */
  lemma LastPanelMissing(f: real -> real, left: real, right: real)
    ensures var step := (right - left) / SEGMENTATION as real;
            OneInterval(f, left, right) == Trapezoid(f, left, step, SEGMENTATION) <==>
              left == right || f(right - step) + f(right) == 0.0
  {
    LastPanel(f, left, right);
    var step := (right - left) / SEGMENTATION as real;
    var sum := f(right) + f(right - step);
    assert step * sum == 0.0 <==> step == 0.0 || sum == 0.0;
  }

  /** For instance, for the constant 1 the sum of every segment of the program is wrong. */
  lemma LastPanelOfConstant(i: nat)
    requires i < SEGMENT_NUMBER
    ensures var seg := Tiles(LEFT_CORNER, RIGHT_CORNER - LEFT_CORNER, SEGMENT_NUMBER)[i];
            OneInterval(x => 1.0, seg.left, seg.right)
              != Trapezoid(x => 1.0, seg.left, (seg.right - seg.left) / SEGMENTATION as real, SEGMENTATION)
  {
    TilesTheInterval(LEFT_CORNER, RIGHT_CORNER - LEFT_CORNER, SEGMENT_NUMBER);
    var seg := Tiles(LEFT_CORNER, RIGHT_CORNER - LEFT_CORNER, SEGMENT_NUMBER)[i];
    LastPanelMissing(x => 1.0, seg.left, seg.right);
  }

  /** And for every integrand that is positive from 0.5 to 1, as sin(1/x) is, the sum of the
      program's last segment falls short. */
  lemma LastSegmentFallsShort(f: real -> real)
    requires forall x :: 0.5 <= x <= 1.0 ==> f(x) > 0.0
    ensures var seg := Tiles(LEFT_CORNER, RIGHT_CORNER - LEFT_CORNER, SEGMENT_NUMBER)[SEGMENT_NUMBER - 1];
            OneInterval(f, seg.left, seg.right)
              < Trapezoid(f, seg.left, (seg.right - seg.left) / SEGMENTATION as real, SEGMENTATION)
  {
    var seg := Tiles(LEFT_CORNER, RIGHT_CORNER - LEFT_CORNER, SEGMENT_NUMBER)[SEGMENT_NUMBER - 1];
    var step := (seg.right - seg.left) / SEGMENTATION as real;
    assert Halved(RIGHT_CORNER - LEFT_CORNER, 1) == Halved(RIGHT_CORNER - LEFT_CORNER, 0) / 2.0 == 0.4995;
    assert seg == Interval(0.5005, 1.0);
    LastPanel(f, seg.left, seg.right);
    assert 0.5 <= seg.right - step <= 1.0;
    var sum := f(seg.right) + f(seg.right - step);
    assert step * sum > 0.0;
  }

  // The sum against the integral, without the vocabulary of the loop.

  /** The trapezoid of width step that begins at x. */
  function Area(f: real -> real, x: real, step: real): real {
    step * (f(x + step) + f(x)) / 2.0
  }

  /** Over a panel of width step that begins at x in [left, right], the trapezoid is within p of what
      F gains. */
  ghost predicate Tracks(f: real -> real, F: real -> real, left: real, right: real, step: real, p: real) {
    forall x {:trigger Area(f, x, step)} :: left <= x <= right ==> Abs(Area(f, x, step) - (F(x + step) - F(x))) <= p
  }

  lemma {:induction false} TimesNonNegative(k: nat, x: real)
    requires x >= 0.0
    ensures Times(k, x) >= 0.0
  {
    if k > 0 {
      TimesNonNegative(k - 1, x);
    }
  }

  lemma PointAt(f: real -> real, left: real, step: real, k: nat)
    ensures At(f, left, step, k) == f(left + Times(k, step))
  {
    TimesIsProduct(k, step);
  }

  /** Panel k, by the points it lies between. */
  lemma PanelAt(f: real -> real, left: real, step: real, k: nat)
    requires k >= 1
    ensures Panel(f, left, step, k) == Area(f, left + Times(k - 1, step), step)
  {
    PointAt(f, left, step, k);
    PointAt(f, left, step, k - 1);
    assert left + Times(k, step) == left + Times(k - 1, step) + step;
  }

  /** One more panel. */
  lemma NextPanel(t: real, a: real, g: real, g': real, e: real, p: real)
    requires Abs(t - g) <= e && Abs(a - g') <= p
    ensures Abs(t + a - (g + g')) <= e + p
  {
  }

  /** k panels against the gain of F over them. */
  lemma {:induction false} PanelsError(f: real -> real, F: real -> real, left: real, right: real, step: real, k: nat, p: real)
    requires step >= 0.0 && left + Times(k, step) <= right && Tracks(f, F, left, right, step, p)
    ensures Abs(Trapezoid(f, left, step, k) - (F(left + Times(k, step)) - F(left))) <= Times(k, p)
  {
    if k > 0 {
      PanelsError(f, F, left, right, step, k - 1, p);
      TimesNonNegative(k - 1, step);
      PanelAt(f, left, step, k);
      var x := left + Times(k - 1, step);
      NextPanel(Trapezoid(f, left, step, k - 1), Area(f, x, step), F(x) - F(left), F(x + step) - F(x), Times(k - 1, p), p);
    }
  }

  lemma TrapezoidError(f: real -> real, F: real -> real, left: real, right: real, step: real, k: nat, p: real)
    requires step >= 0.0 && left + k as real * step <= right && Tracks(f, F, left, right, step, p)
    ensures Abs(Trapezoid(f, left, step, k) - (F(left + k as real * step) - F(left))) <= k as real * p
  {
    TimesIsProduct(k, step);
    TimesIsProduct(k, p);
    PanelsError(f, F, left, right, step, k, p);
  }

  /** n panels but the last. */
  lemma AllButOneError(f: real -> real, F: real -> real, left: real, right: real, n: nat, step: real, p: real)
    requires n >= 1 && step >= 0.0 && n as real * step == right - left && Tracks(f, F, left, right, step, p)
    ensures Abs(Trapezoid(f, left, step, n - 1) - (F(right - step) - F(left))) <= (n - 1) as real * p
  {
    TimesIsProduct(n, step);
    assert left + Times(n - 1, step) == right - step;
    PanelsError(f, F, left, right, step, n - 1, p);
    TimesIsProduct(n - 1, p);
  }

  lemma StepsFill(length: real, n: nat)
    requires n >= 1
    ensures n as real * (length / n as real) == length
    ensures length >= 0.0 ==> length / n as real >= 0.0
  {
  }

  /** What cOneInterval computes, against the gain of F from left to one panel before right. */
  lemma OneIntervalError(f: real -> real, F: real -> real, left: real, right: real, p: real)
    requires left <= right && Tracks(f, F, left, right, (right - left) / SEGMENTATION as real, p)
    ensures var step := (right - left) / SEGMENTATION as real;
            Abs(OneInterval(f, left, right) - (F(right - step) - F(left))) <= (SEGMENTATION - 1) as real * p
  {
    StepsFill(right - left, SEGMENTATION);
    AllButOneError(f, F, left, right, SEGMENTATION, (right - left) / SEGMENTATION as real, p);
  }

  // The threads.

  /** What thread id adds up, from segment k on. */
  function Strided(v: seq<real>, k: nat, stride: nat): real
    requires stride >= 1
    decreases |v| - k
  {
    if k >= |v| then 0.0 else v[k] + Strided(v, k + stride, stride)
  }

  /** The segments of a thread, from segment k on. */
  function Indices(n: nat, k: nat, stride: nat): seq<nat>
    requires stride >= 1
    decreases n - k
  {
    if k >= n then [] else [k] + Indices(n, k + stride, stride)
  }

  lemma ModShift(a: nat, b: nat, stride: nat)
    requires stride >= 1
    ensures (a + stride) % stride == a % stride
    ensures a < b < a + stride ==> a % stride != b % stride
  {
    var q := a / stride;
    assert a == q * stride + a % stride;
    ModOf(a + stride, q + 1, a % stride, stride);
    if a < b < a + stride {
      var r := a % stride + (b - a);
      if r < stride {
        ModOf(b, q, r, stride);
      } else {
        ModOf(b, q + 1, r - stride, stride);
      }
    }
  }

  /** Among segments from k on, those of the thread are those with the remainder of k. */
  lemma {:induction false} IndicesAre(n: nat, k: nat, stride: nat, x: nat)
    requires stride >= 1
    ensures x in Indices(n, k, stride) <==> k <= x < n && x % stride == k % stride
    decreases n - k
  {
    if k < n {
      IndicesAre(n, k + stride, stride, x);
      ModShift(k, x, stride);
    }
  }

  /** Each segment is processed by exactly one thread: x % stride. */
  lemma ExactlyOneThread(n: nat, stride: nat, x: nat, id: nat)
    requires stride >= 1 && x < n && id < stride
    ensures x in Indices(n, id, stride) <==> id == x % stride
  {
    IndicesAre(n, id, stride, x);
    ModOf(id, 0, id, stride);
    if id == x % stride && x < id {
      ModOf(x, 0, x, stride);
    }
  }

  function SumFrom(v: seq<real>, k: nat): real
    decreases |v| - k
  {
    if k >= |v| then 0.0 else v[k] + SumFrom(v, k + 1)
  }

  /** What the first m threads add up, each from its segment number k + id on. */
  function Joined(v: seq<real>, k: nat, m: nat, stride: nat): real
    requires stride >= 1
  {
    if m == 0 then 0.0 else Joined(v, k, m - 1, stride) + Strided(v, k + m - 1, stride)
  }

  /** One segment of each of the m threads, and the rest. */
  lemma {:induction false} FirstRound(v: seq<real>, k: nat, m: nat, stride: nat)
    requires stride >= 1
    ensures Joined(v, k, m, stride) == SumFrom(v, k) - SumFrom(v, k + m) + Joined(v, k + stride, m, stride)
  {
    if m > 0 {
      FirstRound(v, k, m - 1, stride);
      assert k + m - 1 + stride == k + stride + m - 1;
    }
  }

  lemma {:induction false} JoinedIsSum(v: seq<real>, k: nat, stride: nat)
    requires stride >= 1
    ensures Joined(v, k, stride, stride) == SumFrom(v, k)
    decreases |v| - k
  {
    FirstRound(v, k, stride, stride);
    if k < |v| {
      JoinedIsSum(v, k + stride, stride);
    } else {
      NothingLeft(v, k, stride, stride);
    }
  }

  lemma {:induction false} NothingLeft(v: seq<real>, k: nat, m: nat, stride: nat)
    requires stride >= 1 && k >= |v|
    ensures Joined(v, k, m, stride) == 0.0
  {
    if m > 0 {
      NothingLeft(v, k, m - 1, stride);
    }
  }

  /** The joined total does not depend on how many threads there are. */
  lemma TotalIgnoresThreads(v: seq<real>, threads: nat, others: nat)
    requires threads >= 1 && others >= 1
    ensures Joined(v, 0, threads, threads) == Joined(v, 0, others, others)
  {
    JoinedIsSum(v, 0, threads);
    JoinedIsSum(v, 0, others);
  }

  /** cOneInterval of each segment. */
  function Values(f: real -> real, ranges: seq<Interval>): (v: seq<real>) {
    seq(|ranges|, i requires 0 <= i < |ranges| => OneInterval(f, ranges[i].left, ranges[i].right))
  }

  /** v[i] is within e of what F gains over range[i]. */
  ghost predicate Near(v: seq<real>, range: seq<Interval>, F: real -> real, e: real, i: int)
    requires 0 <= i < |v| == |range|
  {
    Abs(v[i] - (F(range[i].right) - F(range[i].left))) <= e
  }

  ghost predicate Chained(range: seq<Interval>) {
    forall i :: 0 < i < |range| ==> range[i].left == range[i - 1].right
  }

  /** If the value of every segment is within e of what F gains over it, the total is within n times e
      of what F gains over all of them. */
  lemma {:induction false} TotalError(v: seq<real>, range: seq<Interval>, F: real -> real, k: nat, e: real)
    requires k < |v| == |range| && Chained(range)
    requires forall i {:trigger Near(v, range, F, e, i)} :: 0 <= i < |v| ==> Near(v, range, F, e, i)
    ensures Abs(SumFrom(v, k) - (F(range[|v| - 1].right) - F(range[k].left))) <= Times(|v| - k, e)
    decreases |v| - k
  {
    assert Near(v, range, F, e, k);
    if k == |v| - 1 {
      assert SumFrom(v, k + 1) == 0.0;
      assert Times(1, e) == e;
    } else {
      TotalError(v, range, F, k + 1, e);
      assert range[k + 1].left == range[k].right;
    }
  }

  /** The segments of the program. */
  function ProgramSegments(): (range: seq<Interval>)
    ensures |range| == SEGMENT_NUMBER
  {
    Tiles(LEFT_CORNER, RIGHT_CORNER - LEFT_CORNER, SEGMENT_NUMBER)
  }

  /** Segment i of the program. */
  function Segment(i: int): Interval
    requires 0 <= i < SEGMENT_NUMBER
  {
    ProgramSegments()[i]
  }

  function ProgramValues(f: real -> real): (v: seq<real>)
    ensures |v| == SEGMENT_NUMBER
    ensures forall i :: 0 <= i < |v| ==> v[i] == OneInterval(f, Segment(i).left, Segment(i).right)
  {
    Values(f, ProgramSegments())
  }

  lemma ProgramTiles()
    ensures ProgramSegments()[0].left == 0.001 && ProgramSegments()[SEGMENT_NUMBER - 1].right == 1.0
    ensures Chained(ProgramSegments())
    ensures forall i :: 0 <= i < SEGMENT_NUMBER ==> Segment(i).left < Segment(i).right
  {
    TilesTheInterval(LEFT_CORNER, RIGHT_CORNER - LEFT_CORNER, SEGMENT_NUMBER);
  }

  /** Segment i is tracked: F gains at most m over its last panel, and the panels track F within p. */
  ghost predicate SegmentTracks(f: real -> real, F: real -> real, p: real, m: real, i: int)
    requires 0 <= i < SEGMENT_NUMBER
  {
    var step := (Segment(i).right - Segment(i).left) / SEGMENTATION as real;
    && Tracks(f, F, Segment(i).left, Segment(i).right, step, p)
    && Abs(F(Segment(i).right) - F(Segment(i).right - step)) <= m
  }

  lemma SegmentError(f: real -> real, F: real -> real, p: real, m: real, i: nat)
    requires i < SEGMENT_NUMBER && SegmentTracks(f, F, p, m, i)
    ensures Near(ProgramValues(f), ProgramSegments(), F, 99999999.0 * p + m, i)
  {
    ProgramTiles();
    OneIntervalError(f, F, Segment(i).left, Segment(i).right, p);
  }

  lemma ProgramTotal(v: seq<real>, F: real -> real, e: real)
    requires |v| == SEGMENT_NUMBER
    requires forall i {:trigger Near(v, ProgramSegments(), F, e, i)} :: 0 <= i < |v| ==> Near(v, ProgramSegments(), F, e, i)
    ensures Abs(SumFrom(v, 0) - (F(1.0) - F(0.001))) <= 20.0 * e
  {
    ProgramTiles();
    TotalError(v, ProgramSegments(), F, 0, e);
    TimesIsProduct(|v|, e);
  }

  /** What the program computes, against the integral: if over every segment the panels track F
      within p and F gains at most m over the last one, the total is within this bound of what F
      gains from 0.001 to 1. */
  lemma ProgramError(f: real -> real, F: real -> real, p: real, m: real)
    requires forall i {:trigger SegmentTracks(f, F, p, m, i)} :: 0 <= i < SEGMENT_NUMBER ==> SegmentTracks(f, F, p, m, i)
    ensures Abs(SumFrom(ProgramValues(f), 0) - (F(1.0) - F(0.001))) <= 20.0 * (99999999.0 * p + m)
  {
    var e := 99999999.0 * p + m;
    forall i | 0 <= i < SEGMENT_NUMBER ensures Near(ProgramValues(f), ProgramSegments(), F, e, i) {
      SegmentError(f, F, p, m, i);
    }
    ProgramTotal(ProgramValues(f), F, e);
  }

  lemma OneOfSegment(i: nat)
    requires i < SEGMENT_NUMBER
    ensures ProgramValues(x => 1.0)[i] == (Segment(i).right - Segment(i).left) * 0.99999999
  {
    ProgramTiles();
    OneIntervalError(x => 1.0, x => x, Segment(i).left, Segment(i).right, 0.0);
  }

  /** For the constant 1 the program's total is exactly this, a hundred-millionth less than 0.999. */
  lemma TotalOfOne()
    ensures SumFrom(ProgramValues(x => 1.0), 0) == 0.99899999001
  {
    var v, G := ProgramValues(x => 1.0), (x: real) => x * 0.99999999;
    forall i | 0 <= i < SEGMENT_NUMBER ensures Near(v, ProgramSegments(), G, 0.0, i) {
      OneOfSegment(i);
    }
    ProgramTotal(v, G, 0.0);
  }

  lemma {:induction false} HalvedAtMost(length: real, k: nat)
    requires length > 0.0
    ensures Halved(length, k) <= length
  {
    if k > 0 {
      HalvedAtMost(length, k - 1);
      HalvedPositive(length, k - 1);
    }
  }

  lemma SegmentInside(i: nat)
    requires i < SEGMENT_NUMBER
    ensures 0.001 <= Segment(i).left < Segment(i).right <= 1.0
  {
    ProgramTiles();
    HalvedAtMost(RIGHT_CORNER - LEFT_CORNER, SEGMENT_NUMBER - 1 - i);
    if i > 0 {
      HalvedPositive(RIGHT_CORNER - LEFT_CORNER, SEGMENT_NUMBER - i);
    }
  }

  function Identity(x: real): real {
    x
  }

  /** A primitive of the identity. */
  function HalfSquare(x: real): real {
    x * x / 2.0
  }

  lemma IdentityArea(x: real, step: real)
    ensures Area(Identity, x, step) == HalfSquare(x + step) - HalfSquare(x)
  {
    assert (x + step) * (x + step) == x * x + 2.0 * (x * step) + step * step;
    Distribute(step, x + step, x);
    Distribute(step, x, step);
    assert Identity(x + step) + Identity(x) == x + step + x;
  }

  lemma HalfSquareDifference(x: real, step: real)
    ensures HalfSquare(x) - HalfSquare(x - step) == step * (x - step / 2.0)
  {
  }

  lemma PartOf(c: real, m: real, step: real)
    requires c == step * m && 0.0 <= m <= 1.0 && step >= 0.0
    ensures 0.0 <= c <= step
  {
    ProductOrder(m, 1.0, step);
    ProductSign(step, m);
  }

  lemma HalfSquareGain(x: real, step: real)
    requires 0.0 <= step <= x <= 1.0
    ensures 0.0 <= HalfSquare(x) - HalfSquare(x - step) <= step
  {
    HalfSquareDifference(x, step);
    PartOf(HalfSquare(x) - HalfSquare(x - step), x - step / 2.0, step);
  }

  lemma IdentityTracks(left: real, right: real, step: real)
    ensures Tracks(Identity, HalfSquare, left, right, step, 0.0)
  {
    forall x {:trigger Area(Identity, x, step)} | left <= x <= right
      ensures Abs(Area(Identity, x, step) - (HalfSquare(x + step) - HalfSquare(x))) <= 0.0
    {
      IdentityArea(x, step);
    }
  }

  lemma LastStep(left: real, right: real)
    requires 0.001 <= left < right <= 1.0
    ensures 0.0 <= (right - left) / SEGMENTATION as real <= 0.00000001
  {
  }

  lemma IdentitySegment(i: nat)
    requires i < SEGMENT_NUMBER
    ensures SegmentTracks(Identity, HalfSquare, 0.0, 0.00000001, i)
  {
    SegmentInside(i);
    var left, right := Segment(i).left, Segment(i).right;
    LastStep(left, right);
    IdentityTracks(left, right, (right - left) / SEGMENTATION as real);
    HalfSquareGain(right, (right - left) / SEGMENTATION as real);
  }

  /** For the identity the panels have no error, and the total is this close to the integral. */
  lemma TotalOfIdentity()
    ensures Abs(SumFrom(ProgramValues(Identity), 0) - 0.4999995) <= 0.0000002
  {
    forall i | 0 <= i < SEGMENT_NUMBER ensures SegmentTracks(Identity, HalfSquare, 0.0, 0.00000001, i) {
      IdentitySegment(i);
    }
    ProgramError(Identity, HalfSquare, 0.0, 0.00000001);
  }

  /** A bound on the steps of a thread that has got to segment index. */
  function StepsLeft(index: nat): nat {
    if index < SEGMENT_NUMBER then SEGMENT_NUMBER - index + 1 else 1
  }

  /** One round of the loop of cRoutine, or its end: the thread writes its own cell of the results. */
  method CRoutineStep(f: real -> real, id: nat, thNumber: nat, ranges: array<Interval>, results: array<real>, index: nat, res: real)
    returns (index': nat, res': real, more: bool)
    requires thNumber >= 1 && id < results.Length && ranges.Length == SEGMENT_NUMBER
    modifies results
    ensures var v := Values(f, old(ranges[..]));
            if index < SEGMENT_NUMBER then
              && more && index' == index + thNumber && results[..] == old(results[..])
              && res' + Strided(v, index', thNumber) == res + Strided(v, index, thNumber)
            else
              !more && results[..] == old(results[..])[id := res + Strided(v, index, thNumber)]
  {
    ghost var v := Values(f, ranges[..]);
    index', res', more := index, res, index < SEGMENT_NUMBER;
    if more {
      var one := COneInterval(f, ranges[index].left, ranges[index].right);
      assert v[index] == one;
      res' := res + one;
      index' := index + thNumber;
    } else {
      results[id] := res;
    }
  }

  /** cRoutine, when no other thread runs. */
  method CRoutine(f: real -> real, id: nat, thNumber: nat, ranges: array<Interval>, results: array<real>)
    requires thNumber >= 1 && id < results.Length && ranges.Length == SEGMENT_NUMBER
    modifies results
    ensures results[..] == old(results[..])[id := Strided(Values(f, ranges[..]), id, thNumber)]
  {
    ghost var v := Values(f, ranges[..]);
    var index, res, more := id, 0.0, true;
    while more
      invariant ranges[..] == old(ranges[..])
      invariant more ==> results[..] == old(results[..]) && res + Strided(v, index, thNumber) == Strided(v, id, thNumber)
      invariant !more ==> results[..] == old(results[..])[id := Strided(v, id, thNumber)]
      decreases more, StepsLeft(index)
    {
      index, res, more := CRoutineStep(f, id, thNumber, ranges, results, index, res);
    }
  }

  /** The threads run at the same time: any of them may do the next segment of its own. */
  method RunThreads(f: real -> real, thNumber: nat, ranges: array<Interval>, results: array<real>)
    requires thNumber >= 1 && results.Length == thNumber && ranges.Length == SEGMENT_NUMBER
    modifies results
    ensures forall j :: 0 <= j < thNumber ==> results[j] == Strided(Values(f, old(ranges[..])), j, thNumber)
  {
    ghost var v := Values(f, ranges[..]);
    var running, sums, at := seq(thNumber, _ => true), seq(thNumber, _ => 0.0), seq(thNumber, j => j);
    ghost var todo: seq<nat> := seq(thNumber, (j: nat) => StepsLeft(j));
    while exists j :: 0 <= j < thNumber && running[j]
      invariant |running| == |sums| == |at| == |todo| == thNumber && ranges[..] == old(ranges[..])
      invariant forall j {:trigger running[j]} :: 0 <= j < thNumber ==>
                  if running[j] then
                    at[j] >= 0 && todo[j] == StepsLeft(at[j]) && sums[j] + Strided(v, at[j], thNumber) == Strided(v, j, thNumber)
                  else results[..][j] == Strided(v, j, thNumber)
      decreases Work(todo)
    {
      var j :| 0 <= j < thNumber && running[j];
      var index, res, more := CRoutineStep(f, j, thNumber, ranges, results, at[j], sums[j]);
      ghost var left := if more then StepsLeft(index) else 0;
      WorkDrops(todo, j, left);
      running, sums, at := running[j := more], sums[j := res], at[j := index];
      todo := todo[j := left];
    }
    forall j | 0 <= j < thNumber ensures results[j] == Strided(v, j, thNumber) {
      assert !running[j] && results[..][j] == Strided(v, j, thNumber);
    }
  }

  /** main: create the threads, join them, add up. */
  method Calculate(f: real -> real, thNumber: nat) returns (res: real)
    requires thNumber >= 1
    ensures res == SumFrom(ProgramValues(f), 0)
  {
    var intervals := CreateIntervalSegmentation();
    ghost var v := Values(f, intervals[..]);
    var results := new real[thNumber];
    RunThreads(f, thNumber, intervals, results);
    res := 0.0;
    var i := 0;
    while i != thNumber
      invariant 0 <= i <= thNumber && res == Joined(v, 0, i, thNumber)
      decreases thNumber - i
    {
      res := res + results[i];
      i := i + 1;
    }
    JoinedIsSum(v, 0, thNumber);
  }
}
