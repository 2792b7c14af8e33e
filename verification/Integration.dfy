/** The numeric part of supercomputerCalculations (TaskLocal.h, Thread.h), over the reals: how far
    the sum a worker sends back is from the integral of x^2 over its task. */
module Integration {
  import opened Common
  import opened Reals
  import opened TaskQueue
  import opened TaskSystem
  import opened TaskSystemTheorems

  /** A primitive of x^2. */
  function Cubic(x: real): real {
    x * x * x / 3.0
  }

  /** The k-th point of the loop. */
  function Point(a: real, d: real, k: nat): real {
    a + Times(k, d)
  }

  /** What one point contributes. */
  function Weight(d: real): real -> real {
    x => x * x * d
  }

  /** g summed over the first k points. */
  function Left(g: real -> real, a: real, d: real, k: nat): real {
    if k == 0 then 0.0 else Left(g, a, d, k - 1) + g(Point(a, d, k - 1))
  }

  /** How many points lie in [a, b]. */
  function Points(a: real, b: real, d: real): nat
    requires d > 0.0
  {
    if b < a then 0 else
    assert (b - a) / d >= 0.0;
    ((b - a) / d).Floor + 1
  }

  /** k steps of length d fit into w, which is z steps long, exactly if k is at most z. */
  lemma StepsFit(k: nat, d: real, w: real, z: real)
    requires d > 0.0 && w == z * d
    ensures Times(k, d) <= w <==> k as real <= z
  {
    TimesIsProduct(k, d);
    ProductsCompare(k as real, z, d, Times(k, d), w);
  }

  /** Point k is inside the interval exactly if it is one of the Points. */
  lemma PointsFit(a: real, b: real, d: real, k: nat)
    requires d > 0.0
    ensures Point(a, d, k) <= b <==> k < Points(a, b, d)
  {
    if a <= b {
      var z := (b - a) / d;
      StepsFit(k, d, b - a, z);
      assert k as real <= z <==> k <= z.Floor;
    } else {
      TimesIsProduct(k, d);
      ProductOrder(0.0, k as real, d);
    }
  }

  /** `Task_create`: a task as a worker splits it among its threads. */
  datatype TaskLocal = TaskLocal(begin: real, end: real, del: real, desc: real, threadsCount: nat)

  function TaskCreate(threadsCount: nat, begin: real, end: real, desc: real): (t: TaskLocal)
    requires threadsCount >= 1
    ensures t.del * threadsCount as real == end - begin
  {
    TaskLocal(begin, end, (end - begin) / threadsCount as real, desc, threadsCount)
  }

  /** Where the interval of thread i begins, and that of thread i - 1 ends. */
  function Corner(task: TaskLocal, i: nat): real {
    task.begin + i as real * task.del
  }

  // One cache line and the loop of one thread.

  class CacheLine {
    var out: real
    var begin: real
    var end: real
    var desc: real

    /** Task_Get(TASK, i) */
    constructor (task: TaskLocal, i: nat)
      requires i < task.threadsCount
      ensures begin == Corner(task, i) && end == Corner(task, i + 1)
      ensures desc == task.desc
    {
      out := 0.0;
      begin := task.begin + i as real * task.del;
      end := task.begin + (i + 1) as real * task.del;
      desc := task.desc;
    }
  }

  /** The loop visits exactly the points of [begin, end] and leaves begin behind the last one. */
  method Integrate(line: CacheLine)
    requires line.desc > 0.0
    modifies line`out, line`begin
    ensures line.out == Left(Weight(line.desc), old(line.begin), line.desc, Points(old(line.begin), line.end, line.desc))
    ensures line.begin == Point(old(line.begin), line.desc, Points(old(line.begin), line.end, line.desc))
  {
    var sum := 0.0;
    var desc := line.desc;
    ghost var a := line.begin;
    ghost var n := Points(a, line.end, desc);
    ghost var k: nat := 0;
    while line.begin <= line.end
      invariant k <= n && line.begin == Point(a, desc, k) && sum == Left(Weight(desc), a, desc, k)
      decreases n - k
    {
      PointsFit(a, line.end, desc, k);
      sum := sum + line.begin * line.begin * desc;
      line.begin := line.begin + desc;
      k := k + 1;
    }
    PointsFit(a, line.end, desc, k);
    line.out := sum;
  }

  // The error of one line, for any integrand g that tracks the increments of f.

  /** g(x) is within p of what f gains over the panel at x. */
  ghost predicate Tracks(f: real -> real, g: real -> real, a: real, b: real, d: real, p: real) {
    forall x: real :: a <= x <= b ==> Abs(g(x) - (f(x + d) - f(x))) <= p
  }

  lemma {:induction false} LeftError(f: real -> real, g: real -> real, a: real, b: real, d: real, p: real, k: nat)
    requires d > 0.0 && Tracks(f, g, a, b, d, p) && (k > 0 ==> Point(a, d, k - 1) <= b)
    ensures a <= Point(a, d, k)
    ensures Abs(Left(g, a, d, k) - (f(Point(a, d, k)) - f(a))) <= Times(k, p)
  {
    if k > 0 {
      LeftError(f, g, a, b, d, p, k - 1);
      var x := Point(a, d, k - 1);
      assert Abs(g(x) - (f(x + d) - f(x))) <= p;
    }
  }

  /** The last point visited lies in the interval, the next one does not. */
  lemma LastPoint(a: real, b: real, d: real)
    requires a <= b && d > 0.0
    ensures Points(a, b, d) >= 1
    ensures Point(a, d, Points(a, b, d) - 1) <= b < Point(a, d, Points(a, b, d)) <= b + d
    ensures Times(Points(a, b, d), d) <= b - a + d
  {
    var k := Points(a, b, d);
    PointsFit(a, b, d, 0);
    PointsFit(a, b, d, k - 1);
    PointsFit(a, b, d, k);
  }

  /** The loop's sum over [a, b] against f(b) - f(a): a panel error per point, and what f gains
      between b and the first point behind it. */
  lemma SumError(f: real -> real, g: real -> real, a: real, b: real, d: real, p: real, e: real)
    requires a <= b && d > 0.0 && Tracks(f, g, a, b, d, p)
    requires Overshoots(f, b, d, e)
    ensures Abs(Left(g, a, d, Points(a, b, d)) - (f(b) - f(a))) <= e + Times(Points(a, b, d), p)
  {
    var k := Points(a, b, d);
    LastPoint(a, b, d);
    LeftError(f, g, a, b, d, p, k);
    var y := Point(a, d, k);
    assert Abs(f(y) - f(b)) <= e;
  }

  // The case of x^2.

  /** The largest error of one panel of width d at a point within M of zero, per unit of width. */
  function Slope(M: real, d: real): real {
    M * d + d * d / 3.0
  }

  lemma CubicStep(x: real, d: real)
    ensures Weight(d)(x) - (Cubic(x + d) - Cubic(x)) == -(x * (d * d) + d * (d * d) / 3.0)
  {
    assert (x + d) * (x + d) == x * x + 2.0 * (x * d) + d * d;
    assert (x + d) * (x + d) * (x + d) == (x * x + 2.0 * (x * d) + d * d) * x + (x * x + 2.0 * (x * d) + d * d) * d;
  }

  lemma PanelError(x: real, d: real, M: real)
    requires d > 0.0 && Abs(x) <= M
    ensures Abs(Weight(d)(x) - (Cubic(x + d) - Cubic(x))) <= d * Slope(M, d)
  {
    CubicStep(x, d);
    SlopeBound(x, d, M);
  }

  lemma SlopeBound(x: real, d: real, M: real)
    requires d > 0.0 && Abs(x) <= M
    ensures Abs(-(x * (d * d) + d * (d * d) / 3.0)) <= d * Slope(M, d)
  {
    var dd := d * d;
    ProductSign(d, d);
    ProductSign(d, dd);
    ProductOrder(-M, x, dd);
    ProductOrder(x, M, dd);
    assert d * Slope(M, d) == M * dd + d * dd / 3.0;
  }

  lemma SquareBound(x: real, y: real, m: real)
    requires Abs(x) <= m && Abs(y) <= m
    ensures -m * m <= x * y <= m * m
  {
    assert m * m - x * y == ((m - x) * (m + y) + (m + x) * (m - y)) / 2.0;
    assert m * m + x * y == ((m - x) * (m - y) + (m + x) * (m + y)) / 2.0;
    ProductSign(m - x, m + y);
    ProductSign(m + x, m - y);
    ProductSign(m - x, m - y);
    ProductSign(m + x, m + y);
  }

  /** The mean of x^2 between b and y. */
  function Mean(y: real, b: real): real {
    (y * y + y * b + b * b) / 3.0
  }

  lemma MeanBound(y: real, b: real, m: real)
    requires Abs(y) <= m && Abs(b) <= m
    ensures -m * m <= Mean(y, b) <= m * m
  {
    SquareBound(y, y, m);
    SquareBound(y, b, m);
    SquareBound(b, b, m);
  }

  lemma CubeDifference(y: real, b: real)
    ensures Cubic(y) - Cubic(b) == (y - b) * Mean(y, b)
  {
  }

  lemma ProductBound(c: real, e: real, q: real, d: real, m: real)
    requires c == e * q && 0.0 <= e <= d && -m <= q <= m
    ensures Abs(c) <= d * m
  {
    ProductOrder(q, m, e);
    ProductOrder(-m, q, e);
    ProductOrder(e, d, m);
  }

  /** What the loop adds by passing the end of the interval. */
  lemma OvershootError(b: real, y: real, d: real, M: real)
    requires b < y <= b + d && Abs(b) <= M
    ensures Abs(Cubic(y) - Cubic(b)) <= d * ((M + d) * (M + d))
  {
    CubeDifference(y, b);
    MeanBound(y, b, M + d);
    ProductBound(Cubic(y) - Cubic(b), y - b, Mean(y, b), d, (M + d) * (M + d));
  }

  /** The bound for an interval of length w. */
  function LineBound(w: real, d: real, M: real): real {
    d * ((M + d) * (M + d)) + (w + d) * Slope(M, d)
  }

  lemma PanelsBound(k: nat, w: real, d: real, M: real)
    requires Times(k, d) <= w && d > 0.0 && M >= 0.0
    ensures Times(k, d * Slope(M, d)) <= w * Slope(M, d)
  {
    TimesIsProduct(k, d);
    TimesIsProduct(k, d * Slope(M, d));
    var r := Slope(M, d);
    ProductSign(M, d);
    ProductSign(d, d);
    assert k as real * (d * r) == (k as real * d) * r;
    ProductOrder(k as real * d, w, r);
  }

  lemma CubicTracks(a: real, b: real, d: real, M: real, p: real)
    requires d > 0.0 && Abs(a) <= M && Abs(b) <= M && p == d * Slope(M, d)
    ensures Tracks(Cubic, Weight(d), a, b, d, p)
  {
    forall x: real | a <= x <= b ensures Abs(Weight(d)(x) - (Cubic(x + d) - Cubic(x))) <= p {
      PanelError(x, d, M);
    }
  }

  ghost predicate Overshoots(f: real -> real, b: real, d: real, e: real) {
    forall y: real :: b < y <= b + d ==> Abs(f(y) - f(b)) <= e
  }

  lemma CubicOvershoots(b: real, d: real, M: real, e: real)
    requires Abs(b) <= M && e == d * ((M + d) * (M + d))
    ensures Overshoots(Cubic, b, d, e)
  {
    forall y: real | b < y <= b + d ensures Abs(Cubic(y) - Cubic(b)) <= e {
      OvershootError(b, y, d, M);
    }
  }

  /** The error terms of the loop stay within the bound of the line. */
  lemma LineTerms(a: real, b: real, d: real, M: real)
    requires a <= b && d > 0.0 && M >= 0.0
    ensures d * ((M + d) * (M + d)) + Times(Points(a, b, d), d * Slope(M, d)) <= LineBound(b - a, d, M)
  {
    LastPoint(a, b, d);
    PanelsBound(Points(a, b, d), b - a + d, d, M);
  }

  lemma SumErrorWithin(f: real -> real, a: real, b: real, d: real, p: real, e: real, bound: real)
    requires a <= b && d > 0.0 && Tracks(f, Weight(d), a, b, d, p) && Overshoots(f, b, d, e)
    requires e + Times(Points(a, b, d), p) <= bound
    ensures Abs(Left(Weight(d), a, d, Points(a, b, d)) - (f(b) - f(a))) <= bound
  {
    SumError(f, Weight(d), a, b, d, p, e);
  }

  /** The sum of one thread against the integral of x^2 over its interval. */
  lemma LineError(a: real, b: real, d: real, M: real)
    requires a <= b && d > 0.0 && Abs(a) <= M && Abs(b) <= M
    ensures Abs(Left(Weight(d), a, d, Points(a, b, d)) - (Cubic(b) - Cubic(a))) <= LineBound(b - a, d, M)
  {
    CubicTracks(a, b, d, M, d * Slope(M, d));
    CubicOvershoots(b, d, M, d * ((M + d) * (M + d)));
    LineTerms(a, b, d, M);
    SumErrorWithin(Cubic, a, b, d, d * Slope(M, d), d * ((M + d) * (M + d)), LineBound(b - a, d, M));
  }

  // A whole task, and all tasks.

  /** What thread i of a worker sums. */
  function LineSum(task: TaskLocal, i: nat): real
    requires task.desc > 0.0
  {
    Left(Weight(task.desc), Corner(task, i), task.desc, Points(Corner(task, i), Corner(task, i + 1), task.desc))
  }

  /** What a worker answers: the sum over its threads. */
  function Answer(task: TaskLocal): real
    requires task.desc > 0.0
  {
    Total((i: nat) => LineSum(task, i), task.threadsCount)
  }

  ghost predicate Waiting(task: TaskLocal, line: CacheLine, i: nat)
    reads line
  {
    line.begin == Corner(task, i) && line.end == Corner(task, i + 1) && line.desc == task.desc
  }

  /** Create all: one cache line for each thread. */
  method CreateLines(task: TaskLocal) returns (lines: seq<CacheLine>)
    ensures |lines| == task.threadsCount
    ensures forall j :: 0 <= j < |lines| ==> fresh(lines[j]) && Waiting(task, lines[j], j)
    ensures forall j, k :: 0 <= j < k < |lines| ==> lines[j] != lines[k]
  {
    lines := [];
    var i := 0;
    while i != task.threadsCount
      invariant 0 <= i <= task.threadsCount && |lines| == i
      invariant forall j :: 0 <= j < i ==> fresh(lines[j]) && Waiting(task, lines[j], j)
      invariant forall j, k :: 0 <= j < k < i ==> lines[j] != lines[k]
    {
      var line := new CacheLine(task, i);
      lines := lines + [line];
      i := i + 1;
    }
  }

  /** Where thread i stands in its loop: k points summed up. */
  ghost predicate InLoop(task: TaskLocal, line: CacheLine, i: nat, sum: real, k: nat)
    requires task.desc > 0.0
    reads line
  {
    var a, b := Corner(task, i), Corner(task, i + 1);
    && line.end == b && line.desc == task.desc && k <= Points(a, b, task.desc)
    && line.begin == Point(a, task.desc, k) && sum == Left(Weight(task.desc), a, task.desc, k)
  }

  /** What thread i still has to do: its points, and leaving the loop. */
  ghost function PointsLeft(task: TaskLocal, i: nat, k: nat): nat
    requires task.desc > 0.0 && k <= Points(Corner(task, i), Corner(task, i + 1), task.desc)
  {
    Points(Corner(task, i), Corner(task, i + 1), task.desc) - k + 1
  }

  /** One round of the loop of thread i, or its end. */
  method ThreadStep(task: TaskLocal, line: CacheLine, sum: real, ghost i: nat, ghost k: nat) returns (sum': real, more: bool)
    requires task.desc > 0.0 && InLoop(task, line, i, sum, k)
    modifies line
    ensures if more then k + 1 <= Points(Corner(task, i), Corner(task, i + 1), task.desc) && InLoop(task, line, i, sum', k + 1)
            else line.out == LineSum(task, i)
  {
    PointsFit(Corner(task, i), line.end, task.desc, k);
    more := line.begin <= line.end;
    if more {
      sum' := sum + line.begin * line.begin * line.desc;
      line.begin := line.begin + line.desc;
    } else {
      sum' := sum;
      line.out := sum;
    }
  }

  /** The threads run at the same time, each in its own line: any of them may make the next round
      of its loop. */
  method RunThreads(task: TaskLocal, lines: seq<CacheLine>)
    requires task.desc > 0.0
    requires forall j :: 0 <= j < |lines| ==> Waiting(task, lines[j], j)
    requires forall j, k :: 0 <= j < k < |lines| ==> lines[j] != lines[k]
    modifies lines
    ensures forall j :: 0 <= j < |lines| ==> lines[j].out == LineSum(task, j)
  {
    var n := |lines|;
    var running, sums := seq(n, _ => true), seq(n, _ => 0.0);
    ghost var at: seq<nat> := seq(n, _ => 0);
    ghost var todo: seq<nat> := seq(n, j requires 0 <= j < n => PointsLeft(task, j, 0));
    while exists j :: 0 <= j < n && running[j]
      invariant |running| == |sums| == |at| == |todo| == n
      invariant forall j {:trigger running[j]} :: 0 <= j < n ==>
                  if running[j] then InLoop(task, lines[j], j, sums[j], at[j]) && todo[j] == PointsLeft(task, j, at[j])
                  else lines[j].out == LineSum(task, j)
      decreases Work(todo)
    {
      var j :| 0 <= j < n && running[j];
      var sum, more := ThreadStep(task, lines[j], sums[j], j, at[j]);
      ghost var left := if more then PointsLeft(task, j, at[j] + 1) else 0;
      WorkDrops(todo, j, left);
      running, sums := running[j := more], sums[j := sum];
      at, todo := at[j := at[j] + 1], todo[j := left];
    }
    forall j | 0 <= j < n ensures lines[j].out == LineSum(task, j) {
      assert !running[j];
    }
  }

  /** launch: create all, then join all and add up what the threads left in their lines. */
  method Launch(task: TaskLocal) returns (res: real)
    requires task.desc > 0.0
    ensures res == Answer(task)
  {
    var lines := CreateLines(task);
    RunThreads(task, lines);
    res := 0.0;
    ghost var f := (k: nat) => LineSum(task, k);
    var i := 0;
    while i != task.threadsCount
      invariant 0 <= i <= task.threadsCount
      invariant res == Total(f, i)
    {
      assert f(i) == LineSum(task, i);
      res := res + lines[i].out;
      i := i + 1;
    }
  }

  /** If every part of a sum is within e of what f gains over it, the sum is within n times e. */
  lemma {:induction false} PartsAdd(g: nat -> real, f: nat -> real, n: nat, e: real)
    requires forall i: nat :: i < n ==> Abs(g(i) - (f(i + 1) - f(i))) <= e
    ensures Abs(Total(g, n) - (f(n) - f(0))) <= Times(n, e)
  {
    if n > 0 {
      PartsAdd(g, f, n - 1, e);
      assert Abs(g(n - 1) - (f(n - 1 + 1) - f(n - 1))) <= e;
    }
  }

  /** The intervals of the threads lie in the interval of the task. */
  lemma CornersInside(task: TaskLocal, i: nat)
    requires i <= task.threadsCount && task.del * task.threadsCount as real == task.end - task.begin
    requires task.begin <= task.end && task.threadsCount >= 1
    ensures task.del >= 0.0 && task.begin <= Corner(task, i) <= task.end
    ensures Corner(task, 0) == task.begin && Corner(task, task.threadsCount) == task.end
    ensures Corner(task, i + 1) == Corner(task, i) + task.del
  {
    var n := task.threadsCount;
    FactorSign(task.del, n as real);
    ProductOrder(0.0, i as real, task.del);
    ProductOrder(i as real, n as real, task.del);
    OneMore(i, task.del);
    assert n as real * task.del == task.end - task.begin;
  }

  /** A worker's answer against the integral over its task: the bounds of its lines add up. */
  lemma AnswerError(threads: nat, begin: real, end: real, d: real, M: real)
    requires threads >= 1 && begin <= end && d > 0.0 && Abs(begin) <= M && Abs(end) <= M
    ensures Abs(Answer(TaskCreate(threads, begin, end, d)) - (Cubic(end) - Cubic(begin)))
         <= Times(threads, LineBound((end - begin) / threads as real, d, M))
  {
    var task := TaskCreate(threads, begin, end, d);
    var e := LineBound(task.del, d, M);
    var g := (i: nat) => LineSum(task, i);
    var f := (i: nat) => Cubic(Corner(task, i));
    forall i: nat | i < threads ensures Abs(g(i) - (f(i + 1) - f(i))) <= e {
      CornersInside(task, i);
      CornersInside(task, i + 1);
      LineError(Corner(task, i), Corner(task, i + 1), d, M);
    }
    PartsAdd(g, f, threads, e);
    CornersInside(task, 0);
  }

  /** Where task x of the queue begins, as the constructor of TasksQueue lays them out. */
  function TaskCorner(begin: real, end: real, count: nat, x: nat): real
    requires count >= 1
  {
    begin + (end - begin) / count as real * x as real
  }

  /** The tasks that GetTask hands out lie between these corners. */
  lemma TasksAreCorners(q: TasksQueue, x: nat)
    requires q.Valid() && x < q.tasksCount
    ensures q.tasks[x].begin == TaskCorner(q.begin, q.end, q.tasksCount, x)
    ensures q.tasks[x].end == TaskCorner(q.begin, q.end, q.tasksCount, x + 1)
    ensures q.tasks[x].del == q.step
  {
    var n := q.tasksCount as real;
    assert (q.end - q.begin) / n * n == q.end - q.begin;
    SameFactor(q.del, (q.end - q.begin) / n, n);
  }

  lemma SameFactor(x: real, y: real, n: real)
    requires n > 0.0 && x * n == y * n
    ensures x == y
  {
    assert (x - y) * n == 0.0;
  }

  /** A reply for task x that is within e of the integral over that task. */
  predicate Accurate(begin: real, end: real, count: nat, e: real, x: nat, value: real)
    requires count >= 1
  {
    Abs(value - (Cubic(TaskCorner(begin, end, count, x + 1)) - Cubic(TaskCorner(begin, end, count, x)))) <= e
  }

  /** When all replies are within e of the integral over their tasks, what the server publishes is
      within count times e of the integral over the whole interval, whatever threads, failures and
      retries there were. */
  lemma AccurateRepliesAdd(ss: seq<State>, acts: seq<Action>, count: nat, i: nat, begin: real, end: real, e: real)
    requires count >= 1 && IsRun(ss, acts, count) && i < |ss| && ss[i].q.pipe != []
    requires RepliesAre(ss, acts, (x: nat, value: real) => Accurate(begin, end, count, e, x, value))
    ensures |ss[i].q.pipe| == 1
    ensures Abs(ss[i].q.pipe[0] - (Cubic(end) - Cubic(begin))) <= Times(count, e)
  {
    var ok := (x: nat, value: real) => Accurate(begin, end, count, e, x, value);
    PublishedSumIsAcceptable(ss, acts, count, ok, i);
    var g := ByTask(ss[i].log);
    var f := (x: nat) => Cubic(TaskCorner(begin, end, count, x));
    forall x: nat | x < count ensures Abs(g(x) - (f(x + 1) - f(x))) <= e {
      assert ok(x, g(x));
    }
    PartsAdd(g, f, count, e);
    assert TaskCorner(begin, end, count, 0) == begin;
    assert TaskCorner(begin, end, count, count) == end;
  }

  /** The bound for an interval of length w that is split among k threads: the overshoot of each
      thread, and the panel errors of the whole interval. */
  function WorkerBound(k: nat, w: real, d: real, M: real): real {
    Times(k, LineBound(0.0, d, M)) + w * Slope(M, d)
  }

  lemma BoundSplits(k: nat, w: real, d: real, M: real)
    requires k >= 1
    ensures Times(k, LineBound(w / k as real, d, M)) == WorkerBound(k, w, d, M)
  {
    var r, n := Slope(M, d), k as real;
    var v := w / n;
    assert v * n == w;
    TimesIsProduct(k, LineBound(v, d, M));
    TimesIsProduct(k, LineBound(0.0, d, M));
    assert LineBound(v, d, M) == LineBound(0.0, d, M) + v * r;
    assert n * (LineBound(0.0, d, M) + v * r) == n * LineBound(0.0, d, M) + n * (v * r);
    assert n * (v * r) == v * n * r;
  }

  lemma {:induction false} BoundGrows(k: nat, most: nat, w: real, d: real, M: real)
    requires k <= most && d > 0.0 && M >= 0.0
    ensures WorkerBound(k, w, d, M) <= WorkerBound(most, w, d, M)
  {
    if k < most {
      BoundGrows(k, most - 1, w, d, M);
      ProductSign(M, d);
      ProductSign(d, d);
      ProductSign(d, Slope(M, d));
      ProductSign(M + d, M + d);
      ProductSign(d, (M + d) * (M + d));
    }
  }

  /** A worker with k threads gives this reply for task x. */
  ghost predicate Answers(begin: real, end: real, count: nat, d: real, k: nat, x: nat, value: real)
    requires count >= 1 && d > 0.0
  {
    k >= 1 && value == Answer(TaskCreate(k, TaskCorner(begin, end, count, x), TaskCorner(begin, end, count, x + 1), d))
  }

  /** A reply of a worker with at most `most` threads. */
  ghost predicate WorkerReply(begin: real, end: real, count: nat, d: real, most: nat, x: nat, value: real)
    requires count >= 1 && d > 0.0
  {
    exists k: nat :: k <= most && Answers(begin, end, count, d, k, x, value)
  }

  /** What a worker does with a task: split it, and sum up over its threads. */
  method Reply(threads: nat, t: Task) returns (res: real)
    requires threads >= 1 && t.del > 0.0
    ensures res == Answer(TaskCreate(threads, t.begin, t.end, t.del))
  {
    var local := TaskCreate(threads, t.begin, t.end, t.del);
    res := Launch(local);
  }

  /** Such a reply to a task of the queue is a worker's reply. */
  lemma ReplyIsWorkers(q: TasksQueue, x: nat, threads: nat, most: nat)
    requires q.Valid() && x < q.tasksCount && 1 <= threads <= most
    ensures var t := q.tasks[x];
            WorkerReply(q.begin, q.end, q.tasksCount, q.step, most, x, Answer(TaskCreate(threads, t.begin, t.end, t.del)))
  {
    TasksAreCorners(q, x);
    var t := q.tasks[x];
    assert Answers(q.begin, q.end, q.tasksCount, q.step, threads, x, Answer(TaskCreate(threads, t.begin, t.end, t.del)));
  }

  /** The tasks have the same length. */
  lemma TaskLength(begin: real, end: real, count: nat, x: nat)
    requires count >= 1
    ensures TaskCorner(begin, end, count, x + 1) - TaskCorner(begin, end, count, x) == (end - begin) / count as real
  {
    var w := (end - begin) / count as real;
    OneMore(x, w);
  }

  /** The answer of a worker over a task of the queue is accurate, with the bound of one interval per
      thread. */
  lemma WorkersAreAccurate(begin: real, end: real, count: nat, x: nat, threads: nat, d: real, M: real)
    requires count >= 1 && x < count && threads >= 1 && d > 0.0
    requires begin <= end && Abs(begin) <= M && Abs(end) <= M
    ensures var a, b := TaskCorner(begin, end, count, x), TaskCorner(begin, end, count, x + 1);
            Accurate(begin, end, count, Times(threads, LineBound((b - a) / threads as real, d, M)), x,
                     Answer(TaskCreate(threads, a, b, d)))
  {
    var whole := TaskCreate(count, begin, end, d);
    CornersInside(whole, x);
    CornersInside(whole, x + 1);
    assert Corner(whole, x) == TaskCorner(begin, end, count, x);
    assert Corner(whole, x + 1) == TaskCorner(begin, end, count, x + 1);
    AnswerError(threads, Corner(whole, x), Corner(whole, x + 1), d, M);
  }

  lemma AccuracyRelaxes(begin: real, end: real, count: nat, e: real, e': real, x: nat, value: real)
    requires count >= 1 && e <= e' && Accurate(begin, end, count, e, x, value)
    ensures Accurate(begin, end, count, e', x, value)
  {
  }

  /** The reply of a worker is accurate, however many threads it uses. */
  lemma RepliesAreAccurate(begin: real, end: real, count: nat, x: nat, most: nat, d: real, M: real, value: real)
    requires count >= 1 && x < count && d > 0.0
    requires begin <= end && Abs(begin) <= M && Abs(end) <= M
    requires WorkerReply(begin, end, count, d, most, x, value)
    ensures Accurate(begin, end, count, WorkerBound(most, (end - begin) / count as real, d, M), x, value)
  {
    var k: nat :| k <= most && Answers(begin, end, count, d, k, x, value);
    var w := (end - begin) / count as real;
    WorkersAreAccurate(begin, end, count, x, k, d, M);
    TaskLength(begin, end, count, x);
    BoundSplits(k, w, d, M);
    BoundGrows(k, most, w, d, M);
    AccuracyRelaxes(begin, end, count, WorkerBound(k, w, d, M), WorkerBound(most, w, d, M), x, value);
  }

  /** Only tasks of the queue are ever given to a worker. */
  lemma RepliesAreForTasks(ss: seq<State>, acts: seq<Action>, count: nat, i: nat, t: Tid)
    requires IsRun(ss, acts, count) && i < |ss| && t in ss[i].threads && ss[i].threads[t].Working?
    ensures ss[i].threads[t].task < count
  {
    assert Holds(ss[i].threads[t]);
    IteratorsAreValid(ss, acts, count, i, t, t);
  }

  /** End to end: if every reply is the answer of a worker with at most `most` threads, whatever the
      schedule, the failures and the retries were, the published sum is within this bound of the
      integral over the whole interval. */
  lemma PublishedSumError(ss: seq<State>, acts: seq<Action>, count: nat, i: nat,
                          begin: real, end: real, most: nat, d: real, M: real)
    requires count >= 1 && IsRun(ss, acts, count) && i < |ss| && ss[i].q.pipe != []
    requires d > 0.0 && begin <= end && Abs(begin) <= M && Abs(end) <= M
    requires RepliesAre(ss, acts, (x: nat, value: real) => WorkerReply(begin, end, count, d, most, x, value))
    ensures |ss[i].q.pipe| == 1
    ensures Abs(ss[i].q.pipe[0] - (Cubic(end) - Cubic(begin)))
         <= Times(count, WorkerBound(most, (end - begin) / count as real, d, M))
  {
    var e := WorkerBound(most, (end - begin) / count as real, d, M);
    var ok := (x: nat, value: real) => Accurate(begin, end, count, e, x, value);
    forall j | 0 <= j < |acts| && acts[j].Reply? && acts[j].t in ss[j].threads && ss[j].threads[acts[j].t].Working?
      ensures ok(ss[j].threads[acts[j].t].task, acts[j].value)
    {
      RepliesAreForTasks(ss, acts, count, j, acts[j].t);
      RepliesAreAccurate(begin, end, count, ss[j].threads[acts[j].t].task, most, d, M, acts[j].value);
    }
    AccurateRepliesAdd(ss, acts, count, i, begin, end, e);
  }

  /** With the constants of the program: the published sum is about 6.7e14, and its error is less
      than thirteen million for each thread of the largest worker, and two million. */
  lemma ProgramSumError(ss: seq<State>, acts: seq<Action>, i: nat, most: nat)
    requires IsRun(ss, acts, TASKS_COUNT) && i < |ss| && ss[i].q.pipe != []
    requires RepliesAre(ss, acts, (x: nat, value: real) => WorkerReply(BEGIN, END, TASKS_COUNT, STEP, most, x, value))
    ensures |ss[i].q.pipe| == 1
    ensures Abs(ss[i].q.pipe[0] - 2000000000000000.0 / 3.0) <= 13000000.0 * most as real + 2000000.0
  {
    PublishedSumError(ss, acts, TASKS_COUNT, i, BEGIN, END, most, STEP, 100000.0);
    var line, slope := LineBound(0.0, STEP, 100000.0), Slope(100000.0, STEP);
    assert slope <= 9.0 && line <= 810000.0;
    TimesIsProduct(most, line);
    ProductOrder(line, 810000.0, most as real);
    TimesIsProduct(TASKS_COUNT, WorkerBound(most, 12500.0, STEP, 100000.0));
  }
}
