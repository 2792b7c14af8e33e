/** What the task queue guarantees for any number of tasks, sender threads, failures and retries. */
module TaskSystemTheorems {
  import opened Common
  import opened TaskQueue
  import opened TaskSystem

  // Sums that do not depend on an order.

  function Total(f: nat -> real, n: nat): real {
    if n == 0 then 0.0 else Total(f, n - 1) + f(n - 1)
  }

  /** The value recorded for task x; zero if there is none. */
  function ValueIn(log: seq<(nat, real)>, x: nat): real {
    if log == [] then 0.0
    else if log[|log| - 1].0 == x then log[|log| - 1].1
    else ValueIn(log[..|log| - 1], x)
  }

  function ByTask(log: seq<(nat, real)>): nat -> real {
    (x: nat) => ValueIn(log, x)
  }

  lemma {:induction false} TotalChangedAt(f: nat -> real, g: nat -> real, n: nat, y: nat, d: real)
    requires forall x: nat :: x < n ==> g(x) == if x == y then f(x) + d else f(x)
    ensures Total(g, n) == Total(f, n) + if y < n then d else 0.0
  {
    if n > 0 {
      TotalChangedAt(f, g, n - 1, y, d);
    }
  }

  lemma {:induction false} ValueInAbsent(log: seq<(nat, real)>, x: nat)
    requires forall i :: 0 <= i < |log| ==> log[i].0 != x
    ensures ValueIn(log, x) == 0.0
  {
    if log != [] {
      ValueInAbsent(log[..|log| - 1], x);
    }
  }

  lemma {:induction false} ValueInAt(log: seq<(nat, real)>, i: nat)
    requires i < |log|
    requires forall j, k :: 0 <= j < k < |log| ==> log[j].0 != log[k].0
    ensures ValueIn(log, log[i].0) == log[i].1
  {
    if i != |log| - 1 {
      ValueInAt(log[..|log| - 1], i);
    }
  }

  lemma {:induction false} TotalOfZero(f: nat -> real, n: nat)
    requires forall x: nat :: x < n ==> f(x) == 0.0
    ensures Total(f, n) == 0.0
  {
    if n > 0 {
      TotalOfZero(f, n - 1);
    }
  }

  /** The sum of the result vector, whatever its order, is the sum over the tasks. */
  lemma {:induction false} SumIsTotal(log: seq<(nat, real)>, n: nat)
    requires forall i :: 0 <= i < |log| ==> log[i].0 < n
    requires forall i, j :: 0 <= i < j < |log| ==> log[i].0 != log[j].0
    ensures Sum(Values(log)) == Total(ByTask(log), n)
  {
    if log == [] {
      TotalOfZero(ByTask(log), n);
    } else {
      var init, e := log[..|log| - 1], log[|log| - 1];
      SumIsTotal(init, n);
      ValueInAbsent(init, e.0);
      assert Values(log)[..|Values(log)| - 1] == Values(init);
      TotalChangedAt(ByTask(init), ByTask(log), n, e.0, e.1);
    }
  }

  lemma {:induction false} TotalsAgree(f: nat -> real, g: nat -> real, n: nat)
    requires forall x: nat :: x < n ==> f(x) == g(x)
    ensures Total(f, n) == Total(g, n)
  {
    if n > 0 {
      TotalsAgree(f, g, n - 1);
    }
  }

  // Where a task is.

  /** At any time each task index is in exactly one place, once: queued, in work, or finished. */
  lemma ExactlyOnePlace(ss: seq<State>, acts: seq<Action>, count: nat, i: nat, x: nat)
    requires IsRun(ss, acts, count) && i < |ss|
    ensures multiset(ss[i].q.queue)[x] + multiset(Tasks(ss[i].q.inWork))[x] +
            (if x in ss[i].finished then 1 else 0) == if x < count then 1 else 0
  {
    RunKeepsInv(ss, acts, count, i);
    IndicesOnce(count);
    var m := multiset(ss[i].q.queue) + multiset(Tasks(ss[i].q.inWork)) + multiset(ss[i].finished);
    assert m[x] == multiset(Indices(count))[x];
  }

  /** Every iterator a thread still has to hand to push_task or delete_task points to a node of
      the list, the node of its own task, and no other thread has it. */
  lemma IteratorsAreValid(ss: seq<State>, acts: seq<Action>, count: nat, i: nat, t: Tid, u: Tid)
    requires IsRun(ss, acts, count) && i < |ss|
    requires t in ss[i].threads && Holds(ss[i].threads[t])
    ensures HasNode(ss[i].q.inWork, ss[i].threads[t].id)
    ensures Deref(ss[i].q.inWork, ss[i].threads[t].id) == ss[i].threads[t].task < count
    ensures u in ss[i].threads && Holds(ss[i].threads[u]) && ss[i].threads[u].id == ss[i].threads[t].id ==> u == t
  {
    RunKeepsInv(ss, acts, count, i);
    var x := Node(ss[i].threads[t].id, ss[i].threads[t].task);
    DerefIs(ss[i].q.inWork, x);
    InWorkOnce(ss[i], count, x);
    assert u in ss[i].threads && Holds(ss[i].threads[u]) ==> Holds(ss[i].threads[u]);
  }

  /** Hence no thread is ever stuck in front of the queue: a thread with a task can always put it
      back, and a thread that has recorded its result can always delete its node. */
  lemma QueueCallsSucceed(ss: seq<State>, acts: seq<Action>, count: nat, i: nat, t: Tid)
    requires IsRun(ss, acts, count) && i < |ss| && t in ss[i].threads
    ensures ss[i].threads[t].Working? ==> Next(ss[i], Fail(t)).Some?
    ensures ss[i].threads[t].Recorded? ==> Next(ss[i], Delete(t)).Some?
  {
    if Holds(ss[i].threads[t]) {
      IteratorsAreValid(ss, acts, count, i, t, t);
    }
  }

  /** A failed task goes back to the queue: after Fail it is again the next task to be taken. */
  lemma FailedTaskIsRetried(ss: seq<State>, acts: seq<Action>, count: nat, i: nat, t: Tid, u: Tid)
    requires IsRun(ss, acts, count) && i < |acts| && acts[i] == Fail(t)
    requires u in ss[i + 1].threads && ss[i + 1].threads[u].Asking?
    ensures t in ss[i].threads && ss[i].threads[t].Working?
    ensures var next := Next(ss[i + 1], Ask(u));
            next.Some? && next.value.threads[u].Working? && next.value.threads[u].task == ss[i].threads[t].task
  {
    assert Next(ss[i], acts[i]) == Some(ss[i + 1]);
    assert Holds(ss[i].threads[t]);
    IteratorsAreValid(ss, acts, count, i, t, t);
  }

  // The published sum.

  /** The thread that sums the results without m_res can do so: nobody holds a task, so nobody is
      in the m_res section or on the way to it. */
  lemma NobodyRecordsWhilePublishing(ss: seq<State>, acts: seq<Action>, count: nat, i: nat, t: Tid)
    requires IsRun(ss, acts, count) && i < |ss|
    requires ss[i].q.queue == [] && ss[i].q.inWork == [] && t in ss[i].threads
    ensures !Holds(ss[i].threads[t])
  {
    RunKeepsInv(ss, acts, count, i);
    var holds := Holds(ss[i].threads[t]);
  }

  /** m_res excludes: two threads are never inside at once. */
  lemma ResultSectionExclusive(ss: seq<State>, acts: seq<Action>, count: nat, i: nat, t: Tid, u: Tid)
    requires IsRun(ss, acts, count) && i < |ss| && t in ss[i].threads && u in ss[i].threads
    requires ss[i].threads[t].InResult? && ss[i].threads[u].InResult?
    ensures t == u
  {
    RunKeepsInv(ss, acts, count, i);
  }

  /** One sum at most goes to the pipe, and what has gone there stays as it is. */
  lemma {:induction false} PublishedAtMostOnce(ss: seq<State>, acts: seq<Action>, count: nat, i: nat, j: nat)
    requires IsRun(ss, acts, count) && i <= j < |ss|
    ensures |ss[j].q.pipe| <= 1
    ensures ss[i].q.pipe <= ss[j].q.pipe
  {
    RunKeepsInv(ss, acts, count, j);
    if i < j {
      PublishedAtMostOnce(ss, acts, count, i, j - 1);
      assert Next(ss[j - 1], acts[j - 1]) == Some(ss[j]);
    }
  }

  /** When the sum has been published, every task has exactly one accepted value, and the sum is
      the sum of those values over the tasks, in whatever order the results came in. */
  lemma PublishedSumIsComplete(ss: seq<State>, acts: seq<Action>, count: nat, i: nat)
    requires IsRun(ss, acts, count) && i < |ss| && ss[i].q.pipe != []
    ensures forall x: nat :: x < count ==> InLog(ss[i].log, x)
    ensures forall j, k :: 0 <= j < k < |ss[i].log| ==> ss[i].log[j].0 != ss[i].log[k].0
    ensures ss[i].q.inQueue == 0
    ensures ss[i].q.pipe == [Total(ByTask(ss[i].log), count)]
  {
    RunKeepsInv(ss, acts, count, i);
    var s := ss[i];
    assert multiset(s.finished) == multiset(Indices(count)) by {
      assert multiset(s.q.queue) == multiset{} && multiset(Tasks(s.q.inWork)) == multiset{};
    }
    IndicesOnce(count);
    forall x: nat | x < count ensures x in s.finished {
      assert x in multiset(Indices(count));
    }
    assert forall t {:trigger s.threads[t]} :: t in s.threads ==> !Holds(s.threads[t]) by {
      forall t | t in s.threads ensures !Holds(s.threads[t]) {
        NobodyRecordsWhilePublishing(ss, acts, count, i, t);
      }
    }
    forall k | 0 <= k < |s.log| ensures s.log[k].0 < count {
      assert s.log[k].0 in s.finished;
      assert s.log[k].0 in multiset(Indices(count));
    }
    SumIsTotal(s.log, count);
    LogIsFull(s.log, count);
  }

  /** A thread that is told to stop may conclude that all tasks are done and their total is
      published. */
  lemma StopMeansPublished(ss: seq<State>, acts: seq<Action>, count: nat, i: nat, t: Tid)
    requires IsRun(ss, acts, count) && i < |acts| && acts[i] == Ask(t) && AfterGet(ss[i].q).1 == Stop
    ensures var s := ss[i + 1];
            s.q.pipe == [Total(ByTask(s.log), count)] && forall x: nat :: x < count ==> InLog(s.log, x)
  {
    RunKeepsInv(ss, acts, count, i);
    assert Next(ss[i], acts[i]) == Some(ss[i + 1]);
    assert ss[i + 1].q.pipe != [];
    PublishedSumIsComplete(ss, acts, count, i + 1);
  }

  lemma {:induction false} LogIsFull(log: seq<(nat, real)>, count: nat)
    requires forall x: nat :: x < count ==> InLog(log, x)
    requires forall i :: 0 <= i < |log| ==> log[i].0 < count
    requires forall i, j :: 0 <= i < j < |log| ==> log[i].0 != log[j].0
    ensures |log| == count
  {
    if count > 0 {
      assert InLog(log, count - 1);
      var i :| 0 <= i < |log| && log[i].0 == count - 1;
      var rest := log[..i] + log[i + 1..];
      assert forall j :: 0 <= j < |rest| ==> rest[j] == log[if j < i then j else j + 1];
      forall x: nat | x < count - 1 ensures InLog(rest, x) {
        assert InLog(log, x);
        var j :| 0 <= j < |log| && log[j].0 == x;
        assert rest[if j < i then j else j - 1].0 == x;
      }
      LogIsFull(rest, count - 1);
    }
  }

  /** Every reply for a task is one that `ok` accepts. */
  ghost predicate RepliesAre(ss: seq<State>, acts: seq<Action>, ok: (nat, real) -> bool)
    requires |ss| == |acts| + 1
  {
    forall i {:trigger acts[i]} :: 0 <= i < |acts| ==>
      match acts[i]
      case Reply(t, value) => t in ss[i].threads && ss[i].threads[t].Working? ==> ok(ss[i].threads[t].task, value)
      case _ => true
  }

  /** A run's replies are acceptable one by one, as they come. */
  lemma RepliesGrow(ss: seq<State>, acts: seq<Action>, ok: (nat, real) -> bool, a: Action, u: State)
    requires |ss| == |acts| + 1
    ensures RepliesAre(ss[..1], [], ok)
    ensures var s := ss[|acts|];
            RepliesAre(ss + [u], acts + [a], ok) <==>
              && RepliesAre(ss, acts, ok)
              && (a.Reply? && a.t in s.threads && s.threads[a.t].Working? ==> ok(s.threads[a.t].task, a.value))
  {
    var ss', acts' := ss + [u], acts + [a];
    assert acts'[|acts|] == a && ss'[|acts|] == ss[|acts|];
    assert forall i :: 0 <= i < |acts| ==> acts'[i] == acts[i] && ss'[i] == ss[i];
  }

  /** What holds of every reply a worker gives holds of every entry of the log. */
  lemma {:induction false} LogComesFromReplies(ss: seq<State>, acts: seq<Action>, count: nat, ok: (nat, real) -> bool, i: nat)
    requires IsRun(ss, acts, count) && i < |ss|
    requires RepliesAre(ss, acts, ok)
    ensures forall j :: 0 <= j < |ss[i].log| ==> ok(ss[i].log[j].0, ss[i].log[j].1)
    ensures forall t {:trigger ss[i].threads[t]} ::
              t in ss[i].threads && ss[i].threads[t].InResult? ==> ok(ss[i].threads[t].task, ss[i].threads[t].value)
  {
    if i > 0 {
      LogComesFromReplies(ss, acts, count, ok, i - 1);
      var s, a, t := ss[i - 1], acts[i - 1], ss[i];
      assert Next(s, a) == Some(t);
      forall x | x in t.threads && t.threads[x].InResult? ensures ok(t.threads[x].task, t.threads[x].value) {
        assert x in s.threads && (s.threads[x] == t.threads[x] || a == Reply(x, t.threads[x].value));
      }
    }
  }

  /** Whatever the schedule, the failures and the retries were, the published sum is the total of
      one acceptable reply per task. */
  lemma PublishedSumIsAcceptable(ss: seq<State>, acts: seq<Action>, count: nat, ok: (nat, real) -> bool, i: nat)
    requires IsRun(ss, acts, count) && i < |ss| && ss[i].q.pipe != []
    requires RepliesAre(ss, acts, ok)
    ensures ss[i].q.pipe == [Total(ByTask(ss[i].log), count)]
    ensures forall x: nat :: x < count ==> ok(x, ByTask(ss[i].log)(x))
  {
    PublishedSumIsComplete(ss, acts, count, i);
    LogComesFromReplies(ss, acts, count, ok, i);
    var log := ss[i].log;
    forall x: nat | x < count ensures ok(x, ByTask(log)(x)) {
      assert InLog(log, x);
      var j :| 0 <= j < |log| && log[j].0 == x;
      ValueInAt(log, j);
    }
  }

  /** In particular, if the workers compute a function of the task, the published sum is its
      total: it does not depend on the schedule at all. */
  lemma SumIsScheduleIndependent(ss: seq<State>, acts: seq<Action>, count: nat, f: nat -> real, i: nat)
    requires IsRun(ss, acts, count) && i < |ss| && ss[i].q.pipe != []
    requires RepliesAre(ss, acts, (x: nat, value: real) => value == f(x))
    ensures ss[i].q.pipe == [Total(f, count)]
  {
    var ok := (x: nat, value: real) => value == f(x);
    PublishedSumIsAcceptable(ss, acts, count, ok, i);
    forall x: nat | x < count ensures ByTask(ss[i].log)(x) == f(x) {
      assert ok(x, ByTask(ss[i].log)(x));
    }
    TotalsAgree(ByTask(ss[i].log), f, count);
  }

  /** As long as nothing is published, the work goes on: when no task is queued or in work, the
      next thread to ask publishes. */
  lemma LastOnePublishes(ss: seq<State>, acts: seq<Action>, count: nat, i: nat, t: Tid)
    requires IsRun(ss, acts, count) && i < |ss|
    requires ss[i].q.queue == [] && ss[i].q.inWork == [] && ss[i].q.pipe == []
    requires t in ss[i].threads && ss[i].threads[t].Asking?
    ensures Next(ss[i], Ask(t)).Some? && Next(ss[i], Ask(t)).value.q.pipe == [Sum(ss[i].q.result)]
    ensures forall x: nat :: x in ss[i].finished <==> x < count
  {
    RunKeepsInv(ss, acts, count, i);
    var s := ss[i];
    assert multiset(s.finished) == multiset(Indices(count)) by {
      assert multiset(s.q.queue) == multiset{} && multiset(Tasks(s.q.inWork)) == multiset{};
    }
    IndicesOnce(count);
    forall x: nat ensures x in s.finished <==> x < count {
      assert x in multiset(s.finished) <==> x in multiset(Indices(count));
    }
  }
}
