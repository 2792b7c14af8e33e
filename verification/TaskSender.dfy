/** STaskSender.cc: the loop of one sender thread, with the other threads running between any two
    of its critical sections. */
module TaskSender {
  import opened Common
  import opened TaskQueue
  import opened TaskSystem
  import opened TaskSystemTheorems

  ghost predicate Reachable(s: State, count: nat) {
    exists ss, acts :: IsRun(ss, acts, count) && ss[|acts|] == s
  }

  lemma ReachNext(s: State, a: Action, t: State, count: nat)
    requires Reachable(s, count) && Next(s, a) == Some(t)
    ensures Reachable(t, count)
  {
    var ss, acts :| IsRun(ss, acts, count) && ss[|acts|] == s;
    assert IsRun(ss + [t], acts + [a], count);
    assert (ss + [t])[|acts + [a]|] == t;
  }

  lemma HolderFacts(s: State, count: nat, t: Tid)
    requires Reachable(s, count) && t in s.threads && Holds(s.threads[t])
    ensures HasNode(s.q.inWork, s.threads[t].id) && Deref(s.q.inWork, s.threads[t].id) == s.threads[t].task
  {
    var ss, acts :| IsRun(ss, acts, count) && ss[|acts|] == s;
    IteratorsAreValid(ss, acts, count, |acts|, t, t);
  }

  lemma OnlyOneInResult(s: State, count: nat, t: Tid)
    requires Reachable(s, count) && t in s.threads && s.threads[t].InResult?
    ensures forall u {:trigger s.threads[u]} :: u in s.threads && s.threads[u].InResult? ==> u == t
  {
    var ss, acts :| IsRun(ss, acts, count) && ss[|acts|] == s;
    forall u | u in s.threads && s.threads[u].InResult? ensures u == t {
      ResultSectionExclusive(ss, acts, count, |acts|, t, u);
    }
  }

  lemma ClosedIsPublished(s: State, count: nat)
    requires Reachable(s, count)
    ensures !s.q.open ==> s.q.pipe != []
  {
    var ss, acts :| IsRun(ss, acts, count) && ss[|acts|] == s;
    RunKeepsInv(ss, acts, count, |acts|);
  }

  lemma LockKeeps(s: State, t: State, p: Tid)
    requires p in s.threads && p in t.threads && t.threads == s.threads[p := t.threads[p]]
    requires !s.threads[p].InResult? && !t.threads[p].InResult?
    ensures ResultLocked(s) <==> ResultLocked(t)
  {
    if x :| x in s.threads && s.threads[x].InResult? {
      assert t.threads[x].InResult?;
    }
    if x :| x in t.threads && t.threads[x].InResult? {
      assert s.threads[x].InResult?;
    }
  }

  /** The entry has been added to the log since it was `before`. */
  ghost predicate AddedSince(before: seq<(nat, real)>, log: seq<(nat, real)>, entry: (nat, real)) {
    before <= log && exists k :: |before| <= k < |log| && log[k] == entry
  }

  /** What the connection does when a task is sent: the outcomes of write, select and read, and the
      worker's answer. */
  datatype Io = Io(wrote: bool, selected: int, answered: bool, value: real)

  /** Exchange number k. */
  function Exchange(io: nat -> Io, k: nat): Io {
    io(k)
  }

  /** The whole task is written, select reports the answer in time, and the whole answer is read. */
  predicate Succeeds(x: Io) {
    x.wrote && x.selected != -1 && x.selected != 0 && x.answered
  }

  /** t is task number x, as the queue was told to cut up its interval. */
  predicate IsTask(q: TasksQueue, t: Task, x: nat) {
    t.begin == q.begin + q.del * x as real && t.end == q.begin + q.del * (x + 1) as real && t.del == q.step
  }

  /** That is the task the queue keeps under this number. */
  lemma IsQueuedTask(q: TasksQueue, t: Task, x: nat)
    requires q.Valid() && x < q.tasksCount && IsTask(q, t, x)
    ensures t == q.tasks[x].(it := t.it)
  {
  }

  /** Exchange number k succeeded, and its answer is in the log for the task that was sent. */
  ghost predicate Delivered(q: TasksQueue, log: seq<(nat, real)>, io: nat -> Io, sent: seq<Task>, got: seq<(nat, real)>, k: nat)
    requires k < |got| <= |sent|
  {
    Succeeds(Exchange(io, k)) && got[k].1 == Exchange(io, k).value && IsTask(q, sent[k], got[k].0) && got[k] in log
  }

  ghost predicate AllDelivered(q: TasksQueue, log: seq<(nat, real)>, io: nat -> Io, sent: seq<Task>, got: seq<(nat, real)>)
    requires |got| <= |sent|
  {
    forall k {:trigger Delivered(q, log, io, sent, got, k)} :: 0 <= k < |got| ==> Delivered(q, log, io, sent, got, k)
  }

  /** What has been delivered stays delivered. */
  lemma StillDelivered(q: TasksQueue, log: seq<(nat, real)>, log': seq<(nat, real)>, io: nat -> Io,
                       sent: seq<Task>, sent': seq<Task>, got: seq<(nat, real)>)
    requires |got| <= |sent| && AllDelivered(q, log, io, sent, got) && log <= log' && sent <= sent'
    ensures AllDelivered(q, log', io, sent', got)
  {
    forall k | 0 <= k < |got| ensures Delivered(q, log', io, sent', got, k) {
      assert Delivered(q, log, io, sent, got, k);
      assert sent'[k] == sent[k];
      var j :| 0 <= j < |log| && log[j] == got[k];
      assert log'[j] == got[k];
    }
  }

  lemma OneMoreDelivered(q: TasksQueue, log: seq<(nat, real)>, log': seq<(nat, real)>, io: nat -> Io,
                         sent: seq<Task>, t: Task, got: seq<(nat, real)>, x: nat)
    requires |got| == |sent| && AllDelivered(q, log, io, sent, got) && IsTask(q, t, x)
    requires Succeeds(Exchange(io, |got|)) && AddedSince(log, log', (x, Exchange(io, |got|).value))
    ensures AllDelivered(q, log', io, sent + [t], got + [(x, Exchange(io, |got|).value)])
  {
    var entry := (x, Exchange(io, |got|).value);
    StillDelivered(q, log, log', io, sent, sent + [t], got);
    forall k | 0 <= k < |got| + 1 ensures Delivered(q, log', io, sent + [t], got + [entry], k) {
      assert k < |got| ==> Delivered(q, log', io, sent + [t], got, k);
    }
  }

  /** What became of a task that was sent. */
  datatype Fate = Answered | Failed | Waiting

  class Server {
    const q: TasksQueue
    var resLocked: bool        // m_res
    ghost var threads: map<Tid, Pc>
    ghost var log: seq<(nat, real)>
    ghost var finished: set<nat>

    ghost function View(): State
      reads this, q
    {
      State(q.View(), threads, log, finished)
    }

    ghost predicate Valid()
      reads this, q
    {
      q.Valid() && Reachable(View(), q.tasksCount) && (resLocked <==> ResultLocked(View()))
    }

    constructor (fd: int, count: nat, begin: real, end: real, step: real)
      requires fd != 0 && count > 0 && step > 0.0
      ensures Valid() && fresh(q) && threads == map[] && q.tasksCount == count
      ensures q.begin == begin && q.end == end && q.step == step
    {
      q := new TasksQueue(fd, count, begin, end, step);
      threads, log, finished := map[], [], {};
      resLocked := false;
      new;
      ghost var none: seq<Action> := [];
      assert IsRun([View()], none, count);
      assert [View()][|none|] == View();
    }

    /** Interference: a caller must expect any reachable state in which its own thread has not
        moved. The body is the case of nothing happening; only the contract matters below. */
    method Others(ghost me: Tid)
      requires Valid() && me in threads
      modifies this, q
      ensures Valid() && me in threads && threads[me] == old(threads[me]) && old(log) <= log
    {
    }

    ghost predicate At(me: Tid, pc: Pc)
      reads this
    {
      me in threads && threads[me] == pc
    }

    /** getTask, and what it means for this thread: it is to stop, since the sum has been published;
        or it has to ask again; or it has got the task that its node stands for. */
    method Ask(ghost me: Tid, t: Task) returns (code: int, t': Task)
      requires Valid() && At(me, Asking)
      modifies this, q
      ensures Valid() && me in threads && old(log) <= log
      ensures code != 0 ==> At(me, Gone) && q.pipeFd == 0 && q.pipe != []
      ensures code == 0 && t'.del == 0.0 ==> At(me, Asking)
      ensures code == 0 && t'.del != 0.0 ==>
                threads[me].Working? && threads[me].id == t'.it && IsTask(q, t', threads[me].task)
    {
      Others(me);
      ghost var s := View();
      code, t' := q.GetTask(t);
      ghost var fetch := AfterGet(s.q).1;
      threads := threads[me := match fetch
                               case Stop => Gone
                               case Nothing => Asking
                               case Got(node) => Working(node.id, node.task)];
      ReachNext(s, Action.Ask(me), View(), q.tasksCount);
      LockKeeps(s, View(), me);
      ClosedIsPublished(View(), q.tasksCount);
    }

    /** Every failure path: the task goes back to the queue and the thread ends. */
    method GiveBack(ghost me: Tid, it: nat)
      requires Valid() && me in threads && threads[me].Working? && threads[me].id == it
      modifies this, q
      ensures Valid() && At(me, Gone) && old(log) <= log
      ensures q.queue != [] && q.queue[|q.queue| - 1] == old(threads[me]).task
    {
      Others(me);
      ghost var s := View();
      HolderFacts(s, q.tasksCount, me);
      q.PushTask(it);
      threads := threads[me := Gone];
      ReachNext(s, Fail(me), View(), q.tasksCount);
      LockKeeps(s, View(), me);
    }

    /** pthread_mutex_lock(&m_res), when no other thread is inside. */
    method LockResult(ghost me: Tid, ghost res: real)
      requires Valid() && me in threads && threads[me].Working? && !resLocked
      modifies this`threads, this`resLocked
      ensures Valid() && resLocked
      ensures At(me, InResult(old(threads[me]).id, old(threads[me]).task, res)) && log == old(log)
    {
      ghost var s := View();
      threads := threads[me := InResult(threads[me].id, threads[me].task, res)];
      resLocked := true;
      ReachNext(s, Reply(me, res), View(), q.tasksCount);
      assert threads[me].InResult?;
    }

    /** The m_res section, and its end. */
    method RecordAndUnlock(ghost me: Tid, res: real, ghost it: nat, ghost task: nat)
      requires Valid() && At(me, InResult(it, task, res))
      modifies this, q
      ensures Valid() && At(me, Recorded(it, task)) && AddedSince(old(log), log, (task, res))
    {
      Others(me);
      ghost var s := View();
      q.RecordResult(res);
      log := log + [(task, res)];
      assert log[|log| - 1] == (task, res);
      threads := threads[me := Recorded(it, task)];
      resLocked := false;
      ReachNext(s, Action.Leave(me), View(), q.tasksCount);
      OnlyOneInResult(s, q.tasksCount, me);
    }

    /** delete_task */
    method DropNode(ghost me: Tid, it: nat, ghost task: nat)
      requires Valid() && At(me, Recorded(it, task))
      modifies this, q
      ensures Valid() && At(me, Asking) && old(log) <= log
    {
      Others(me);
      ghost var s := View();
      HolderFacts(s, q.tasksCount, me);
      q.DeleteTask(it);
      finished := finished + {task};
      threads := threads[me := Asking];
      ReachNext(s, Action.Delete(me), View(), q.tasksCount);
      LockKeeps(s, View(), me);
    }

    /** write_result: the m_res section, then delete_task. If the history ends while another thread
        keeps m_res, the call has not returned. */
    method WriteResult(ghost me: Tid, res: real, it: nat) returns (returned: bool)
      requires Valid() && me in threads && threads[me].Working? && threads[me].id == it
      modifies this, q
      ensures Valid() && me in threads
      ensures if returned then At(me, Asking) else threads[me] == old(threads[me]) && resLocked
      ensures old(log) <= log && (returned ==> AddedSince(old(log), log, (old(threads[me]).task, res)))
    {
      Others(me);
      if resLocked {
        return false;
      }
      ghost var task := threads[me].task;
      LockResult(me, res);
      RecordAndUnlock(me, res, it, task);
      DropNode(me, it, task);
      return true;
    }

    /** The rest of a round, after the task has been got: the branches of the loop body. */
    method Serve(ghost me: Tid, x: Io, it: nat) returns (fate: Fate)
      requires Valid() && me in threads && threads[me].Working? && threads[me].id == it
      modifies this, q
      ensures Valid() && me in threads && old(log) <= log
      ensures fate == Failed <==> !Succeeds(x)
      ensures fate == Failed ==> At(me, Gone) && q.queue != [] && q.queue[|q.queue| - 1] == old(threads[me]).task
      ensures fate == Answered ==> At(me, Asking) && AddedSince(old(log), log, (old(threads[me]).task, x.value))
      ensures fate == Waiting ==> threads[me] == old(threads[me]) && resLocked
    {
      if !x.wrote {
        GiveBack(me, it);
        return Failed;
      }
      if x.selected == -1 {
        GiveBack(me, it);
        return Failed;
      }
      if x.selected == 0 {
        GiveBack(me, it);
        return Failed;
      }
      if !x.answered {
        GiveBack(me, it);
        return Failed;
      }
      var returned := WriteResult(me, x.value, it);
      fate := if returned then Answered else Waiting;
    }

    /** The thread's main loop over a history with at most `rounds` rounds of it. What the socket does
        is arbitrary: exchange number k with the worker goes as io says. The thread sends the tasks
        it got; each answer that came through is in the log, for the task that was sent; the first
        exchange that fails ends the thread, and its task is back in the queue. However the thread
        ends, it has no task left; every iterator it hands to the queue on the way is one the queue
        still has. */
    method TaskSender(ghost me: Tid, io: nat -> Io, rounds: nat)
      returns (ended: bool, sent: seq<Task>, ghost got: seq<(nat, real)>)
      requires Valid() && At(me, Asking)
      modifies this, q
      ensures Valid() && me in threads
      ensures ended ==> At(me, Gone)
      ensures !ended ==> At(me, Asking) || (threads[me].Working? && resLocked)
      ensures |got| <= |sent| <= |got| + 1 && AllDelivered(q, log, io, sent, got)
      ensures |sent| == |got| && ended ==> q.pipeFd == 0 && q.pipe != []
      ensures |sent| > |got| && ended ==>
                !Succeeds(Exchange(io, |got|)) && q.queue != [] && IsTask(q, sent[|got|], q.queue[|q.queue| - 1])
      ensures |sent| > |got| && !ended ==> Succeeds(Exchange(io, |got|)) && resLocked
    {
      sent, got := [], [];
      var round := 0;
      var t := Task(0.0, 0.0, 0.0, 0);
      while round < rounds
        invariant Valid() && At(me, Asking)
        invariant |sent| == |got| && AllDelivered(q, log, io, sent, got)
      {
        round := round + 1;
        ghost var before := log;
        var code;
        code, t := Ask(me, t);
        StillDelivered(q, before, log, io, sent, sent, got);
        if code != 0 {
          return true, sent, got;
        }
        if t.del != 0.0 {
          var x := Exchange(io, |sent|);
          ghost var task, asked := threads[me].task, log;
          var fate := Serve(me, x, t.it);
          if fate != Answered {
            StillDelivered(q, asked, log, io, sent, sent + [t], got);
            sent := sent + [t];
            return fate == Failed, sent, got;
          }
          OneMoreDelivered(q, asked, log, io, sent, t, got, task);
          sent, got := sent + [t], got + [(task, x.value)];
        }
      }
      return false, sent, got;
    }
  }
}
