/** Any number of sender threads (STaskSender.cc) on one task queue. A step is one critical
    section of one thread. A worker's reply is any value, and the connection may fail instead. */
module TaskSystem {
  import opened Common
  import opened TaskQueue

  type Tid = nat

  /** Where a sender thread is. */
  datatype Pc =
    | Asking                         // about to call getTask
    | Working(id: nat, task: nat)    // holds the node `id`; the task is with its worker
    | InResult(id: nat, task: nat, value: real)    // inside the m_res section of write_result
    | Recorded(id: nat, task: nat)   // between the two sections of write_result
    | Gone

  /** `log` and `finished` are history: the accepted results in the order of the m_res sections,
      and the tasks whose node has been deleted. */
  datatype State = State(q: Shared, threads: map<Tid, Pc>, log: seq<(nat, real)>, finished: set<nat>)

  datatype Action =
    | Arrive(t: Tid)
    | Ask(t: Tid)
    | Fail(t: Tid)
    | Reply(t: Tid, value: real)
    | Leave(t: Tid)
    | Delete(t: Tid)

  predicate Holds(pc: Pc) {
    pc.Working? || pc.InResult? || pc.Recorded?
  }

  /** m_res admits one thread at a time. */
  predicate ResultLocked(s: State) {
    exists t :: t in s.threads && s.threads[t].InResult?
  }

  /** The outcome of an action; None when it is not the thread's turn, when m_res is taken, or when
      an iterator handed to the queue does not point into the list. */
  ghost function Next(s: State, a: Action): Option<State> {
    match a
    case Arrive(t) =>
      if t in s.threads then None else Some(s.(threads := s.threads[t := Asking]))
    case Ask(t) =>
      if t !in s.threads || !s.threads[t].Asking? then None else
      var (q, fetch) := AfterGet(s.q);
      Some(s.(q := q, threads := s.threads[t :=
        match fetch
        case Stop => Gone
        case Nothing => Asking
        case Got(node) => Working(node.id, node.task)]))
    case Fail(t) =>
      if t !in s.threads || !s.threads[t].Working? || !HasNode(s.q.inWork, s.threads[t].id) then None else
      Some(s.(q := AfterPush(s.q, s.threads[t].id), threads := s.threads[t := Gone]))
    case Reply(t, value) =>
      if t !in s.threads || !s.threads[t].Working? || ResultLocked(s) then None else
      Some(s.(threads := s.threads[t := InResult(s.threads[t].id, s.threads[t].task, value)]))
    case Leave(t) =>
      if t !in s.threads || !s.threads[t].InResult? then None else
      var pc := s.threads[t];
      Some(s.(q := AfterRecord(s.q, pc.value), threads := s.threads[t := Recorded(pc.id, pc.task)],
              log := s.log + [(pc.task, pc.value)]))
    case Delete(t) =>
      if t !in s.threads || !s.threads[t].Recorded? || !HasNode(s.q.inWork, s.threads[t].id) then None else
      var pc := s.threads[t];
      Some(s.(q := AfterDelete(s.q, pc.id), threads := s.threads[t := Asking],
              finished := s.finished + {pc.task}))
  }

  ghost predicate Init(s: State, count: nat) {
    s.q == Initial(count) && s.threads == map[] && s.log == [] && s.finished == {}
  }

  ghost predicate IsRun(ss: seq<State>, acts: seq<Action>, count: nat) {
    && |ss| == |acts| + 1
    && Init(ss[0], count)
    && forall i :: 0 <= i < |acts| ==> Next(ss[i], acts[i]) == Some(ss[i + 1])
  }

  // The invariant.

  function Tasks(inWork: seq<Node>): seq<nat> {
    if inWork == [] then [] else [inWork[0].task] + Tasks(inWork[1..])
  }

  function Indices(count: nat): seq<nat> {
    seq(count, i => i)
  }

  function Values(log: seq<(nat, real)>): seq<real> {
    if log == [] then [] else Values(log[..|log| - 1]) + [log[|log| - 1].1]
  }

  /** Nothing is lost and nothing is doubled: every task index is queued, in work or finished,
      and counts once. */
  ghost predicate Partition(s: State, count: nat) {
    multiset(s.q.queue) + multiset(Tasks(s.q.inWork)) + multiset(s.finished) == multiset(Indices(count))
  }

  /** Each node in work has one owner, and each owner's node is in work. */
  ghost predicate Owned(s: State) {
    && DistinctIds(s.q.inWork)
    && (forall x :: x in s.q.inWork ==> x.id < s.q.nextId)
    && (forall t {:trigger Holds(s.threads[t])} :: t in s.threads && Holds(s.threads[t]) ==>
          Node(s.threads[t].id, s.threads[t].task) in s.q.inWork)
    && (forall t, u {:trigger Holds(s.threads[t]), Holds(s.threads[u])} ::
          (t in s.threads && u in s.threads && Holds(s.threads[t]) && Holds(s.threads[u]) &&
           s.threads[t].id == s.threads[u].id) ==> t == u)
    && (forall x :: x in s.q.inWork ==> HasOwner(s.threads, x.id))
  }

  predicate Owner(threads: map<Tid, Pc>, t: Tid, id: nat) {
    t in threads && Holds(threads[t]) && threads[t].id == id
  }

  ghost predicate HasOwner(threads: map<Tid, Pc>, id: nat) {
    exists t :: Owner(threads, t, id)
  }

  /** The result vector is the log, and the log has one entry for each task that is finished or
      recorded. */
  ghost predicate Logged(s: State, count: nat) {
    && s.q.result == Values(s.log)
    && s.q.inQueue == count - |s.log|
    && (forall i, j :: 0 <= i < j < |s.log| ==> s.log[i].0 != s.log[j].0)
    && (forall i :: 0 <= i < |s.log| ==>
          s.log[i].0 in s.finished ||
          exists t {:trigger s.threads[t]} :: t in s.threads && s.threads[t].Recorded? && s.threads[t].task == s.log[i].0)
    && (forall x :: x in s.finished ==> InLog(s.log, x))
    && (forall t {:trigger s.threads[t]} :: t in s.threads && s.threads[t].Recorded? ==> InLog(s.log, s.threads[t].task))
  }

  ghost predicate InLog(log: seq<(nat, real)>, x: nat) {
    exists i :: 0 <= i < |log| && log[i].0 == x
  }

  ghost predicate Publishing(s: State) {
    if s.q.open then s.q.pipe == []
    else s.q.queue == [] && s.q.inWork == [] && s.q.pipe == [Sum(s.q.result)]
  }

  ghost predicate OneInResult(s: State) {
    forall t, u {:trigger s.threads[t], s.threads[u]} ::
      (t in s.threads && u in s.threads && s.threads[t].InResult? && s.threads[u].InResult?) ==> t == u
  }

  ghost predicate Inv(s: State, count: nat) {
    Partition(s, count) && Owned(s) && Logged(s, count) && Publishing(s) && OneInResult(s)
  }

  // List facts.

  lemma {:induction false} TasksAt(inWork: seq<Node>)
    ensures |Tasks(inWork)| == |inWork|
    ensures forall i :: 0 <= i < |inWork| ==> Tasks(inWork)[i] == inWork[i].task
  {
    if inWork != [] {
      TasksAt(inWork[1..]);
    }
  }

  lemma {:induction false} EraseTasks(inWork: seq<Node>, id: nat)
    requires HasNode(inWork, id)
    ensures multiset(Tasks(inWork)) == multiset(Tasks(Erase(inWork, id))) + multiset{Deref(inWork, id)}
  {
    assert inWork == [inWork[0]] + inWork[1..];
    if inWork[0].id != id {
      var i :| 0 <= i < |inWork| && inWork[i].id == id;
      assert inWork[1..][i - 1].id == id;
      EraseTasks(inWork[1..], id);
      var rest := Erase(inWork[1..], id);
      assert ([inWork[0]] + rest)[1..] == rest;
    }
  }

  lemma DerefIs(inWork: seq<Node>, x: Node)
    requires DistinctIds(inWork) && x in inWork
    ensures HasNode(inWork, x.id) && Deref(inWork, x.id) == x.task
  {
    var i :| 0 <= i < |inWork| && inWork[i] == x;
    assert inWork[i].id == x.id;
    var y := Node(x.id, Deref(inWork, x.id));
    var j :| 0 <= j < |inWork| && inWork[j] == y;
  }

  lemma NodeTask(s: State, x: Node)
    requires x in s.q.inWork
    ensures x.task in multiset(Tasks(s.q.inWork))
  {
    TasksAt(s.q.inWork);
    var i :| 0 <= i < |s.q.inWork| && s.q.inWork[i] == x;
    assert Tasks(s.q.inWork)[i] == x.task;
  }

  lemma IndicesOnce(count: nat)
    ensures forall x: nat :: multiset(Indices(count))[x] == if x < count then 1 else 0
  {
    if count > 0 {
      IndicesOnce(count - 1);
      assert Indices(count) == Indices(count - 1) + [count - 1];
    }
  }

  lemma TwiceInSeq(s: seq<nat>, i: nat, j: nat)
    requires i < j < |s| && s[i] == s[j]
    ensures multiset(s)[s[i]] >= 2
  {
    assert s == s[..j] + [s[j]] + s[j + 1..];
    assert s[..j][i] == s[j];
  }

  /** A task in work is a task, is not queued, not finished, and not in work a second time. */
  lemma InWorkOnce(s: State, count: nat, x: Node)
    requires Partition(s, count) && x in s.q.inWork
    ensures x.task < count && x.task !in s.finished && x.task !in s.q.queue
    ensures forall y :: y in s.q.inWork && y.task == x.task ==> y == x
  {
    NodeTask(s, x);
    IndicesOnce(count);
    assert multiset(Indices(count))[x.task] <= 1;
    forall y | y in s.q.inWork && y.task == x.task ensures y == x {
      TasksAt(s.q.inWork);
      var i :| 0 <= i < |s.q.inWork| && s.q.inWork[i] == x;
      var j :| 0 <= j < |s.q.inWork| && s.q.inWork[j] == y;
      if i < j {
        TwiceInSeq(Tasks(s.q.inWork), i, j);
      } else if j < i {
        TwiceInSeq(Tasks(s.q.inWork), j, i);
      }
    }
  }

  // Preservation, one action at a time.

  ghost predicate Took(s: State, t: State, p: Tid, node: Node) {
    && s.q.queue != [] && node == Node(s.q.nextId, s.q.queue[|s.q.queue| - 1])
    && t.q.queue == s.q.queue[..|s.q.queue| - 1] && t.q.inWork == [node] + s.q.inWork
    && t.q.nextId == s.q.nextId + 1 && t.finished == s.finished
    && t.threads == s.threads[p := Working(node.id, node.task)]
  }

  lemma TakeKeepsPartition(s: State, t: State, count: nat, p: Tid, node: Node)
    requires Partition(s, count) && Took(s, t, p, node)
    ensures Partition(t, count)
  {
    assert s.q.queue == s.q.queue[..|s.q.queue| - 1] + [node.task];
    assert t.q.inWork[1..] == s.q.inWork;
    assert Tasks(t.q.inWork) == [node.task] + Tasks(s.q.inWork);
  }

  lemma TakeKeepsOwned(s: State, t: State, p: Tid, node: Node)
    requires Owned(s) && p in s.threads && s.threads[p].Asking? && Took(s, t, p, node)
    ensures Owned(t)
  {
    forall i, j | 0 <= i < j < |t.q.inWork| ensures t.q.inWork[i].id != t.q.inWork[j].id {
      assert t.q.inWork[j] == s.q.inWork[j - 1] && s.q.inWork[j - 1] in s.q.inWork;
    }
    forall x | x in t.threads && Holds(t.threads[x])
      ensures Node(t.threads[x].id, t.threads[x].task) in t.q.inWork
      ensures x != p ==> t.threads[x].id != node.id
    {
      assert x != p ==> Holds(s.threads[x]);
    }
    forall x, y | x in t.threads && y in t.threads && Holds(t.threads[x]) && Holds(t.threads[y]) &&
                  t.threads[x].id == t.threads[y].id
      ensures x == y
    {
      assert x != p ==> Holds(s.threads[x]);
      assert y != p ==> Holds(s.threads[y]);
    }
    forall x | x in t.q.inWork ensures HasOwner(t.threads, x.id) {
      if x == node {
        assert Owner(t.threads, p, x.id);
      } else {
        var u :| Owner(s.threads, u, x.id);
        assert Owner(t.threads, u, x.id);
      }
    }
  }

  /** Thread p gives its node back; nobody else is concerned. */
  lemma EraseKeepsOwned(s: State, t: State, p: Tid)
    requires Owned(s) && p in s.threads && Holds(s.threads[p])
    requires t.q.inWork == Erase(s.q.inWork, s.threads[p].id) && t.q.nextId == s.q.nextId
    requires p in t.threads && t.threads == s.threads[p := t.threads[p]] && !Holds(t.threads[p])
    ensures Owned(t)
  {
    EraseMembers(s.q.inWork, s.threads[p].id);
    forall x | x in t.threads && Holds(t.threads[x])
      ensures Node(t.threads[x].id, t.threads[x].task) in t.q.inWork
    {
      assert x != p && Holds(s.threads[x]);
    }
    forall x, y | x in t.threads && y in t.threads && Holds(t.threads[x]) && Holds(t.threads[y]) &&
                  t.threads[x].id == t.threads[y].id
      ensures x == y
    {
      assert Holds(s.threads[x]) && Holds(s.threads[y]);
    }
    forall x | x in t.q.inWork
      ensures HasOwner(t.threads, x.id)
    {
      var u :| Owner(s.threads, u, x.id);
      assert u != p && Owner(t.threads, u, x.id);
    }
  }

  /** Thread p moves on with the node it holds. */
  lemma HoldKeepsOwned(s: State, t: State, p: Tid)
    requires Owned(s) && p in s.threads && Holds(s.threads[p])
    requires t.q.inWork == s.q.inWork && t.q.nextId == s.q.nextId
    requires p in t.threads && t.threads == s.threads[p := t.threads[p]] && Holds(t.threads[p])
    requires t.threads[p].id == s.threads[p].id && t.threads[p].task == s.threads[p].task
    ensures Owned(t)
  {
    forall x | x in t.threads && Holds(t.threads[x])
      ensures Node(t.threads[x].id, t.threads[x].task) in t.q.inWork
    {
      assert Holds(s.threads[x]);
    }
    forall x, y | x in t.threads && y in t.threads && Holds(t.threads[x]) && Holds(t.threads[y]) &&
                  t.threads[x].id == t.threads[y].id
      ensures x == y
    {
      assert Holds(s.threads[x]) && Holds(s.threads[y]);
    }
    forall x | x in t.q.inWork
      ensures HasOwner(t.threads, x.id)
    {
      var u :| Owner(s.threads, u, x.id);
      assert Owner(t.threads, u, x.id);
    }
  }

  /** A thread without a node moves on without one. */
  lemma IdleKeepsOwned(s: State, t: State, p: Tid)
    requires Owned(s) && (p in s.threads ==> !Holds(s.threads[p]))
    requires t.q.inWork == s.q.inWork && t.q.nextId == s.q.nextId
    requires p in t.threads && t.threads == s.threads[p := t.threads[p]] && !Holds(t.threads[p])
    ensures Owned(t)
  {
    forall x | x in t.threads && Holds(t.threads[x])
      ensures Node(t.threads[x].id, t.threads[x].task) in t.q.inWork
    {
      assert x != p && Holds(s.threads[x]);
    }
    forall x, y | x in t.threads && y in t.threads && Holds(t.threads[x]) && Holds(t.threads[y]) &&
                  t.threads[x].id == t.threads[y].id
      ensures x == y
    {
      assert Holds(s.threads[x]) && Holds(s.threads[y]);
    }
    forall x | x in t.q.inWork
      ensures HasOwner(t.threads, x.id)
    {
      var u :| Owner(s.threads, u, x.id);
      assert u != p && Owner(t.threads, u, x.id);
    }
  }

  /** The log is not concerned when no thread enters or leaves the Recorded state. */
  lemma LoggedKeeps(s: State, t: State, count: nat, p: Tid)
    requires Logged(s, count) && p in t.threads && t.threads == s.threads[p := t.threads[p]]
    requires !t.threads[p].Recorded? && (p in s.threads ==> !s.threads[p].Recorded?)
    requires t.log == s.log && t.finished == s.finished && t.q.result == s.q.result && t.q.inQueue == s.q.inQueue
    ensures Logged(t, count)
  {
    forall i | 0 <= i < |t.log|
      ensures t.log[i].0 in t.finished ||
              exists x {:trigger t.threads[x]} :: x in t.threads && t.threads[x].Recorded? && t.threads[x].task == t.log[i].0
    {
      if s.log[i].0 !in s.finished {
        var x :| x in s.threads && s.threads[x].Recorded? && s.threads[x].task == s.log[i].0;
        assert t.threads[x] == s.threads[x];
      }
    }
    forall x | x in t.threads && t.threads[x].Recorded? ensures InLog(t.log, t.threads[x].task) {
      assert t.threads[x] == s.threads[x];
    }
  }

  lemma InLogGrows(log: seq<(nat, real)>, e: (nat, real), x: nat)
    ensures InLog(log, x) || e.0 == x ==> InLog(log + [e], x)
  {
    if InLog(log, x) {
      var i :| 0 <= i < |log| && log[i].0 == x;
      assert (log + [e])[i].0 == x;
    } else if e.0 == x {
      assert (log + [e])[|log|].0 == x;
    }
  }

  /** Leaving m_res: the log gets the first and only entry for this task. */
  lemma LeaveKeepsLogged(s: State, t: State, count: nat, p: Tid)
    requires Inv(s, count) && Next(s, Leave(p)) == Some(t)
    ensures Logged(t, count)
  {
    var pc := s.threads[p];
    var e := (pc.task, pc.value);
    assert Holds(pc);
    var x := Node(pc.id, pc.task);
    InWorkOnce(s, count, x);
    assert t.log[..|t.log| - 1] == s.log;
    forall i | 0 <= i < |s.log| ensures s.log[i].0 != pc.task {
      if s.log[i].0 == pc.task {
        var u :| u in s.threads && s.threads[u].Recorded? && s.threads[u].task == pc.task;
        assert Holds(s.threads[u]);
      }
    }
    forall i | 0 <= i < |t.log|
      ensures t.log[i].0 in t.finished ||
              exists u {:trigger t.threads[u]} :: u in t.threads && t.threads[u].Recorded? && t.threads[u].task == t.log[i].0
    {
      if i == |s.log| {
        assert t.threads[p].Recorded?;
      } else if s.log[i].0 !in s.finished {
        var u :| u in s.threads && s.threads[u].Recorded? && s.threads[u].task == s.log[i].0;
        assert t.threads[u] == s.threads[u];
      }
    }
    forall y | y in t.finished ensures InLog(t.log, y) {
      InLogGrows(s.log, e, y);
    }
    forall u | u in t.threads && t.threads[u].Recorded? ensures InLog(t.log, t.threads[u].task) {
      assert u != p ==> t.threads[u] == s.threads[u];
      InLogGrows(s.log, e, t.threads[u].task);
    }
  }

  lemma DeleteKeepsLogged(s: State, t: State, count: nat, p: Tid)
    requires Inv(s, count) && Next(s, Delete(p)) == Some(t)
    ensures Logged(t, count)
  {
    var pc := s.threads[p];
    forall i | 0 <= i < |t.log|
      ensures t.log[i].0 in t.finished ||
              exists u {:trigger t.threads[u]} :: u in t.threads && t.threads[u].Recorded? && t.threads[u].task == t.log[i].0
    {
      if s.log[i].0 !in s.finished && s.log[i].0 != pc.task {
        var u :| u in s.threads && s.threads[u].Recorded? && s.threads[u].task == s.log[i].0;
        assert t.threads[u] == s.threads[u];
      }
    }
    forall u | u in t.threads && t.threads[u].Recorded? ensures InLog(t.log, t.threads[u].task) {
      assert t.threads[u] == s.threads[u];
    }
  }

  lemma AskKeeps(s: State, t: State, count: nat, p: Tid)
    requires Inv(s, count) && Next(s, Ask(p)) == Some(t)
    ensures Inv(t, count)
  {
    StepKeepsOneInResult(s, Ask(p), t);
    LoggedKeeps(s, t, count, p);
    if s.q.queue != [] {
      var node := Node(s.q.nextId, s.q.queue[|s.q.queue| - 1]);
      TakeKeepsPartition(s, t, count, p, node);
      TakeKeepsOwned(s, t, p, node);
    } else {
      IdleKeepsOwned(s, t, p);
    }
  }

  lemma FailKeeps(s: State, t: State, count: nat, p: Tid)
    requires Inv(s, count) && Next(s, Fail(p)) == Some(t)
    ensures Inv(t, count)
  {
    StepKeepsOneInResult(s, Fail(p), t);
    assert Holds(s.threads[p]);
    EraseTasks(s.q.inWork, s.threads[p].id);
    EraseKeepsOwned(s, t, p);
    LoggedKeeps(s, t, count, p);
  }

  lemma DeleteKeepsPartition(s: State, t: State, count: nat, x: Node)
    requires Partition(s, count) && DistinctIds(s.q.inWork) && x in s.q.inWork
    requires t.q.queue == s.q.queue && t.q.inWork == Erase(s.q.inWork, x.id)
    requires t.finished == s.finished + {x.task}
    ensures Partition(t, count)
  {
    DerefIs(s.q.inWork, x);
    InWorkOnce(s, count, x);
    EraseTasks(s.q.inWork, x.id);
    assert multiset(t.finished) == multiset(s.finished) + multiset{x.task};
  }

  lemma DeleteKeeps(s: State, t: State, count: nat, p: Tid)
    requires Inv(s, count) && Next(s, Delete(p)) == Some(t)
    ensures Inv(t, count)
  {
    StepKeepsOneInResult(s, Delete(p), t);
    var pc := s.threads[p];
    assert Holds(pc);
    DeleteKeepsPartition(s, t, count, Node(pc.id, pc.task));
    EraseKeepsOwned(s, t, p);
    DeleteKeepsLogged(s, t, count, p);
  }

  lemma StepKeepsOneInResult(s: State, a: Action, t: State)
    requires OneInResult(s) && Next(s, a) == Some(t)
    ensures OneInResult(t)
  {
    forall x, y | x in t.threads && y in t.threads && t.threads[x].InResult? && t.threads[y].InResult?
      ensures x == y
    {
      if a.Reply? {
        assert !ResultLocked(s);
        assert x == a.t && y == a.t;
      } else {
        assert x in s.threads && s.threads[x] == t.threads[x];
        assert y in s.threads && s.threads[y] == t.threads[y];
      }
    }
  }

  /** Every critical section keeps the invariant. */
  lemma StepKeepsInv(s: State, a: Action, t: State, count: nat)
    requires Inv(s, count) && Next(s, a) == Some(t)
    ensures Inv(t, count)
  {
    match a
    case Arrive(p) =>
      StepKeepsOneInResult(s, a, t);
      IdleKeepsOwned(s, t, p);
      LoggedKeeps(s, t, count, p);
    case Ask(p) => AskKeeps(s, t, count, p);
    case Fail(p) => FailKeeps(s, t, count, p);
    case Reply(p, value) =>
      StepKeepsOneInResult(s, a, t);
      assert Holds(s.threads[p]);
      HoldKeepsOwned(s, t, p);
      LoggedKeeps(s, t, count, p);
    case Leave(p) =>
      StepKeepsOneInResult(s, a, t);
      assert Holds(s.threads[p]);
      HoldKeepsOwned(s, t, p);
      LeaveKeepsLogged(s, t, count, p);
    case Delete(p) => DeleteKeeps(s, t, count, p);
  }

  lemma {:induction false} RunKeepsInv(ss: seq<State>, acts: seq<Action>, count: nat, i: nat)
    requires IsRun(ss, acts, count) && i < |ss|
    ensures Inv(ss[i], count)
  {
    if i > 0 {
      RunKeepsInv(ss, acts, count, i - 1);
      StepKeepsInv(ss[i - 1], acts[i - 1], ss[i], count);
    }
  }
}
