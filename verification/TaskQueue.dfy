/** supercomputerCalculations/Task.cc: the queue of tasks that the server threads share. The class
    changes its fields as the source does; the functions say what each critical section does to
    the part of the state that the threads compete for. */
module TaskQueue {
  /** A node of the list `in_work`. Its id stands for the iterator that points to it. */
  datatype Node = Node(id: nat, task: nat)

  datatype Task = Task(begin: real, end: real, del: real, it: nat)

  /** `pipe` is what has been written to the result pipe. */
  datatype Shared = Shared(queue: seq<nat>, inWork: seq<Node>, nextId: nat,
                           result: seq<real>, inQueue: int, open: bool, pipe: seq<real>)

  /** What getTask tells its caller. */
  datatype Fetch = Stop | Nothing | Got(node: Node)

  function Sum(s: seq<real>): real {
    if s == [] then 0.0 else Sum(s[..|s| - 1]) + s[|s| - 1]
  }

  predicate HasNode(inWork: seq<Node>, id: nat) {
    exists i :: 0 <= i < |inWork| && inWork[i].id == id
  }

  /** list::erase */
  function Erase(inWork: seq<Node>, id: nat): seq<Node> {
    if inWork == [] then []
    else if inWork[0].id == id then inWork[1..]
    else [inWork[0]] + Erase(inWork[1..], id)
  }

  /** *it */
  function Deref(inWork: seq<Node>, id: nat): (t: nat)
    requires HasNode(inWork, id)
    ensures Node(id, t) in inWork
  {
    if inWork[0].id == id then inWork[0].task
    else
      assert HasNode(inWork[1..], id) by {
        var i :| 0 <= i < |inWork| && inWork[i].id == id;
        assert inWork[1..][i - 1].id == id;
      }
      Deref(inWork[1..], id)
  }

  // The critical sections.

  function AfterGet(s: Shared): (Shared, Fetch) {
    if s.queue == [] then
      if s.inWork == [] then
        if !s.open then (s, Stop) else (s.(open := false, pipe := s.pipe + [Sum(s.result)]), Stop)
      else (s, Nothing)
    else
      var node := Node(s.nextId, s.queue[|s.queue| - 1]);
      (s.(queue := s.queue[..|s.queue| - 1], inWork := [node] + s.inWork, nextId := s.nextId + 1), Got(node))
  }

  function AfterPush(s: Shared, id: nat): Shared
    requires HasNode(s.inWork, id)
  {
    s.(queue := s.queue + [Deref(s.inWork, id)], inWork := Erase(s.inWork, id))
  }

  /** The m_res section of write_result. */
  function AfterRecord(s: Shared, r: real): Shared {
    s.(result := s.result + [r], inQueue := s.inQueue - 1)
  }

  function AfterDelete(s: Shared, id: nat): Shared
    requires HasNode(s.inWork, id)
  {
    s.(inWork := Erase(s.inWork, id))
  }

  function Initial(count: nat): Shared {
    Shared(seq(count, i => i), [], 0, [], count, true, [])
  }

  /** Task number i of parts of length del. */
  function Part(begin: real, del: real, step: real, i: nat): Task {
    Task(begin + del * i as real, begin + del * (i + 1) as real, step, 0)
  }

  class TasksQueue {
    const tasksCount: nat
    const begin: real
    const end: real
    const del: real
    const step: real
    var pipeFd: int
    var inQueue: int
    var tasks: seq<Task>
    var queue: seq<nat>
    var result: seq<real>
    var inWork: seq<Node>
    var nextId: nat            // the next list node to be allocated
    var pipe: seq<real>

    ghost function View(): Shared
      reads this
    {
      Shared(queue, inWork, nextId, result, inQueue, pipeFd != 0, pipe)
    }

    /** Every queued index has a task, and its interval is one of the equal parts of the whole. */
    ghost predicate Valid()
      reads this
    {
      && |tasks| == tasksCount > 0 && del * tasksCount as real == end - begin && step > 0.0
      && (forall i :: 0 <= i < |queue| ==> queue[i] < tasksCount)
      && (forall i :: 0 <= i < |inWork| ==> inWork[i].task < tasksCount)
      && (forall i :: 0 <= i < tasksCount ==>
            tasks[i].begin == begin + del * i as real && tasks[i].end == begin + del * (i + 1) as real &&
            tasks[i].del == step)
    }

    constructor (fd: int, count: nat, begin: real, end: real, step: real)
      requires fd != 0 && count > 0 && step > 0.0
      ensures Valid() && View() == Initial(count) && tasksCount == count
      ensures this.begin == begin && this.end == end && this.step == step && pipeFd == fd
    {
      tasksCount := count;
      this.begin := begin;
      this.end := end;
      del := (end - begin) / count as real;
      this.step := step;
      pipeFd := fd;
      inQueue := count;
      result := [];
      inWork := [];
      nextId := 0;
      pipe := [];
      tasks := [];
      queue := [];
      new;
      var i := 0;
      while i != tasksCount
        invariant 0 <= i <= tasksCount && |tasks| == |queue| == i
        invariant queue == seq(i, j => j)
        invariant forall j :: 0 <= j < i ==> tasks[j] == Part(begin, del, step, j)
        invariant result == [] && inWork == [] && nextId == 0 && pipe == [] && inQueue == count && pipeFd == fd
      {
        ghost var before := tasks;
        tasks := tasks + [Part(begin, del, step, i)];
        assert forall j :: 0 <= j < i ==> tasks[j] == before[j];
        queue := queue + [i];
        i := i + 1;
      }
    }

    /** Under m_pop. Returns 1 when the caller should stop; otherwise task.del is zero when there
        was nothing to take. */
    method GetTask(task: Task) returns (code: int, task': Task)
      requires Valid()
      modifies this
      ensures Valid() && View() == AfterGet(old(View())).0
      ensures match AfterGet(old(View())).1
              case Stop => code == 1 && task' == task && tasks == old(tasks)
              case Nothing => code == 0 && task' == task.(del := 0.0) && tasks == old(tasks)
              case Got(node) =>
                && code == 0 && node.task < tasksCount && task' == old(tasks)[node.task].(it := node.id)
                && tasks == old(tasks)[node.task := task']
      ensures pipeFd == if View().open then old(pipeFd) else 0
    {
      task' := task;
      if queue == [] {
        if inWork == [] {
          if pipeFd == 0 {
            return 1, task';
          }
          var res := 0.0;
          var i := 0;
          while i != |result|
            invariant 0 <= i <= |result| && res == Sum(result[..i])
          {
            assert result[..i + 1][..i] == result[..i];
            res := res + result[i];
            i := i + 1;
          }
          assert result[..i] == result;
          pipe := pipe + [res];
          pipeFd := 0;
          return 1, task';
        }
        return 0, task.(del := 0.0);
      }
      var t := queue[|queue| - 1];
      inWork := [Node(nextId, t)] + inWork;
      tasks := tasks[t := tasks[t].(it := nextId)];
      nextId := nextId + 1;
      queue := queue[..|queue| - 1];
      return 0, tasks[t];
    }

    /** The m_res section of write_result; delete_task is the other. */
    method RecordResult(res: real)
      requires Valid()
      modifies this`result, this`inQueue
      ensures Valid() && View() == AfterRecord(old(View()), res)
    {
      result := result + [res];
      inQueue := inQueue - 1;
    }

    method PushTask(it: nat)
      requires Valid() && HasNode(inWork, it)
      modifies this`queue, this`inWork
      ensures Valid() && View() == AfterPush(old(View()), it)
    {
      var t := Deref(inWork, it);
      queue := queue + [t];
      EraseMembers(inWork, it);
      inWork := Erase(inWork, it);
    }

    method DeleteTask(it: nat)
      requires Valid() && HasNode(inWork, it)
      modifies this`inWork
      ensures Valid() && View() == AfterDelete(old(View()), it)
    {
      EraseMembers(inWork, it);
      inWork := Erase(inWork, it);
    }
  }

  // The program's own queue.

  const TASKS_COUNT: nat := 16
  const BEGIN := -100000.0
  const END := 100000.0
  const STEP := 0.00008

  /** TasksQueue(fd): sixteen tasks over an interval around zero. */
  method CreateQueue(fd: int) returns (q: TasksQueue)
    requires fd != 0
    ensures fresh(q) && q.Valid() && q.View() == Initial(TASKS_COUNT) && q.tasksCount == TASKS_COUNT && q.pipeFd == fd
    ensures q.begin == BEGIN && q.end == END && q.step == STEP
  {
    q := new TasksQueue(fd, TASKS_COUNT, BEGIN, END, STEP);
  }

  // Facts about the list.

  predicate DistinctIds(s: seq<Node>) {
    forall i, j :: 0 <= i < j < |s| ==> s[i].id != s[j].id
  }

  lemma {:induction false} EraseMembers(s: seq<Node>, id: nat)
    ensures forall x :: x in Erase(s, id) ==> x in s
    ensures forall x :: x in s && x.id != id ==> x in Erase(s, id)
    ensures DistinctIds(s) ==> DistinctIds(Erase(s, id)) && forall x :: x in Erase(s, id) ==> x.id != id
    ensures !HasNode(s, id) ==> Erase(s, id) == s
  {
    if s != [] {
      assert s == [s[0]] + s[1..];
      if s[0].id != id {
        EraseMembers(s[1..], id);
        if HasNode(s[1..], id) {
          var i :| 0 <= i < |s[1..]| && s[1..][i].id == id;
          assert s[i + 1].id == id;
        }
      } else {
        assert s[0].id == id;
      }
    }
  }
}
