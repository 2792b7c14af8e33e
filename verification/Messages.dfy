/** syncViaMessages/message.c: n children print 1 to n in turn, passing one message on. */
module Messages {
  import opened Common

  /** What child number k does next: msgrcv of type k + 1, printf, msgsnd of type k + 2. Broken is
      the end of a child whose queue was gone. */
  datatype ChildPc = Receive | Print | Send | Exited | Broken

  /** What the parent does next; i is its loop variable, with which it goes on to the label. */
  datatype ParentPc = Fork(i: nat) | Post(i: nat) | Wait(i: nat, j: nat) | Remove | Done

  /** `queue` holds the types of the messages in the queue, `reaped` counts the children that wait
      has returned. */
  datatype State = State(pc: ParentPc, children: seq<ChildPc>, reaped: nat, queue: multiset<nat>, removed: bool, printed: seq<nat>)

  const START := State(Fork(0), [], 0, multiset{}, false, [])

  function ExitCount(children: seq<ChildPc>): nat {
    if children == [] then 0
    else ExitCount(children[..|children| - 1]) + if children[|children| - 1].Exited? then 1 else 0
  }

  /** The parent's next statement. `ok` says whether fork succeeds; wait returns at once when there
      is no child left to wait for. */
  function ParentNext(n: nat, s: State, ok: bool): Option<State> {
    match s.pc
    case Fork(i) =>
      if !ok then Some(State(Post(i), s.children, s.reaped, s.queue, s.removed, s.printed))
      else
        var pc := if i + 1 == n then Post(i) else Fork(i + 1);
        Some(State(pc, s.children + [Receive], s.reaped, s.queue, s.removed, s.printed))
    case Post(i) => Some(State(Wait(i, 0), s.children, s.reaped, s.queue + multiset{1}, s.removed, s.printed))
    case Wait(i, j) =>
      if j > i then Some(State(Remove, s.children, s.reaped, s.queue, s.removed, s.printed))
      else if s.reaped == |s.children| then Some(State(Wait(i, j + 1), s.children, s.reaped, s.queue, s.removed, s.printed))
      else if s.reaped < ExitCount(s.children) then
        Some(State(Wait(i, j + 1), s.children, s.reaped + 1, s.queue, s.removed, s.printed))
      else None
    case Remove => Some(State(Done, s.children, s.reaped, multiset{}, true, s.printed))
    case Done => None
  }

  /** Child k has a next statement, and it does not block. */
  predicate ChildCan(children: seq<ChildPc>, queue: multiset<nat>, removed: bool, k: nat) {
    k < |children| && match children[k]
                      case Receive => removed || k + 1 in queue
                      case Print => true
                      case Send => true
                      case _ => false
  }

  /** The next statement of child k. */
  function ChildNext(s: State, k: nat): Option<State> {
    if !ChildCan(s.children, s.queue, s.removed, k) then None
    else match s.children[k]
      case Receive =>
        if s.removed then Some(State(s.pc, s.children[k := Broken], s.reaped, s.queue, s.removed, s.printed))
        else Some(State(s.pc, s.children[k := Print], s.reaped, s.queue - multiset{k + 1}, s.removed, s.printed))
      case Print =>
        Some(State(s.pc, s.children[k := Send], s.reaped, s.queue, s.removed, s.printed + [k + 1]))
      case Send =>
        if s.removed then Some(State(s.pc, s.children[k := Broken], s.reaped, s.queue, s.removed, s.printed))
        else Some(State(s.pc, s.children[k := Exited], s.reaped, s.queue + multiset{k + 2}, s.removed, s.printed))
      case _ => None
  }

  datatype Action = Parent(ok: bool) | Child(k: nat)

  function Next(n: nat, s: State, a: Action): Option<State> {
    match a
    case Parent(ok) => ParentNext(n, s, ok)
    case Child(k) => ChildNext(s, k)
  }

  ghost predicate IsRun(n: nat, ss: seq<State>, acts: seq<Action>) {
    && n >= 1 && |ss| == |acts| + 1 && ss[0] == START
    && forall i {:trigger acts[i]} :: 0 <= i < |acts| ==> Next(n, ss[i], acts[i]) == Some(ss[i + 1])
  }

  // The invariant.

  /** 1, ..., m */
  function UpTo(m: nat): (r: seq<nat>)
    ensures |r| == m && forall i :: 0 <= i < m ==> r[i] == i + 1
  {
    if m == 0 then [] else UpTo(m - 1) + [m]
  }

  /** All children before t have passed the message on, and all after t wait for it. */
  ghost predicate Around(children: seq<ChildPc>, t: nat) {
    && t <= |children|
    && (forall k :: 0 <= k < t ==> children[k] == Exited)
    && (forall k :: t < k < |children| ==> children[k] == Receive)
  }

  /** The message is in the queue for child t, or child t has it. */
  ghost predicate TokenAt(s: State, t: nat) {
    && Around(s.children, t)
    && if t == |s.children| || s.children[t] == Receive then
         s.queue == (if s.removed then multiset{} else multiset{t + 1}) && s.printed == UpTo(t)
       else
         && s.queue == multiset{} && (s.children[t] == Print || s.children[t] == Send)
         && s.printed == UpTo(if s.children[t] == Print then t else t + 1)
  }

  /** Before the parent posts the message. */
  ghost predicate Quiet(s: State) {
    s.queue == multiset{} && s.printed == [] && s.reaped == 0 && forall k :: 0 <= k < |s.children| ==> s.children[k] == Receive
  }

  ghost predicate InvAt(n: nat, s: State, t: nat) {
    && |s.children| <= n && (s.removed <==> s.pc == Done)
    && match s.pc
       case Fork(i) => |s.children| == i < n && Quiet(s)
       case Post(i) => i < n && (|s.children| == i || |s.children| == i + 1 == n) && Quiet(s)
       case Wait(i, j) =>
         && (|s.children| == i || |s.children| == i + 1 == n) && j <= i + 1
         && s.reaped == (if j <= |s.children| then j else |s.children|) <= ExitCount(s.children) && TokenAt(s, t)
       case _ => s.reaped == |s.children| == ExitCount(s.children) && TokenAt(s, t)
  }

  ghost predicate Inv(n: nat, s: State) {
    exists t :: InvAt(n, s, t)
  }

  lemma {:induction false} ExitCountBound(children: seq<ChildPc>)
    ensures ExitCount(children) <= |children|
    ensures ExitCount(children) == |children| ==> forall k :: 0 <= k < |children| ==> children[k] == Exited
  {
    if children != [] {
      ExitCountBound(children[..|children| - 1]);
    }
  }

  lemma {:induction false} ExitCountGrows(children: seq<ChildPc>, k: nat, pc: ChildPc)
    requires k < |children| && children[k] != Exited
    ensures ExitCount(children[k := pc]) == ExitCount(children) + if pc == Exited then 1 else 0
  {
    var n := |children| - 1;
    if k == n {
      assert children[k := pc][..n] == children[..n];
    } else {
      assert children[k := pc][..n] == children[..n][k := pc];
      ExitCountGrows(children[..n], k, pc);
    }
  }

  lemma {:induction false} ExitCountAround(children: seq<ChildPc>, t: nat)
    requires Around(children, t) && (t < |children| ==> children[t] != Exited)
    ensures ExitCount(children) == t
  {
    if children != [] {
      var n := |children| - 1;
      ExitCountAround(children[..n], if t <= n then t else n);
    }
  }

  lemma ForkKeeps(n: nat, s: State, ok: bool, u: State, t: nat)
    requires InvAt(n, s, t) && s.pc.Fork? && ParentNext(n, s, ok) == Some(u)
    ensures InvAt(n, u, t)
  {
  }

  lemma PostKeeps(n: nat, s: State, ok: bool, u: State, t: nat)
    requires InvAt(n, s, t) && s.pc.Post? && ParentNext(n, s, ok) == Some(u)
    ensures InvAt(n, u, 0)
  {
    assert Around(u.children, 0) && TokenAt(u, 0);
  }

  /** The parent moves on and leaves the token where it is. */
  lemma WaitKeeps(n: nat, s: State, ok: bool, u: State, t: nat)
    requires InvAt(n, s, t) && s.pc.Wait? && ParentNext(n, s, ok) == Some(u)
    ensures InvAt(n, u, t)
  {
    ExitCountBound(s.children);
    assert TokenAt(u, t);
  }

  lemma RemoveKeeps(n: nat, s: State, ok: bool, u: State, t: nat)
    requires InvAt(n, s, t) && s.pc == Remove && ParentNext(n, s, ok) == Some(u)
    ensures InvAt(n, u, t)
  {
    ExitCountBound(s.children);
    assert t == |s.children|;
    assert TokenAt(u, t);
  }

  lemma ParentKeeps(n: nat, s: State, ok: bool, u: State, t: nat)
    requires InvAt(n, s, t) && ParentNext(n, s, ok) == Some(u)
    ensures Inv(n, u)
  {
    match s.pc
    case Fork(_) => ForkKeeps(n, s, ok, u, t);
    case Post(_) => PostKeeps(n, s, ok, u, t);
    case Wait(_, _) => WaitKeeps(n, s, ok, u, t);
    case Remove => RemoveKeeps(n, s, ok, u, t);
  }

  lemma OnlyTheTokenMoves(s: State, k: nat, t: nat)
    requires TokenAt(s, t) && !s.removed && ChildCan(s.children, s.queue, s.removed, k)
    ensures k == t < |s.children| && s.children[t] in {Receive, Print, Send}
  {
  }

  /** No child moves before the message is posted, or when all have exited. */
  lemma ChildrenMoveInWait(n: nat, s: State, k: nat, t: nat)
    requires InvAt(n, s, t) && ChildCan(s.children, s.queue, s.removed, k)
    ensures s.pc.Wait? && !s.removed
  {
    ExitCountBound(s.children);
  }

  /** Only the child that has the message, or for which it is in the queue, can move. */
  lemma TokenMoves(s: State, k: nat, u: State, t: nat)
    requires TokenAt(s, t) && !s.removed && ChildNext(s, k) == Some(u)
    ensures k == t < |s.children| && s.children[t] in {Receive, Print, Send}
    ensures TokenAt(u, if s.children[t] == Send then t + 1 else t)
  {
    OnlyTheTokenMoves(s, k, t);
    assert Around(u.children, if s.children[t] == Send then t + 1 else t);
    if s.children[t] == Print {
      assert UpTo(t + 1) == UpTo(t) + [t + 1];
    }
  }

  lemma ChildKeeps(n: nat, s: State, k: nat, u: State, t: nat)
    requires InvAt(n, s, t) && ChildNext(s, k) == Some(u)
    ensures Inv(n, u)
  {
    ChildrenMoveInWait(n, s, k, t);
    TokenMoves(s, k, u, t);
    ExitCountGrows(s.children, k, u.children[k]);
    assert InvAt(n, u, if s.children[t] == Send then t + 1 else t);
  }

  lemma StepKeepsInv(n: nat, s: State, a: Action, u: State)
    requires Inv(n, s) && Next(n, s, a) == Some(u)
    ensures Inv(n, u)
  {
    var t: nat :| InvAt(n, s, t);
    match a
    case Parent(ok) => ParentKeeps(n, s, ok, u, t);
    case Child(k) => ChildKeeps(n, s, k, u, t);
  }

  lemma {:induction false} RunKeepsInv(n: nat, ss: seq<State>, acts: seq<Action>, i: nat)
    requires IsRun(n, ss, acts) && i <= |acts|
    ensures Inv(n, ss[i])
  {
    if i == 0 {
      assert InvAt(n, ss[0], 0);
    } else {
      RunKeepsInv(n, ss, acts, i - 1);
      StepKeepsInv(n, ss[i - 1], acts[i - 1], ss[i]);
    }
  }

  // What follows for a run.

  lemma {:induction false} UpToPrefix(m: nat, n: nat)
    requires m <= n
    ensures UpTo(m) == UpTo(n)[..m]
  {
    if m == n {
      assert UpTo(n)[..n] == UpTo(n);
    } else {
      UpToPrefix(m, n - 1);
    }
  }

  /** The children print 1, 2, 3, ... in this order and without a gap, and nobody prints more than
      there are children. */
  lemma PrintedInOrder(n: nat, ss: seq<State>, acts: seq<Action>, i: nat)
    requires IsRun(n, ss, acts) && i <= |acts|
    ensures |ss[i].printed| <= |ss[i].children| <= n
    ensures ss[i].printed == UpTo(n)[..|ss[i].printed|]
  {
    RunKeepsInv(n, ss, acts, i);
    UpToPrefix(|ss[i].printed|, n);
  }

  /** There is at most one message, in the queue and with the children together. */
  lemma OneToken(n: nat, ss: seq<State>, acts: seq<Action>, i: nat, k: nat)
    requires IsRun(n, ss, acts) && i <= |acts| && k < |ss[i].children| && ss[i].children[k] in {Print, Send}
    ensures ss[i].queue == multiset{}
    ensures forall k' :: 0 <= k' < |ss[i].children| && k' != k ==> ss[i].children[k'] !in {Print, Send}
  {
    RunKeepsInv(n, ss, acts, i);
    var t: nat :| InvAt(n, ss[i], t);
    ExitCountBound(ss[i].children);
    assert k == t;
  }

  lemma OneMessage(n: nat, ss: seq<State>, acts: seq<Action>, i: nat)
    requires IsRun(n, ss, acts) && i <= |acts|
    ensures |ss[i].queue| <= 1
  {
    RunKeepsInv(n, ss, acts, i);
  }

  /** The queue is removed only after every child has sent its message on, so no child ever finds
      it gone; by then every child has been waited for. */
  lemma QueueOutlivesChildren(n: nat, ss: seq<State>, acts: seq<Action>, i: nat)
    requires IsRun(n, ss, acts) && i <= |acts|
    ensures forall k :: 0 <= k < |ss[i].children| ==> ss[i].children[k] != Broken
    ensures ss[i].removed ==>
              ss[i].reaped == |ss[i].children| && forall k :: 0 <= k < |ss[i].children| ==> ss[i].children[k] == Exited
  {
    RunKeepsInv(n, ss, acts, i);
    ExitCountBound(ss[i].children);
  }

  lemma DoneIsPrinted(n: nat, s: State)
    requires Inv(n, s) && s.pc == Done
    ensures s.printed == UpTo(|s.children|)
  {
    var t: nat :| InvAt(n, s, t);
    ExitCountBound(s.children);
  }

  /** When the parent is done, every child there is has printed its number. */
  lemma DoneMeansPrinted(n: nat, ss: seq<State>, acts: seq<Action>, i: nat)
    requires IsRun(n, ss, acts) && i <= |acts| && ss[i].pc == Done
    ensures ss[i].printed == UpTo(|ss[i].children|)
  {
    RunKeepsInv(n, ss, acts, i);
    DoneIsPrinted(n, ss[i]);
  }

  lemma StepAddsNoChild(n: nat, s: State, a: Action, u: State)
    requires Next(n, s, a) == Some(u) && !s.pc.Fork?
    ensures !u.pc.Fork? && |u.children| == |s.children|
  {
  }

  /** After the parent's loop of forks there are as many children as before. */
  lemma {:induction false} ChildrenAreFixed(n: nat, ss: seq<State>, acts: seq<Action>, i: nat, j: nat)
    requires IsRun(n, ss, acts) && i <= j <= |acts| && !ss[i].pc.Fork?
    ensures !ss[j].pc.Fork? && |ss[j].children| == |ss[i].children|
  {
    if i < j {
      ChildrenAreFixed(n, ss, acts, i, j - 1);
      StepAddsNoChild(n, ss[j - 1], acts[j - 1], ss[j]);
    }
  }

  /** If fork fails when i children exist, the complete output is 1, ..., i. */
  lemma ForkFailureOutput(n: nat, ss: seq<State>, acts: seq<Action>, f: nat, j: nat)
    requires IsRun(n, ss, acts) && f < j <= |acts| && ss[f].pc.Fork? && acts[f] == Parent(false) && ss[j].pc == Done
    ensures |ss[f].children| == ss[f].pc.i && ss[j].printed == UpTo(ss[f].pc.i)
  {
    RunKeepsInv(n, ss, acts, f);
    assert Next(n, ss[f], acts[f]) == Some(ss[f + 1]);
    ChildrenAreFixed(n, ss, acts, f + 1, j);
    DoneMeansPrinted(n, ss, acts, j);
  }

  ghost predicate NoForkFails(ss: seq<State>, acts: seq<Action>, i: nat)
    requires i <= |acts| <= |ss|
  {
    forall f {:trigger acts[f]} :: 0 <= f < i && acts[f] == Parent(false) ==> !ss[f].pc.Fork?
  }

  lemma StepForks(n: nat, s: State, a: Action, u: State)
    requires Inv(n, s) && Next(n, s, a) == Some(u) && (a == Parent(false) ==> !s.pc.Fork?)
    requires s.pc.Fork? || |s.children| == n
    ensures u.pc.Fork? || |u.children| == n
  {
    if !s.pc.Fork? {
      StepAddsNoChild(n, s, a, u);
    }
  }

  lemma {:induction false} AllForked(n: nat, ss: seq<State>, acts: seq<Action>, i: nat)
    requires IsRun(n, ss, acts) && i <= |acts|
    requires NoForkFails(ss, acts, i)
    ensures ss[i].pc.Fork? || |ss[i].children| == n
  {
    if i > 0 {
      AllForked(n, ss, acts, i - 1);
      RunKeepsInv(n, ss, acts, i - 1);
      assert acts[i - 1] == Parent(false) ==> !ss[i - 1].pc.Fork?;
      StepForks(n, ss[i - 1], acts[i - 1], ss[i]);
    }
  }

  /** If no fork fails, the complete output is 1, ..., n. */
  lemma CompleteOutput(n: nat, ss: seq<State>, acts: seq<Action>, i: nat)
    requires IsRun(n, ss, acts) && i <= |acts| && ss[i].pc == Done
    requires NoForkFails(ss, acts, i)
    ensures ss[i].printed == UpTo(n)
  {
    AllForked(n, ss, acts, i);
    DoneMeansPrinted(n, ss, acts, i);
  }

  // Progress and termination.

  /** Something can move until the parent is done. */
  lemma SomethingMoves(n: nat, s: State)
    requires Inv(n, s) && s.pc != Done
    ensures ParentNext(n, s, true).Some? || exists k: nat :: ChildCan(s.children, s.queue, s.removed, k)
  {
    var t: nat :| InvAt(n, s, t);
    if t == |s.children| && s.pc.Wait? {
      ExitCountAround(s.children, t);
    } else if s.pc.Wait? && ParentNext(n, s, true).None? {
      assert ChildCan(s.children, s.queue, s.removed, t);
    }
  }

  function Work(children: seq<ChildPc>): nat {
    if children == [] then 0
    else Work(children[..|children| - 1]) +
         match children[|children| - 1]
         case Receive => 3
         case Print => 2
         case Send => 1
         case _ => 0
  }

  lemma {:induction false} WorkDrops(children: seq<ChildPc>, k: nat, pc: ChildPc)
    requires k < |children|
    requires (children[k] == Receive && pc == Print) || (children[k] == Print && pc == Send) || (children[k] == Send && pc == Exited)
    ensures Work(children[k := pc]) == Work(children) - 1
  {
    var n := |children| - 1;
    if k == n {
      assert children[k := pc][..n] == children[..n];
    } else {
      assert children[k := pc][..n] == children[..n][k := pc];
      WorkDrops(children[..n], k, pc);
    }
  }

  /** Statements that are left. */
  function Budget(n: nat, s: State): int {
    3 * (n - |s.children|) + Work(s.children) +
    match s.pc
    case Fork(i) => 2 * n - i + 3
    case Post(i) => n + 3
    case Wait(i, j) => i + 1 - j + 2
    case Remove => 1
    case Done => 0
  }

  lemma ParentLowersBudget(n: nat, s: State, ok: bool, u: State, t: nat)
    requires InvAt(n, s, t) && ParentNext(n, s, ok) == Some(u)
    ensures Budget(n, u) < Budget(n, s)
  {
    if s.pc.Fork? && ok {
      assert u.children[..|s.children|] == s.children;
    } else {
      assert u.children == s.children;
    }
  }

  lemma ChildLowersBudget(n: nat, s: State, k: nat, u: State, t: nat)
    requires InvAt(n, s, t) && ChildNext(s, k) == Some(u)
    ensures Budget(n, u) < Budget(n, s)
  {
    ChildrenMoveInWait(n, s, k, t);
    TokenMoves(s, k, u, t);
    WorkDrops(s.children, k, u.children[k]);
  }

  lemma StepLowersBudget(n: nat, s: State, a: Action, u: State)
    requires Inv(n, s) && Next(n, s, a) == Some(u)
    ensures Budget(n, u) < Budget(n, s)
  {
    var t: nat :| InvAt(n, s, t);
    match a
    case Parent(ok) => ParentLowersBudget(n, s, ok, u, t);
    case Child(k) => ChildLowersBudget(n, s, k, u, t);
  }

  lemma {:induction false} RunSpendsBudget(n: nat, ss: seq<State>, acts: seq<Action>, i: nat)
    requires IsRun(n, ss, acts) && i <= |acts|
    ensures i + Budget(n, ss[i]) <= 5 * n + 3
  {
    if i > 0 {
      RunSpendsBudget(n, ss, acts, i - 1);
      RunKeepsInv(n, ss, acts, i - 1);
      StepLowersBudget(n, ss[i - 1], acts[i - 1], ss[i]);
    }
  }

  /** Every run is finite, whatever the interleaving. */
  lemma RunsAreBounded(n: nat, ss: seq<State>, acts: seq<Action>)
    requires IsRun(n, ss, acts)
    ensures |acts| <= 5 * n + 3
  {
    RunSpendsBudget(n, ss, acts, |acts|);
    RunKeepsInv(n, ss, acts, |acts|);
  }
}
