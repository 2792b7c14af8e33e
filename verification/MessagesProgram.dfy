/** main of syncViaMessages/message.c: the parent as it is written, its children one statement at a
    time whenever the scheduler lets one of them run. */
module MessagesProgram {
  import opened Common
  import opened Messages

  lemma BudgetIsNat(n: nat, s: State)
    requires Inv(n, s)
    ensures Budget(n, s) >= 0
  {
  }

  class Family {
    const n: nat
    const fails: nat -> bool      // whether the fork of child k fails
    ghost var pc: ParentPc        // the parent's place in main
    var children: seq<ChildPc>    // the children's places in main
    var reaped: nat
    var queue: multiset<nat>
    var removed: bool
    var printed: seq<nat>

    ghost function View(): State
      reads this
    {
      State(pc, children, reaped, queue, removed, printed)
    }

    ghost predicate Valid()
      reads this
    {
      Inv(n, View())
    }

    constructor (n: nat, fails: nat -> bool)
      requires n >= 1
      ensures this.n == n && this.fails == fails && View() == START && Valid()
    {
      this.n, this.fails := n, fails;
      pc, children, reaped, queue, removed, printed := Fork(0), [], 0, multiset{}, false, [];
      new;
      assert InvAt(n, View(), 0);
    }

    predicate ForkFails(k: nat) {
      fails(k)
    }

    /** k forks succeeded, and they were all, or the next failed. */
    ghost predicate Forked(k: nat) {
      && k <= n && (k < n ==> ForkFails(k))
      && forall j :: 0 <= j < k ==> !ForkFails(j)
    }

    /** The next statement of child k. */
    method ChildStatement(k: nat)
      requires ChildCan(children, queue, removed, k)
      modifies this`children, this`queue, this`printed
      ensures ChildNext(old(View()), k) == Some(View())
    {
      match children[k]
      case Receive =>
        if removed {
          children := children[k := Broken];
        } else {
          queue := queue - multiset{k + 1};
          children := children[k := ChildPc.Print];
        }
      case Print =>
        printed := printed + [k + 1];
        children := children[k := ChildPc.Send];
      case Send =>
        if removed {
          children := children[k := Broken];
        } else {
          queue := queue + multiset{k + 2};
          children := children[k := Exited];
        }
    }

    ghost function Left(): int
      reads this
    {
      Budget(n, View())
    }

    method ChildStep(k: nat)
      requires Valid() && ChildCan(children, queue, removed, k)
      modifies this`children, this`queue, this`printed
      ensures Valid() && 0 <= Left() < old(Left()) && |children| == |old(children)|
    {
      ghost var s := View();
      ChildStatement(k);
      StepKeepsInv(n, s, Action.Child(k), View());
      StepLowersBudget(n, s, Action.Child(k), View());
      BudgetIsNat(n, View());
    }

    /** The children run for as long as the scheduler likes. */
    method ChildrenRun()
      requires Valid()
      modifies this`children, this`queue, this`printed
      ensures Valid() && |children| == |old(children)|
    {
      BudgetIsNat(n, View());
      var k: nat := *;
      while ChildCan(children, queue, removed, k)
        invariant Valid() && |children| == |old(children)| && Left() >= 0
        decreases Left()
      {
        ChildStep(k);
        k := *;
      }
    }

    /** wait(NULL) sleeps until one more child has exited, or there is none left. */
    method Sleep()
      requires Valid() && pc.Wait?
      modifies this`children, this`queue, this`printed
      ensures Valid() && |children| == |old(children)| && (reaped < ExitCount(children) || reaped == |children|)
    {
      ChildrenRun();
      BudgetIsNat(n, View());
      while reaped < |children| && reaped >= ExitCount(children)
        invariant Valid() && |children| == |old(children)| && Left() >= 0 && reaped <= |children|
        decreases Left()
      {
        SomethingMoves(n, View());
        var k: nat :| ChildCan(children, queue, removed, k);
        ChildStep(k);
      }
    }

    method WaitChild()
      requires Valid() && pc.Wait? && pc.j <= pc.i
      modifies this`children, this`queue, this`printed, this`reaped, this`pc
      ensures Valid() && pc == ParentPc.Wait(old(pc).i, old(pc).j + 1) && |children| == |old(children)|
    {
      Sleep();
      ghost var s := View();
      if reaped < |children| {
        reaped := reaped + 1;
      }
      pc := ParentPc.Wait(pc.i, pc.j + 1);
      StepKeepsInv(n, s, Action.Parent(true), View());
    }

    /** The loop of forks; i is the loop variable at the label, which the loop reaches with the first
        fork that fails or after the last. */
    method ForkLoop() returns (failed: bool, i: nat)
      requires n >= 1 && Valid() && pc == Fork(0)
      modifies this`children, this`queue, this`printed, this`pc
      ensures Valid() && pc == Post(i) && Forked(|children|)
      ensures if failed then i == |children| < n else i == n - 1 && |children| == n
    {
      i := 0;
      while true
        invariant Valid() && i < n && pc == Fork(i) && |children| == i
        invariant forall j :: 0 <= j < i ==> !ForkFails(j)
        decreases n - i
      {
        ChildrenRun();
        ghost var s := View();
        failed := ForkFails(i);
        if failed {
          pc := Post(i);
          StepKeepsInv(n, s, Action.Parent(false), View());
          return;
        }
        children := children + [Receive];
        pc := if i + 1 == n then Post(i) else Fork(i + 1);
        StepKeepsInv(n, s, Action.Parent(true), View());
        if i == n - 1 {
          return;
        }
        i := i + 1;
      }
    }

    /** msgsnd of the message for child 0. */
    method PostFirst(ghost i: nat)
      requires Valid() && pc == Post(i)
      modifies this`children, this`printed, this`queue, this`pc
      ensures Valid() && pc == ParentPc.Wait(i, 0) && |children| == |old(children)|
    {
      ChildrenRun();
      ghost var s := View();
      queue := queue + multiset{1};
      pc := ParentPc.Wait(i, 0);
      StepKeepsInv(n, s, Action.Parent(true), View());
    }

    /** msgctl(messKey, IPC_RMID, NULL) */
    method RemoveQueue(ghost i: nat)
      requires Valid() && pc == ParentPc.Wait(i, i + 1)
      modifies this`children, this`printed, this`queue, this`pc, this`removed
      ensures Valid() && pc == ParentPc.Done && removed && |children| == |old(children)|
    {
      ChildrenRun();
      ghost var s := View();
      pc := Remove;
      StepKeepsInv(n, s, Action.Parent(true), View());
      s := View();
      pc, removed, queue := ParentPc.Done, true, multiset{};
      StepKeepsInv(n, s, Action.Parent(true), View());
    }

    /** The parent's main, up to its return. It always gets there; by then the children that could
        be forked have printed 1, 2, ... in order, all n of them unless a fork failed. */
    method Run() returns (failed: bool)
      requires n >= 1 && View() == START && Valid()
      modifies this
      ensures Valid() && removed && Forked(|children|) && (failed <==> |children| < n)
      ensures printed == UpTo(|children|)
    {
      var i;
      failed, i := ForkLoop();
      PostFirst(i);
      var j := 0;
      while j <= i
        invariant Valid() && j <= i + 1 && pc == ParentPc.Wait(i, j)
        invariant Forked(|children|) && if failed then i == |children| < n else i == n - 1 && |children| == n
      {
        WaitChild();
        j := j + 1;
      }
      RemoveQueue(i);
      DoneIsPrinted(n, View());
    }
  }
}
