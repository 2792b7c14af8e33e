/** Every run of the shared-memory transfer comes to rest once no more processes arrive. */
module SharedTransferBound {
  import opened Common
  import opened SharedTransfer
  import opened SharedTransferInvariant
  import opened SharedTransferTheorems

  function Work(q: Proc): nat {
    if q.Reader? then ReaderWork(q) else WriterWork(q)
  }

  ghost function TotalWork(procs: map<Pid, Proc>): nat
    decreases |procs|
  {
    if p :| p in procs then Work(procs[p]) + TotalWork(procs - {p}) else 0
  }

  lemma {:induction false} TotalWorkSplits(procs: map<Pid, Proc>, p: Pid)
    requires p in procs
    ensures TotalWork(procs) == Work(procs[p]) + TotalWork(procs - {p})
    decreases |procs|
  {
    var x :| x in procs && TotalWork(procs) == Work(procs[x]) + TotalWork(procs - {x});
    if x != p {
      TotalWorkSplits(procs - {x}, p);
      TotalWorkSplits(procs - {p}, x);
      assert procs - {x} - {p} == procs - {p} - {x};
    }
  }

  lemma TotalWorkMoves(procs: map<Pid, Proc>, p: Pid, q: Proc)
    requires p in procs
    ensures TotalWork(procs[p := q]) == TotalWork(procs) - Work(procs[p]) + Work(q)
  {
    TotalWorkSplits(procs, p);
    TotalWorkSplits(procs[p := q], p);
    assert procs[p := q] - {p} == procs - {p};
  }

  /** What the live processes still have to do: their own statements, and three more statements
      of a writer for each READ token. */
  ghost function Budget(s: State): int {
    TotalWork(s.procs) + 3 * s.vals.read
  }

  lemma UndoIsNegative(s: State, p: Pid)
    requires Inv(s) && p in s.procs
    ensures s.procs[p].adj.read <= 0 && s.vals.read >= 0
  {
    var r, w :| InvAt(s, r, w);
    assert ProcOk(s, p);
  }

  lemma DeathLowersBudget(s: State, p: Pid, scrap: seq<Byte>, m: nat, k: nat, t: State)
    requires s.size <= |s.data| && p in s.procs && Died(s, p, scrap, m, k) == Some(t)
    requires s.procs[p].adj.read <= 0 && s.vals.read >= 0
    ensures Budget(t) < Budget(s)
  {
    assert t.procs == s.procs[p := t.procs[p]];
    assert Work(t.procs[p]) == 0 && Work(s.procs[p]) > 0;
    TotalWorkMoves(s.procs, p, t.procs[p]);
  }

  /** Every step of a process, exits and crashes included, lowers the budget. */
  lemma StepLowersBudget(s: State, a: Action, t: State)
    requires Inv(s) && Step(s, a, t) && !a.Arrive?
    ensures 0 <= Budget(t) < Budget(s)
  {
    CountersFacts(s);
    StepKeepsInv(s, a, t);
    CountersFacts(t);
    match a
    case Run(p, k) =>
      if s.procs[p].Reader? {
        ReaderMoves(s, p, k, t);
      } else {
        WriterMoves(s, p, t);
      }
      TotalWorkMoves(s.procs, p, t.procs[p]);
    case Die(p, scrap, m, k) =>
      UndoIsNegative(s, p);
      DeathLowersBudget(s, p, scrap, m, k, t);
  }

  /** After the last arrival at most Budget steps remain, whoever makes them. Together with
      RestIsOneSided: left alone, the system always ends with nobody alive, or with processes of
      one kind that wait for a mate. */
  lemma {:induction false} RunsAreBounded(ss: seq<State>, acts: seq<Action>, i: nat, j: nat)
    requires IsRun(ss, acts) && i <= j < |ss|
    requires forall x {:trigger acts[x]} :: i <= x < |acts| ==> !acts[x].Arrive?
    ensures j - i <= Budget(ss[i]) - Budget(ss[j])
    ensures Budget(ss[j]) >= 0
  {
    RunKeepsInv(ss, acts, j);
    CountersFacts(ss[j]);
    if i < j {
      RunsAreBounded(ss, acts, i, j - 1);
      RunKeepsInv(ss, acts, j - 1);
      StepLowersBudget(ss[j - 1], acts[j - 1], ss[j]);
    }
  }

  // How often the mate of a writer still posts.

  /** What reader m can still post, and what is posted already. */
  function Fuel(s: State, m: Pid): int {
    (if m in s.procs && s.procs[m].Reader? then ReaderWork(s.procs[m]) else 0) + 3 * s.vals.read
  }

  lemma FuelIsNat(s: State, m: Pid)
    requires Inv(s)
    ensures Fuel(s, m) >= 0
  {
    CountersFacts(s);
  }

  /** While writer p is paired with m, no step of another process gives it more to take. */
  lemma OthersBurnFuel(s: State, a: Action, t: State, p: Pid, m: Pid)
    requires Reachable(s) && Step(s, a, t) && !a.Arrive? && a.p != p
    requires p in s.procs && WriterWorks(s.procs[p]) && s.procs[p].mate == Some(m) && m in s.procs
    ensures Fuel(t, m) <= Fuel(s, m)
  {
    ReachableInv(s);
    CountersFacts(s);
    match a
    case Run(x, k) =>
      if s.procs[x].Reader? {
        ReaderMoves(s, x, k, t);
        if s.procs[x].rpc == RPost {
          WorkingPair(s, x, p);
        }
      } else {
        WriterMoves(s, x, t);
      }
    case Die(x, scrap, size, k) => UndoIsNegative(s, x);
  }

  /** From s to t in steps of processes other than p. */
  ghost predicate Later(s: State, t: State, p: Pid) {
    exists ss, acts :: LaterRun(ss, acts, p) && ss[0] == s && ss[|acts|] == t
  }

  ghost predicate LaterRun(ss: seq<State>, acts: seq<Action>, p: Pid) {
    && |ss| == |acts| + 1
    && forall i {:trigger acts[i]} :: 0 <= i < |acts| ==> acts[i].p != p && Step(ss[i], acts[i], ss[i + 1])
  }

  lemma StepLeavesAlone(s: State, a: Action, t: State, p: Pid)
    requires Reachable(s) && Step(s, a, t) && a.p != p && p in s.procs
    ensures Reachable(t) && p in t.procs && t.procs[p] == s.procs[p]
  {
    ReachNext(s, a, t);
    ReachableInv(s);
    CountersFacts(s);
    if a.Run? {
      if s.procs[a.p].Reader? {
        ReaderMoves(s, a.p, a.k, t);
      } else {
        WriterMoves(s, a.p, t);
      }
    }
  }

  lemma {:induction false} LaterRunKeeps(ss: seq<State>, acts: seq<Action>, p: Pid, m: Pid, i: nat)
    requires LaterRun(ss, acts, p) && i <= |acts| && Reachable(ss[0]) && p in ss[0].procs
    ensures Reachable(ss[i]) && p in ss[i].procs && ss[i].procs[p] == ss[0].procs[p]
    ensures WriterWorks(ss[0].procs[p]) && ss[0].procs[p].mate == Some(m) ==> m in ss[0].procs && Fuel(ss[i], m) <= Fuel(ss[0], m)
  {
    if WriterWorks(ss[0].procs[p]) {
      MateDiesSlotEmpties(ss[0], p);
    }
    if i > 0 {
      LaterRunKeeps(ss, acts, p, m, i - 1);
      assert acts[i - 1].p != p && Step(ss[i - 1], acts[i - 1], ss[i - 1 + 1]);
      StepLeavesAlone(ss[i - 1], acts[i - 1], ss[i], p);
      if WriterWorks(ss[0].procs[p]) && ss[0].procs[p].mate == Some(m) {
        MateDiesSlotEmpties(ss[i - 1], p);
        if !acts[i - 1].Arrive? {
          OthersBurnFuel(ss[i - 1], acts[i - 1], ss[i], p, m);
        }
      }
    }
  }

  /** What p may rely on when others have run: it is where it was, and its mate has not got more
      to post. */
  lemma LaterKeeps(s: State, t: State, p: Pid, m: Pid)
    requires Reachable(s) && Later(s, t, p) && p in s.procs
    ensures Reachable(t) && p in t.procs && t.procs[p] == s.procs[p]
    ensures WriterWorks(s.procs[p]) && s.procs[p].mate == Some(m) ==> Fuel(t, m) <= Fuel(s, m)
  {
    var ss, acts :| LaterRun(ss, acts, p) && ss[0] == s && ss[|acts|] == t;
    LaterRunKeeps(ss, acts, p, m, |acts|);
  }

  lemma LaterIsReflexive(s: State, p: Pid)
    ensures Later(s, s, p)
  {
    var none: seq<Action> := [];
    assert LaterRun([s], none, p) && [s][0] == s && [s][|none|] == s;
  }
}
