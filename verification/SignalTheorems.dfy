/** What the invariant of the signal handshake means for a run. */
module SignalTheorems {
  import opened CharBits
  import opened Common
  import opened Signals

  /** The step calls kill. */
  predicate Kills(s: State, a: Action) {
    match a
    case Sender => s.child.pc == Send
    case Delivery(_) => false
    case Handler => Top(s.parent) == HKill
    case Base => s.parent.base == Kill
  }

  /** No other step leaves a signal that was not there. */
  lemma OnlyKillsSend(file: seq<Bits>, s: State, a: Action, u: State)
    requires Next(file, s, a) == Some(u) && !Kills(s, a)
    ensures u.pending <= s.pending && (u.answer ==> s.answer)
  {
  }

  /** No signal is ever lost for being pending already: whoever calls kill does so when neither
      process has a signal of the handshake pending. */
  lemma NothingLost(ss: seq<State>, acts: seq<Action>, file: seq<Bits>, i: nat)
    requires IsRun(ss, acts, file) && i < |acts| && Kills(ss[i], acts[i])
    ensures ss[i].pending == {} && !ss[i].answer
  {
    RunKeepsInv(ss, acts, file, i);
    assert Next(file, ss[i], acts[i]).Some?;
  }

  /** At most one signal is outstanding in the two directions together. */
  lemma OneOutstanding(ss: seq<State>, acts: seq<Action>, file: seq<Bits>, i: nat)
    requires IsRun(ss, acts, file) && i <= |acts|
    ensures |ss[i].pending| + (if ss[i].answer then 1 else 0) <= 1
  {
    RunKeepsInv(ss, acts, file, i);
  }

  /** Except inside a handler between its two assignments, and while the parent resets the two
      variables, the parent's c is what the low bits of the child's byte are, its bit counter
      says how many, and it is at most one behind the child's. */
  lemma BitsArrive(ss: seq<State>, acts: seq<Action>, file: seq<Bits>, i: nat)
    requires IsRun(ss, acts, file) && i <= |acts|
    requires Top(ss[i].parent) != HInc && ss[i].parent.base !in {ClearC, ClearBit}
    ensures var p, k := ss[i].parent, ss[i].child;
            && p.bit <= 8 && p.c == Low(k.c, p.bit)
            && (k.pc == Send ==> p.bit == k.bit)
            && (k.pc == AwaitBit ==> p.bit == k.bit || p.bit + 1 == k.bit)
  {
    RunKeepsInv(ss, acts, file, i);
    LowEnds(ss[i].child.c);
  }

  /** What has been printed is always a prefix of the file, no more than one byte behind what the
      child has read, and it is the whole file when the child has exited. */
  lemma OutputIsPrefix(ss: seq<State>, acts: seq<Action>, file: seq<Bits>, i: nat)
    requires IsRun(ss, acts, file) && i <= |acts|
    ensures ss[i].parent.out <= file
    ensures |ss[i].parent.out| <= ss[i].child.pos <= |ss[i].parent.out| + 1
    ensures ss[i].child.pc == Exited ==> ss[i].parent.out == file
  {
    RunKeepsInv(ss, acts, file, i);
    assert file[..|file|] == file;
  }

  lemma SignalRepeats(stack: seq<Frame>)
    requires |stack| > 3
    ensures exists i, j :: 0 <= i < j < 4 && stack[i].sig == stack[j].sig
  {
    var j := if stack[0].sig in {stack[2].sig, stack[1].sig} || stack[1].sig == stack[2].sig then 2 else 3;
    assert stack[0].sig == stack[j].sig || stack[1].sig == stack[j].sig || stack[2].sig == stack[j].sig || stack[0].sig == stack[1].sig;
  }

  /** Handlers nest, but at most three deep, and an interrupted handler has only its return left:
      no two handlers are ever between their statements, so they never race on c and bit. */
  lemma HandlersDoNotRace(ss: seq<State>, acts: seq<Action>, file: seq<Bits>, i: nat, d: nat)
    requires IsRun(ss, acts, file) && i <= |acts| && d + 1 < |ss[i].parent.stack|
    ensures |ss[i].parent.stack| <= 3 && ss[i].parent.stack[d].pc == HRet
  {
    RunKeepsInv(ss, acts, file, i);
    if |ss[i].parent.stack| > 3 {
      SignalRepeats(ss[i].parent.stack);
    }
  }

  // Progress and termination.

  /** Some step is enabled whatever further signals the running handlers block. */
  predicate CanMove(file: seq<Bits>, s: State) {
    || SenderNext(file, s).Some? || HandlerNext(s).Some? || BaseNext(s).Some?
    || (s.parent.stack == [] && s.parent.base == Suspend && s.pending != {})
  }

  lemma RestMeansDone(file: seq<Bits>, s: State)
    requires Inv(file, s)
    ensures !CanMove(file, s) <==> s.child.pc == Exited && s.parent.stack == [] && s.parent.base == Suspend
    ensures s.child.pc == Exited ==> s.parent.out == file
  {
    assert file[..|file|] == file;
  }

  /** No deadlock: a run can stop only when the child has exited and the parent waits in
      sigsuspend with no handler left, and then the whole file has been printed. */
  lemma RunsEndDelivered(ss: seq<State>, acts: seq<Action>, file: seq<Bits>)
    requires IsRun(ss, acts, file) && !CanMove(file, ss[|acts|])
    ensures ss[|acts|].child.pc == Exited && ss[|acts|].parent.out == file
  {
    RunKeepsInv(ss, acts, file, |acts|);
    RestMeansDone(file, ss[|acts|]);
  }

  /** Turns of the baton until the child goes on sending, while it waits for a bit. */
  function BitTurns(s: State): nat {
    if s.pending != {} then 5
    else if s.answer then 1
    else match Top(s.parent)
         case HOr => 4
         case HInc => 3
         case _ => 2
  }

  /** Turns of the baton until the child reads on, while it waits for a byte. */
  function CharTurns(s: State): nat {
    if s.pending != {} then 8
    else if s.answer then 1
    else if Top(s.parent) == HUpd then 7
    else if s.parent.updF then 6
    else match s.parent.base
         case Print => 5
         case ClearC => 4
         case ClearBit => 3
         case _ => 2
  }

  const BYTE_TURNS := 58

  /** Turns of the baton that are left. */
  function Turns(n: nat, s: State): int {
    BYTE_TURNS * (n - s.child.pos) +
    match s.child.pc
    case Load => 1
    case Send => 1 + 9 + 6 * (8 - s.child.bit)
    case AwaitBit => 1 + 9 + 6 * (8 - s.child.bit) + BitTurns(s)
    case AwaitChar => 1 + CharTurns(s)
    case Exited => 0
  }

  /** Steps that are left: the turns, the returns of handlers and of sigsuspend. */
  function Budget(n: nat, s: State): int {
    3 * Turns(n, s) + 2 * |s.parent.stack| + if s.parent.base == Check then 1 else 0
  }

  lemma BudgetIsNat(file: seq<Bits>, s: State)
    requires Phase(file, s)
    ensures Budget(|file|, s) >= 0
  {
  }

  lemma SenderLowersBudget(file: seq<Bits>, s: State, t: State)
    requires Inv(file, s) && SenderNext(file, s) == Some(t)
    ensures Budget(|file|, t) < Budget(|file|, s)
  {
  }

  lemma DeliverLowersBudget(file: seq<Bits>, s: State, sig: Sig, t: State)
    requires Inv(file, s) && Deliver(s, sig) == Some(t)
    ensures Budget(|file|, t) < Budget(|file|, s)
  {
    assert s.pending == {sig} && t.pending == {};
  }

  lemma BusyLowersBudget(file: seq<Bits>, s: State, t: State)
    requires Phase(file, s) && Top(s.parent) != HRet && HandlerNext(s) == Some(t)
    ensures Budget(|file|, t) < Budget(|file|, s)
  {
    assert |t.parent.stack| == |s.parent.stack|;
  }

  lemma ReturnLowersBudget(file: seq<Bits>, s: State, t: State)
    requires Inv(file, s) && Top(s.parent) == HRet && HandlerNext(s) == Some(t)
    ensures Budget(|file|, t) < Budget(|file|, s)
  {
    ReturnKeeps(file, s, t);
  }

  lemma BaseLowersBudget(file: seq<Bits>, s: State, t: State)
    requires Inv(file, s) && BaseNext(s) == Some(t)
    ensures Budget(|file|, t) < Budget(|file|, s)
  {
  }

  lemma StepLowersBudget(file: seq<Bits>, s: State, a: Action, t: State)
    requires Inv(file, s) && Next(file, s, a) == Some(t)
    ensures Budget(|file|, t) < Budget(|file|, s)
  {
    match a
    case Sender => SenderLowersBudget(file, s, t);
    case Delivery(sig) => DeliverLowersBudget(file, s, sig, t);
    case Handler =>
      if Top(s.parent) == HRet {
        ReturnLowersBudget(file, s, t);
      } else {
        BusyLowersBudget(file, s, t);
      }
    case Base => BaseLowersBudget(file, s, t);
  }

  lemma {:induction false} RunSpendsBudget(ss: seq<State>, acts: seq<Action>, file: seq<Bits>, i: nat)
    requires IsRun(ss, acts, file) && i <= |acts|
    ensures i + Budget(|file|, ss[i]) <= 3 * (BYTE_TURNS * |file| + 1)
  {
    if i > 0 {
      RunSpendsBudget(ss, acts, file, i - 1);
      RunKeepsInv(ss, acts, file, i - 1);
      assert Next(file, ss[i - 1], acts[i - 1]) == Some(ss[i]);
      StepLowersBudget(file, ss[i - 1], acts[i - 1], ss[i]);
    }
  }

  /** Every run is finite, whatever the scheduling: with RunsEndDelivered, every run that goes on
      as long as it can delivers the whole file. */
  lemma RunsAreBounded(ss: seq<State>, acts: seq<Action>, file: seq<Bits>)
    requires IsRun(ss, acts, file)
    ensures |acts| <= 174 * |file| + 3
  {
    RunSpendsBudget(ss, acts, file, |acts|);
    RunKeepsInv(ss, acts, file, |acts|);
    BudgetIsNat(file, ss[|acts|]);
  }
}
