/** transferViaSignals: the child (reader of the file) sends a byte bit by bit as signals, the
    parent (writer of the output) answers each. Signals do not queue, and handlers may nest. */
module Signals {
  import opened CharBits
  import opened Common

  datatype Sig = BIT0 | BIT1 | CHARFULL

  /** What a handler does next. */
  datatype HandlerPc = HOr | HInc | HKill | HUpd | HRet

  /** A handler that has been entered and has not returned. */
  datatype Frame = Frame(sig: Sig, pc: HandlerPc)

  /** What the parent's loop does next, outside of handlers. */
  datatype BasePc = Suspend | Check | Print | ClearC | ClearBit | Kill

  /** What the child does next: read a byte, send a bit or CHARFULL, wait for the answer. */
  datatype SenderPc = Load | Send | AwaitBit | AwaitChar | Exited

  /** The child: how much of the file it has read, its byte and its bit counter. */
  datatype Child = Child(pc: SenderPc, pos: nat, c: Bits, bit: nat)

  /** The parent: the handlers on `stack` run inside sigsuspend, the innermost last. */
  datatype Parent = Parent(base: BasePc, stack: seq<Frame>, c: Bits, bit: nat, updF: bool, out: seq<Bits>)

  /** `pending` and `answer` are the signals that wait to be delivered to the parent and to the
      child. A signal that is pending already is not counted again. */
  datatype State = State(child: Child, parent: Parent, pending: set<Sig>, answer: bool)

  /** What the child sends for one bit: BIT1 if c & (1 << bit), BIT0 otherwise. */
  function BitSig(c: Bits, bit: nat): Sig {
    if bit in c then BIT1 else BIT0
  }

  /** c |= 1 << bit, or c |= 0 << bit; see CharBits.OrSetsBit. */
  function Received(c: Bits, bit: nat, sig: Sig): Bits {
    if sig == BIT1 && bit < 8 then c + {bit} else c
  }

  const START := State(Child(Load, 0, {}, 0), Parent(Suspend, [], {}, 0, false, []), {}, false)

  /** The child's next statement; None while it waits in sigsuspend, or has exited. */
  function SenderNext(file: seq<Bits>, s: State): Option<State> {
    var k := s.child;
    match k.pc
    case Load =>
      if k.pos < |file| then Some(State(Child(Send, k.pos + 1, file[k.pos], 0), s.parent, s.pending, s.answer))
      else Some(State(Child(Exited, k.pos, k.c, k.bit), s.parent, s.pending, s.answer))
    case Send =>
      if k.bit < 8 then
        Some(State(Child(AwaitBit, k.pos, k.c, k.bit + 1), s.parent, s.pending + {BitSig(k.c, k.bit)}, s.answer))
      else
        Some(State(Child(AwaitChar, k.pos, k.c, k.bit), s.parent, s.pending + {CHARFULL}, s.answer))
    case AwaitBit => if s.answer then Some(State(Child(Send, k.pos, k.c, k.bit), s.parent, s.pending, false)) else None
    case AwaitChar => if s.answer then Some(State(Child(Load, k.pos, k.c, k.bit), s.parent, s.pending, false)) else None
    case Exited => None
  }

  predicate Running(stack: seq<Frame>, sig: Sig) {
    exists i :: 0 <= i < |stack| && stack[i].sig == sig
  }

  /** Signal sig interrupts the parent: in sigsuspend, or in a handler that does not block it. A
      handler blocks its own signal; it may block others as well, so this step is never a must
      while a handler runs. */
  function Deliver(s: State, sig: Sig): Option<State> {
    var p := s.parent;
    if sig !in s.pending || p.base != Suspend || Running(p.stack, sig) then None
    else
      var frame := Frame(sig, if sig == CHARFULL then HUpd else HOr);
      Some(State(s.child, Parent(p.base, p.stack + [frame], p.c, p.bit, p.updF, p.out), s.pending - {sig}, s.answer))
  }

  /** The innermost handler's next statement. When the outermost one returns, so does sigsuspend,
      and all three signals are blocked again. */
  function HandlerNext(s: State): Option<State> {
    var p := s.parent;
    if p.stack == [] then None else
    var n := |p.stack| - 1;
    var f := p.stack[n];
    match f.pc
    case HOr =>
      var p' := Parent(p.base, p.stack[..n] + [Frame(f.sig, HInc)], Received(p.c, p.bit, f.sig), p.bit, p.updF, p.out);
      Some(State(s.child, p', s.pending, s.answer))
    case HInc =>
      var p' := Parent(p.base, p.stack[..n] + [Frame(f.sig, HKill)], p.c, p.bit + 1, p.updF, p.out);
      Some(State(s.child, p', s.pending, s.answer))
    case HKill =>
      var p' := Parent(p.base, p.stack[..n] + [Frame(f.sig, HRet)], p.c, p.bit, p.updF, p.out);
      Some(State(s.child, p', s.pending, true))
    case HUpd =>
      var p' := Parent(p.base, p.stack[..n] + [Frame(f.sig, HRet)], p.c, p.bit, true, p.out);
      Some(State(s.child, p', s.pending, s.answer))
    case HRet =>
      var p' := Parent(if n == 0 then Check else p.base, p.stack[..n], p.c, p.bit, p.updF, p.out);
      Some(State(s.child, p', s.pending, s.answer))
  }

  /** The parent's loop after sigsuspend has returned. */
  function BaseNext(s: State): Option<State> {
    var p := s.parent;
    match p.base
    case Suspend => None
    case Check =>
      var p' := Parent(if p.updF then Print else Suspend, p.stack, p.c, p.bit, false, p.out);
      Some(State(s.child, p', s.pending, s.answer))
    case Print => Some(State(s.child, Parent(ClearC, p.stack, p.c, p.bit, p.updF, p.out + [p.c]), s.pending, s.answer))
    case ClearC => Some(State(s.child, Parent(ClearBit, p.stack, {}, p.bit, p.updF, p.out), s.pending, s.answer))
    case ClearBit => Some(State(s.child, Parent(Kill, p.stack, p.c, 0, p.updF, p.out), s.pending, s.answer))
    case Kill => Some(State(s.child, Parent(Suspend, p.stack, p.c, p.bit, p.updF, p.out), s.pending, true))
  }

  datatype Action = Sender | Delivery(sig: Sig) | Handler | Base

  function Next(file: seq<Bits>, s: State, a: Action): Option<State> {
    match a
    case Sender => SenderNext(file, s)
    case Delivery(sig) => Deliver(s, sig)
    case Handler => HandlerNext(s)
    case Base => BaseNext(s)
  }

  ghost predicate IsRun(ss: seq<State>, acts: seq<Action>, file: seq<Bits>) {
    && |ss| == |acts| + 1
    && ss[0] == START
    && forall i {:trigger acts[i]} :: 0 <= i < |acts| ==> Next(file, ss[i], acts[i]) == Some(ss[i + 1])
  }

  /** The low k bits of b. */
  function Low(b: Bits, k: nat): Bits {
    set i | i in b && i < k
  }

  /** Receiving bit k of b extends what is known of b by one bit. */
  lemma LowGrows(b: Bits, k: nat)
    requires k < 8
    ensures Received(Low(b, k), k, BitSig(b, k)) == Low(b, k + 1)
  {
  }

  lemma LowEnds(b: Bits)
    ensures Low(b, 8) == b && Low(b, 0) == {}
  {
  }

  // The invariant: one baton goes round.

  /** What the innermost handler has left to do; HRet if there is nothing but to return. */
  function Top(p: Parent): HandlerPc {
    if p.stack == [] then HRet else p.stack[|p.stack| - 1].pc
  }

  /** Handlers nest without repetition; those interrupted have only their return left; one for
      CHARFULL that has done its work has left its flag behind. */
  ghost predicate StackOk(stack: seq<Frame>, updF: bool) {
    && (forall i, j :: 0 <= i < j < |stack| ==> stack[i].sig != stack[j].sig && stack[i].pc == HRet)
    && (forall i :: 0 <= i < |stack| && stack[i].sig == CHARFULL ==> updF || stack[i].pc == HUpd)
  }

  /** The parent has nothing left to do but return to sigsuspend. */
  predicate Quiet(p: Parent) {
    !p.updF && Top(p) == HRet && (p.base == Suspend || p.base == Check)
  }

  /** The innermost handler is busy with sig, at pc. */
  predicate Busy(p: Parent, sig: Sig, pc: HandlerPc) {
    !p.updF && p.base == Suspend && p.stack != [] && p.stack[|p.stack| - 1] == Frame(sig, pc)
  }

  /** Update has run and its flag has not been seen: only returns until then. */
  predicate Flagged(p: Parent) {
    && p.updF && Top(p) == HRet
    && (if p.stack == [] then p.base == Check else p.base == Suspend)
  }

  /** The parent knows the low k bits of the byte in transit, and its counter says so. */
  predicate Knows(s: State, k: nat) {
    s.parent.c == Low(s.child.c, k) && s.parent.bit == k
  }

  /** Everything before the byte in transit has been printed. */
  predicate InTransit(file: seq<Bits>, s: State) {
    && 0 < s.child.pos <= |file| && s.child.c == file[s.child.pos - 1]
    && s.parent.out == file[..s.child.pos - 1]
  }

  predicate ByteDone(file: seq<Bits>, s: State) {
    s.parent.c == {} && s.parent.bit == 0 && s.child.pos <= |file| && s.parent.out == file[..s.child.pos]
  }

  /** The child waits for the answer to bit number bit - 1. */
  predicate BitPhase(file: seq<Bits>, s: State) {
    var bit := s.child.bit;
    && InTransit(file, s) && 1 <= bit <= 8
    && var sig := BitSig(s.child.c, bit - 1);
       if s.pending != {} then s.pending == {sig} && !s.answer && Quiet(s.parent) && Knows(s, bit - 1)
       else if s.answer then Quiet(s.parent) && Knows(s, bit)
       else
         && Busy(s.parent, sig, Top(s.parent))
         && match Top(s.parent)
            case HOr => Knows(s, bit - 1)
            case HInc => s.parent.c == Low(s.child.c, bit) && s.parent.bit == bit - 1
            case HKill => Knows(s, bit)
            case _ => false
  }

  /** The child waits for the byte to be taken. */
  predicate CharPhase(file: seq<Bits>, s: State) {
    var p := s.parent;
    && 0 < s.child.pos <= |file| && s.child.c == file[s.child.pos - 1]
    && if s.pending != {} then s.pending == {CHARFULL} && !s.answer && Quiet(p) && InTransit(file, s) && Knows(s, 8)
       else if s.answer then Quiet(p) && ByteDone(file, s)
       else if Top(p) == HUpd then Busy(p, CHARFULL, HUpd) && InTransit(file, s) && Knows(s, 8)
       else if p.updF then Flagged(p) && InTransit(file, s) && Knows(s, 8)
       else Top(p) == HRet &&
            match p.base
            case Print => InTransit(file, s) && Knows(s, 8)
            case ClearC => p.out == file[..s.child.pos] && p.c == s.child.c && p.bit == 8
            case ClearBit => p.out == file[..s.child.pos] && p.c == {} && p.bit == 8
            case Kill => ByteDone(file, s)
            case _ => false
  }

  predicate Phase(file: seq<Bits>, s: State) {
    match s.child.pc
    case Load => s.pending == {} && !s.answer && Quiet(s.parent) && ByteDone(file, s)
    case Send =>
      s.pending == {} && !s.answer && Quiet(s.parent) && InTransit(file, s) && s.child.bit <= 8 && Knows(s, s.child.bit)
    case AwaitBit => BitPhase(file, s)
    case AwaitChar => CharPhase(file, s)
    case Exited => s.pending == {} && !s.answer && Quiet(s.parent) && ByteDone(file, s) && s.child.pos == |file|
  }

  ghost predicate Inv(file: seq<Bits>, s: State) {
    && StackOk(s.parent.stack, s.parent.updF)
    && (s.parent.base != Suspend ==> s.parent.stack == [])
    && Phase(file, s)
  }

  lemma SenderKeeps(file: seq<Bits>, s: State, t: State)
    requires Phase(file, s) && SenderNext(file, s) == Some(t)
    ensures Phase(file, t)
  {
    if s.child.pc == Load && s.child.pos < |file| {
      LowEnds(t.child.c);
      assert file[..t.child.pos - 1] == file[..s.child.pos];
    }
  }

  lemma StackGrows(stack: seq<Frame>, f: Frame, updF: bool)
    requires StackOk(stack, updF) && !Running(stack, f.sig)
    requires stack != [] ==> stack[|stack| - 1].pc == HRet
    requires f.sig == CHARFULL ==> f.pc == HUpd
    ensures StackOk(stack + [f], updF)
  {
  }

  /** The innermost handler moves on, or returns. */
  lemma StackMoves(stack: seq<Frame>, pc: HandlerPc, updF: bool, updF': bool)
    requires StackOk(stack, updF) && stack != [] && (updF ==> updF')
    requires stack[|stack| - 1].sig == CHARFULL ==> updF'
    ensures StackOk(stack[..|stack| - 1] + [Frame(stack[|stack| - 1].sig, pc)], updF')
    ensures StackOk(stack[..|stack| - 1], updF)
  {
  }

  lemma DeliverKeeps(file: seq<Bits>, s: State, sig: Sig, t: State)
    requires Inv(file, s) && Deliver(s, sig) == Some(t)
    ensures Inv(file, t)
  {
    assert s.pending == {sig} && t.pending == {};
    assert Quiet(s.parent) && Busy(t.parent, sig, if sig == CHARFULL then HUpd else HOr);
    StackGrows(s.parent.stack, t.parent.stack[|s.parent.stack|], s.parent.updF);
  }

  /** A bit handler is in one of its three statements. */
  lemma BitKeeps(file: seq<Bits>, s: State, t: State)
    requires Phase(file, s) && Top(s.parent) in {HOr, HInc, HKill} && HandlerNext(s) == Some(t)
    ensures Phase(file, t)
  {
    assert s.child.pc == AwaitBit;
    if Top(s.parent) == HOr {
      LowGrows(s.child.c, s.child.bit - 1);
    }
    assert BitPhase(file, t);
  }

  lemma UpdateKeeps(file: seq<Bits>, s: State, t: State)
    requires Phase(file, s) && Top(s.parent) == HUpd && HandlerNext(s) == Some(t)
    ensures Phase(file, t)
  {
    assert s.child.pc == AwaitChar && Flagged(t.parent);
    assert CharPhase(file, t);
  }

  /** Nothing has changed but how many handlers still have to return. */
  predicate Unwound(s: State, t: State) {
    && t.child == s.child && t.pending == s.pending && t.answer == s.answer
    && t.parent.c == s.parent.c && t.parent.bit == s.parent.bit && t.parent.out == s.parent.out
    && ((Quiet(s.parent) && Quiet(t.parent)) || (Flagged(s.parent) && Flagged(t.parent)))
  }

  lemma UnwoundKeeps(file: seq<Bits>, s: State, t: State)
    requires Phase(file, s) && Unwound(s, t)
    ensures Phase(file, t)
  {
    match s.child.pc
    case AwaitBit => assert BitPhase(file, t);
    case AwaitChar => assert CharPhase(file, t);
    case _ =>
  }

  lemma ReturnKeeps(file: seq<Bits>, s: State, t: State)
    requires Inv(file, s) && Top(s.parent) == HRet && HandlerNext(s) == Some(t)
    ensures Phase(file, t)
  {
    var n := |s.parent.stack| - 1;
    assert n > 0 ==> t.parent.stack[n - 1].pc == HRet;
    assert Top(t.parent) == HRet;
    QuietOrFlagged(file, s);
    UnwoundKeeps(file, s, t);
  }

  /** The parent in sigsuspend, with nothing but returns ahead. */
  lemma QuietOrFlagged(file: seq<Bits>, s: State)
    requires Inv(file, s) && Top(s.parent) == HRet && s.parent.stack != []
    ensures s.parent.base == Suspend && (Quiet(s.parent) || Flagged(s.parent))
  {
  }

  lemma HandlerKeeps(file: seq<Bits>, s: State, t: State)
    requires Inv(file, s) && HandlerNext(s) == Some(t)
    ensures Inv(file, t)
  {
    if Top(s.parent) == HRet {
      ReturnKeeps(file, s, t);
    } else if Top(s.parent) == HUpd {
      UpdateKeeps(file, s, t);
    } else {
      BitKeeps(file, s, t);
    }
    StackMoves(s.parent.stack, Top(t.parent), s.parent.updF, t.parent.updF);
  }

  lemma CheckKeeps(file: seq<Bits>, s: State, t: State)
    requires Inv(file, s) && s.parent.base == Check && BaseNext(s) == Some(t)
    ensures Inv(file, t)
  {
    assert if s.parent.updF then Flagged(s.parent) else Quiet(t.parent);
  }

  lemma PrintKeeps(file: seq<Bits>, s: State, t: State)
    requires Inv(file, s) && s.parent.base == Print && BaseNext(s) == Some(t)
    ensures Inv(file, t)
  {
    assert file[..s.child.pos] == file[..s.child.pos - 1] + [s.child.c];
    LowEnds(s.child.c);
    assert CharPhase(file, t);
  }

  lemma ResetKeeps(file: seq<Bits>, s: State, t: State)
    requires Inv(file, s) && s.parent.base in {ClearC, ClearBit, Kill} && BaseNext(s) == Some(t)
    ensures Inv(file, t)
  {
    assert CharPhase(file, t);
  }

  lemma StepKeepsInv(file: seq<Bits>, s: State, a: Action, t: State)
    requires Inv(file, s) && Next(file, s, a) == Some(t)
    ensures Inv(file, t)
  {
    match a
    case Sender => SenderKeeps(file, s, t);
    case Delivery(sig) => DeliverKeeps(file, s, sig, t);
    case Handler => HandlerKeeps(file, s, t);
    case Base =>
      if s.parent.base == Check {
        CheckKeeps(file, s, t);
      } else if s.parent.base == Print {
        PrintKeeps(file, s, t);
      } else {
        ResetKeeps(file, s, t);
      }
  }

  lemma {:induction false} RunKeepsInv(ss: seq<State>, acts: seq<Action>, file: seq<Bits>, i: nat)
    requires IsRun(ss, acts, file) && i <= |acts|
    ensures Inv(file, ss[i])
  {
    if i == 0 {
      assert Phase(file, ss[0]);
    } else {
      RunKeepsInv(ss, acts, file, i - 1);
      StepKeepsInv(file, ss[i - 1], acts[i - 1], ss[i]);
    }
  }
}
