/** transferViaSignals/main.c as a program: the child's loop as it is written, and the parent's
    handlers and loop one statement at a time, whenever the scheduler lets the parent run. */
module SignalPrograms {
  import opened CharBits
  import opened Common
  import opened Signals
  import opened SignalTheorems

  class Pair {
    const file: seq<Bits>
    // The child's variables; its place in its loop is a ghost.
    var pos: nat
    var cc: Bits
    var cbit: nat
    ghost var pc: SenderPc
    // Signals waiting for the parent and for the child.
    var pending: set<Sig>
    var answer: bool
    // The parent: its place in its loop and in its handlers, its variables, its output.
    var base: BasePc
    var stack: seq<Frame>
    var c: Bits
    var bit: nat
    var updF: bool
    var out: seq<Bits>

    ghost function View(): State
      reads this
    {
      State(Child(pc, pos, cc, cbit), Parent(base, stack, c, bit, updF, out), pending, answer)
    }

    ghost predicate Valid()
      reads this
    {
      Inv(file, View())
    }

    ghost function Left(): int
      reads this
    {
      Budget(|file|, View())
    }

    /** After fork, with the handlers in place and the signals blocked. */
    constructor (file: seq<Bits>)
      ensures this.file == file && View() == START && Valid()
    {
      this.file := file;
      pos, cc, cbit, pc := 0, {}, 0, Load;
      pending, answer := {}, false;
      base, stack, c, bit, updF, out := Suspend, [], {}, 0, false, [];
    }

    /** Recieve0, Recieve1 or Update is entered. */
    method Interrupt(sig: Sig)
      requires sig in pending && base == Suspend && !Running(stack, sig)
      modifies this`pending, this`stack
      ensures Deliver(old(View()), sig) == Some(View())
    {
      pending := pending - {sig};
      stack := stack + [Frame(sig, if sig == CHARFULL then HUpd else HOr)];
    }

    /** c |= 1 << bit in Recieve1, c |= 0 << bit in Recieve0: each bit of c is what it was, but bit
        number `bit`, which is set if a one has been received. */
    method OrBit(one: bool)
      modifies this`c
      ensures forall i :: 0 <= i < 8 ==> (i in c <==> i in old(c) || (one && i == bit))
    {
      if one && bit < 8 {
        c := c + {bit};
      }
    }

    method Receive()
      requires stack != [] && stack[|stack| - 1].pc == HOr
      modifies this`c, this`stack
      ensures HandlerNext(old(View())) == Some(View())
    {
      var n := |stack| - 1;
      var sig := stack[n].sig;
      OrBit(sig == BIT1);
      assert c == Received(old(c), bit, sig);
      stack := stack[..n] + [Frame(sig, HInc)];
    }

    /** bit++ and kill(reader_pid, ANSWER) in the same handlers, upd_f = 1 in Update. */
    method Assign()
      requires stack != [] && stack[|stack| - 1].pc in {HInc, HKill, HUpd}
      modifies this`bit, this`updF, this`answer, this`stack
      ensures HandlerNext(old(View())) == Some(View())
    {
      var n := |stack| - 1;
      match stack[n].pc
      case HInc =>
        bit := bit + 1;
        stack := stack[..n] + [Frame(stack[n].sig, HKill)];
      case HKill =>
        answer := true;
        stack := stack[..n] + [Frame(stack[n].sig, HRet)];
      case HUpd =>
        updF := true;
        stack := stack[..n] + [Frame(stack[n].sig, HRet)];
    }

    /** The innermost handler returns, and sigsuspend with the outermost. */
    method Return()
      requires stack != [] && stack[|stack| - 1].pc == HRet
      modifies this`stack, this`base
      ensures HandlerNext(old(View())) == Some(View())
    {
      var n := |stack| - 1;
      stack := stack[..n];
      if n == 0 {
        base := Check;
      }
    }

    /** The next statement of the innermost handler. */
    method HandlerStatement()
      requires stack != []
      modifies this`c, this`bit, this`updF, this`answer, this`stack, this`base
      ensures HandlerNext(old(View())) == Some(View())
    {
      match stack[|stack| - 1].pc
      case HOr => Receive();
      case HRet => Return();
      case _ => Assign();
    }

    /** The next statement of the parent's loop. */
    method LoopStatement()
      requires base != Suspend
      modifies this`c, this`bit, this`updF, this`answer, this`out, this`base
      ensures BaseNext(old(View())) == Some(View())
    {
      match base
      case Check =>
        if updF {
          updF := false;
          base := Print;
        } else {
          base := Suspend;
        }
      case Print => out, base := out + [c], ClearC;
      case ClearC => c, base := {}, ClearBit;
      case ClearBit => bit, base := 0, Kill;
      case Kill => answer, base := true, Suspend;
    }

    /** One step of the parent: any that is possible. */
    method ParentStep()
      requires Valid() && (stack != [] || base != Suspend || pending != {})
      modifies this`pending, this`answer, this`base, this`stack, this`c, this`bit, this`updF, this`out
      ensures Valid() && Left() < old(Left())
    {
      ghost var s := View();
      ghost var a: Action;
      var sig: Sig := *;
      if stack == [] && base == Suspend {
        sig :| sig in pending;
      }
      var interrupt := sig in pending && base == Suspend && !Running(stack, sig);
      if interrupt && stack != [] {
        interrupt := *;
      }
      if interrupt {
        Interrupt(sig);
        a := Delivery(sig);
      } else if stack != [] {
        HandlerStatement();
        a := Handler;
      } else {
        LoopStatement();
        a := Base;
      }
      StepKeepsInv(file, s, a, View());
      StepLowersBudget(file, s, a, View());
    }

    /** The parent runs for as long as the scheduler likes. */
    method ParentRuns()
      requires Valid()
      modifies this`pending, this`answer, this`base, this`stack, this`c, this`bit, this`updF, this`out
      ensures Valid() && Left() <= old(Left())
    {
      var more: bool := *;
      while more && (stack != [] || base != Suspend || pending != {})
        invariant Valid() && Left() <= old(Left())
        decreases Left()
      {
        BudgetIsNat(file, View());
        ParentStep();
        BudgetIsNat(file, View());
        more := *;
      }
    }

    /** kill(writer_pid, sig), at one of the two places where the child calls it. */
    method KillWriter(sig: Sig, ghost next: SenderPc)
      requires Valid() && pc == Send
      requires if cbit < 8 then sig == BitSig(cc, cbit) && next == AwaitBit else sig == CHARFULL && next == AwaitChar
      modifies this`pending, this`pc, this`cbit
      ensures Valid() && pc == next && cbit == if old(cbit) < 8 then old(cbit) + 1 else old(cbit)
      ensures old(pending) == {} && pending == {sig}
    {
      ghost var s := View();
      if cbit < 8 {
        cbit := cbit + 1;
      }
      pending := pending + {sig};
      pc := next;
      assert View() == SenderNext(file, s).value;
      StepKeepsInv(file, s, Sender, View());
    }

    /** The parent runs until its answer arrives, and longer if the scheduler likes. */
    method AwaitAnswer()
      requires Valid() && (pc == AwaitBit || pc == AwaitChar)
      modifies this`pending, this`answer, this`base, this`stack, this`c, this`bit, this`updF, this`out
      ensures Valid() && answer
    {
      ParentRuns();
      while !answer
        invariant Valid()
        decreases Left()
      {
        RestMeansDone(file, View());
        BudgetIsNat(file, View());
        ParentStep();
        BudgetIsNat(file, View());
      }
    }

    /** sigsuspend in the child. */
    method Sigsuspend()
      requires Valid() && (pc == AwaitBit || pc == AwaitChar)
      modifies this`pending, this`answer, this`base, this`stack, this`c, this`bit, this`updF, this`out, this`pc
      ensures Valid() && pc == if old(pc) == AwaitBit then Send else Load
    {
      AwaitAnswer();
      ghost var s := View();
      answer := false;
      pc := if pc == AwaitBit then Send else Load;
      assert View() == SenderNext(file, s).value;
      StepKeepsInv(file, s, Sender, View());
    }

    /** c = fgetc(f), and the test of feof. */
    method ReadChar() returns (more: bool)
      requires Valid() && pc == Load
      modifies this`pos, this`cc, this`cbit, this`pc
      ensures Valid() && pc == if more then Send else Exited
      ensures more <==> old(pos) < |file|
      ensures more ==> pos == old(pos) + 1 <= |file| && cbit == 0
    {
      ghost var s := View();
      more := pos < |file|;
      if more {
        cc := file[pos];
        pos := pos + 1;
        cbit := 0;
      }
      pc := if more then Send else Exited;
      assert View() == SenderNext(file, s).value;
      StepKeepsInv(file, s, Sender, View());
    }

    /** One round of the child's inner loop. */
    method SendBit()
      requires Valid() && pc == Send && cbit < 8
      modifies this`pending, this`answer, this`base, this`stack, this`c, this`bit, this`updF, this`out, this`pc, this`cbit
      ensures Valid() && pc == Send && cbit == old(cbit) + 1
    {
      ParentRuns();
      if cbit in cc {
        KillWriter(BIT1, AwaitBit);
      } else {
        KillWriter(BIT0, AwaitBit);
      }
      Sigsuspend();
    }

    /** One round of the child's outer loop up to its fgetc: eight bits and CHARFULL. */
    method SendByte()
      requires Valid() && pc == Send && cbit == 0
      modifies this`pending, this`answer, this`base, this`stack, this`c, this`bit, this`updF, this`out, this`pc, this`cbit
      ensures Valid() && pc == Load
    {
      while cbit < 8
        invariant Valid() && pc == Send && cbit <= 8
      {
        SendBit();
      }
      ParentRuns();
      KillWriter(CHARFULL, AwaitChar);
      Sigsuspend();
      ParentRuns();
    }

    /** The child's part of main, with the parent running at any time. It always ends, and by then
        the parent has printed the file. */
    method Transfer()
      requires View() == START && Valid()
      modifies this
      ensures Valid() && pc == Exited && out == file
    {
      var more := ReadChar();
      while more
        invariant Valid() && pc == if more then Send else Exited
        invariant more ==> cbit == 0 && pos <= |file|
        decreases |file| - pos, more
      {
        SendByte();
        more := ReadChar();
      }
      Delivered();
    }

    lemma Delivered()
      requires Valid() && pc == Exited
      ensures out == file
    {
      RestMeansDone(file, View());
    }
  }
}
