/** reader.c and writer.c as programs over the shared machine. Before every statement the other
    processes may have done anything the step relation allows; the programs themselves change
    the counters, the segment and their output in place, one statement at a time. */
module SharedTransferPrograms {
  import opened Common
  import opened Semaphores
  import opened SharedTransfer
  import opened SharedTransferInvariant
  import opened SharedTransferTheorems
  import opened SharedTransferBound

  /** How a call of `semop` came back, as far as the history goes that is being looked at. */
  datatype Status = Completed | Failed | Waiting

  /** How far a program got. A process that is still waiting where the history ends can only go
      on waiting or be killed there. */
  datatype End = EndOfFile | MateGone | StillWaiting | NoFile

  /** Which array a reader passes to semop at pc, and where it goes on when the call completes. */
  predicate ReaderOps(pc: RPc, ops: seq<Sembuf>, next: RPc) {
    match pc
    case REnter => ops == READER_ENTER && next == RClear
    case RPair => ops == READER_PAIR && next == ROpen
    case RBalance => ops == BALANCE && next == RFirst
    case RPost => ops == READER_POST && next == RAwait
    case RAwait => ops == READER_AWAIT && next == RNext
    case _ => false
  }

  predicate WriterOps(pc: WPc, ops: seq<Sembuf>, next: WPc) {
    match pc
    case WEnter => ops == WRITER_ENTER && next == WPair
    case WPair => ops == WRITER_PAIR && next == WBalance
    case WBalance => ops == BALANCE && next == WTake
    case WTake => ops == WRITER_TAKE && next == WOut
    case WGive => ops == WRITER_GIVE && next == WTake
    case _ => false
  }

  ghost function ReaderAfter(s: State, q: Proc, next: RPc, adj: Six): Proc
    requires q.Reader?
  {
    if q.rpc == RPair then q.(rpc := next, adj := adj, mate := WriterHolder(s)) else q.(rpc := next, adj := adj)
  }

  ghost function WriterAfter(s: State, q: Proc, next: WPc, adj: Six): Proc
    requires q.Writer?
  {
    if q.wpc == WPair then q.(wpc := next, adj := adj, mate := ReaderHolder(s)) else q.(wpc := next, adj := adj)
  }

  lemma ReaderCallIsStep(s: State, p: Pid, ops: seq<Sembuf>, next: RPc)
    requires Reachable(s) && p in s.procs && s.procs[p].Reader? && ReaderOps(s.procs[p].rpc, ops, next)
    ensures s.size <= |s.data| == MAX && !s.procs[p].eof
    ensures match Semop(ops, s.vals, s.procs[p].adj)
            case Done(v, a) =>
              Step(s, Run(p, 0), s.(vals := v, procs := s.procs[p := ReaderAfter(s, s.procs[p], next, a)]))
            case Again =>
              s.procs[p].rpc == RAwait &&
              Step(s, Run(p, 0), s.(procs := s.procs[p := s.procs[p].(rpc := RLeave)]))
            case Blocks => !CanMove(s, p)
  {
    ReachableInv(s);
    CountersFacts(s);
    PathFacts(s, p);
    var v, a := s.vals, s.procs[p].adj;
    ReaderWaits(s, p);
    match s.procs[p].rpc
    case REnter => ReaderEnterEffect(v, a);
    case RPair => ReaderPairEffect(v, a);
    case RBalance => BalanceEffect(v, a);
    case RPost => PostEffects(v, a);
    case RAwait => ReaderAwaitEffect(v, a);
  }

  lemma WriterCallIsStep(s: State, p: Pid, ops: seq<Sembuf>, next: WPc)
    requires Reachable(s) && p in s.procs && s.procs[p].Writer? && WriterOps(s.procs[p].wpc, ops, next)
    ensures s.size <= |s.data| == MAX
    ensures match Semop(ops, s.vals, s.procs[p].adj)
            case Done(v, a) =>
              Step(s, Run(p, 0), s.(vals := v, procs := s.procs[p := WriterAfter(s, s.procs[p], next, a)]))
            case Again =>
              s.procs[p].wpc == WTake &&
              Step(s, Run(p, 0), s.(procs := s.procs[p := s.procs[p].(wpc := WLeave)]))
            case Blocks => !CanMove(s, p)
  {
    ReachableInv(s);
    CountersFacts(s);
    var v, a := s.vals, s.procs[p].adj;
    WriterWaits(s, p);
    match s.procs[p].wpc
    case WEnter => WriterEnterEffect(v, a);
    case WPair => WriterPairEffect(v, a);
    case WBalance => BalanceEffect(v, a);
    case WTake => WriterTakeEffect(v, a);
    case WGive => PostEffects(v, a);
  }

  /** A writer's call takes READ down by one where it asks for a token, and leaves it alone elsewhere. */
  lemma ReadAfterCall(s: State, p: Pid, ops: seq<Sembuf>, next: WPc)
    requires Inv(s) && p in s.procs && s.procs[p].Writer? && WriterOps(s.procs[p].wpc, ops, next)
    ensures match Semop(ops, s.vals, s.procs[p].adj)
            case Done(v, a) => v.read == s.vals.read - (if s.procs[p].wpc == WTake then 1 else 0)
            case _ => true
  {
    CountersFacts(s);
    var v, a := s.vals, s.procs[p].adj;
    match s.procs[p].wpc
    case WEnter => WriterEnterEffect(v, a);
    case WPair => WriterPairEffect(v, a);
    case WBalance => BalanceEffect(v, a);
    case WTake => WriterTakeEffect(v, a);
    case WGive => PostEffects(v, a);
  }

  lemma PathFacts(s: State, p: Pid)
    requires Inv(s) && p in s.procs && s.procs[p].Reader?
    ensures s.procs[p].pos <= |s.procs[p].file|
    ensures s.procs[p].eof ==> s.procs[p].rpc == RLeave || s.procs[p].rpc == RDead
  {
    var r, w :| InvAt(s, r, w);
    assert ProcOk(s, p);
  }

  ghost function ReaderRead(q: Proc, k: nat): Proc
    requires q.Reader?
  {
    if q.rpc == RFirst || k != 0 then q.(rpc := RPost, pos := q.pos + k) else q.(rpc := RLeave, eof := true)
  }

  lemma ReadIsStep(s: State, p: Pid, k: nat)
    requires s.size <= |s.data| == MAX && p in s.procs && s.procs[p].Reader?
    requires (s.procs[p].rpc == RFirst || s.procs[p].rpc == RNext) && CanRead(s.procs[p], k)
    ensures Step(s, Run(p, k), State(s.vals, s.procs[p := ReaderRead(s.procs[p], k)], Filled(s.data, s.procs[p], k), k))
  {
  }

  /** A writer's statement leaves its mate alone. */
  lemma FuelAfter(s: State, v: Six, p: Pid, q: Proc, m: Pid)
    requires p in s.procs && s.procs[p].Writer? && q.Writer?
    ensures Fuel(s.(vals := v, procs := s.procs[p := q]), m) == Fuel(s, m) + 3 * (v.read - s.vals.read)
  {
  }

  class Machine {
    var sem: Six                      // the semaphore set
    const data: array<Byte>           // the shared segment
    var size: nat
    ghost var procs: map<Pid, Proc>   // everybody's position, undo table and output

    ghost predicate Valid()
      reads this, data
    {
      size <= data.Length == MAX && Reachable(View())
    }

    ghost function View(): State
      reads this, data
    {
      State(sem, procs, data[..], size)
    }

    /** A new semaphore set; the segment may hold anything. */
    constructor (initial: array<Byte>)
      requires initial.Length == MAX
      ensures Valid() && procs == map[] && sem == ZERO && data == initial
    {
      sem := ZERO;
      data := initial;
      size := 0;
      procs := map[];
      new;
      ghost var none: seq<Action> := [];
      assert IsRun([View()], none);
      assert [View()][|none|] == View();
    }

    /** Interference: a caller must expect any number of steps, arrivals and deaths of the others.
        The body is the case of none; only the contract matters to the programs below. */
    method Others(ghost p: Pid)
      requires Valid() && p in procs
      modifies this, data
      ensures Valid() && p in procs && procs[p] == old(procs[p])
      ensures Later(old(View()), View(), p)
    {
      LaterIsReflexive(View(), p);
    }

    /** semop: the operations are carried out one after the other; if one of them cannot be, those
        before it are taken back. The caller's undo table goes in and out. */
    method Call(ops: seq<Sembuf>, adj: Six) returns (r: Status, adj': Six)
      modifies this`sem
      ensures match Semop(ops, old(sem), adj)
              case Done(v, a) => r == Completed && sem == v && adj' == a
              case Again => r == Failed && sem == old(sem) && adj' == adj
              case Blocks => r == Waiting && sem == old(sem) && adj' == adj
    {
      var before := sem;
      adj' := adj;
      var i := 0;
      while i < |ops|
        invariant 0 <= i <= |ops| && before == old(sem)
        invariant Semop(ops, before, adj) == Semop(ops[i..], sem, adj')
      {
        var o := ops[i];
        assert ops[i..][0] == o && ops[i..][1..] == ops[i + 1..];
        var v := sem.Get(o.num);
        var refused := if o.op == 0 then v != 0 else v + o.op < 0;
        if refused {
          sem, adj' := before, adj;
          return if o.nowait then Failed else Waiting, adj';
        }
        if o.op != 0 {
          sem := sem.Put(o.num, v + o.op);
          if o.undo {
            adj' := adj'.Put(o.num, adj'.Get(o.num) - o.op);
          }
        }
        i := i + 1;
      }
      r := Completed;
    }

    /** What the mate of p can still post. */
    ghost function MateFuel(p: Pid): int
      requires p in procs
      reads this, data
    {
      if procs[p].mate.Some? then Fuel(View(), procs[p].mate.value) else 0
    }

    /** What a program sees of the interference. */
    method Meanwhile(ghost p: Pid)
      requires Valid() && p in procs
      modifies this, data
      ensures Valid() && p in procs && procs[p] == old(procs[p])
      ensures WriterWorks(procs[p]) ==> MateFuel(p) <= old(MateFuel(p))
    {
      ghost var s := View();
      Others(p);
      if procs[p].mate.Some? {
        LaterKeeps(s, View(), p, procs[p].mate.value);
      }
    }

    ghost predicate ReaderIsAt(p: Pid, pc: RPc, file: seq<Byte>, pos: nat, adj: Six)
      reads this
    {
      p in procs && procs[p].Reader? && procs[p].rpc == pc &&
      procs[p].file == file && procs[p].pos == pos && procs[p].adj == adj
    }

    ghost predicate WriterIsAt(p: Pid, pc: WPc, adj: Six)
      reads this
    {
      p in procs && procs[p].Writer? && procs[p].wpc == pc && procs[p].adj == adj
    }

    /** A statement of reader p that is one semop: it goes on at next when the call completes, and
        leaves its loop when the call fails. */
    method ReaderCall(ghost p: Pid, ghost pc: RPc, ops: seq<Sembuf>, ghost next: RPc, ghost file: seq<Byte>, ghost pos: nat, adj: Six)
      returns (r: Status, adj': Six)
      requires Valid() && ReaderIsAt(p, pc, file, pos, adj) && ReaderOps(pc, ops, next)
      modifies this, data
      ensures Valid() && p in procs
      ensures r == Completed ==> ReaderIsAt(p, next, file, pos, adj')
      ensures r == Failed ==> pc == RAwait && ReaderIsAt(p, RLeave, file, pos, adj') && !procs[p].eof
      ensures r == Waiting ==> ReaderIsAt(p, pc, file, pos, adj') && !CanMove(View(), p)
    {
      Meanwhile(p);
      ghost var s := View();
      ReaderCallIsStep(s, p, ops, next);
      r, adj' := Call(ops, adj);
      if r == Completed {
        procs := procs[p := ReaderAfter(s, s.procs[p], next, adj')];
        ReachNext(s, Run(p, 0), View());
      } else if r == Failed {
        procs := procs[p := s.procs[p].(rpc := RLeave)];
        ReachNext(s, Run(p, 0), View());
      }
    }

    /** A statement of writer p that is one semop. */
    method WriterCall(ghost p: Pid, ghost pc: WPc, ops: seq<Sembuf>, ghost next: WPc, adj: Six)
      returns (r: Status, adj': Six)
      requires Valid() && WriterIsAt(p, pc, adj) && WriterOps(pc, ops, next)
      modifies this, data
      ensures Valid() && p in procs
      ensures r == Completed ==> WriterIsAt(p, next, adj') && procs[p].out == old(procs[p]).out
      ensures r == Failed ==> pc == WTake && WriterIsAt(p, WLeave, adj') && procs[p].out == old(procs[p]).out
      ensures r == Waiting ==> procs[p] == old(procs[p]) && adj' == adj && !CanMove(View(), p)
      ensures WriterWorks(old(procs[p])) ==> MateFuel(p) + (if r == Completed && pc == WTake then 3 else 0) <= old(MateFuel(p))
    {
      Meanwhile(p);
      ghost var s := View();
      WriterCallIsStep(s, p, ops, next);
      ReachableInv(s);
      ReadAfterCall(s, p, ops, next);
      r, adj' := Call(ops, adj);
      if r == Completed {
        procs := procs[p := WriterAfter(s, s.procs[p], next, adj')];
        ReachNext(s, Run(p, 0), View());
        if procs[p].mate.Some? {
          FuelAfter(s, sem, p, procs[p], procs[p].mate.value);
        }
      } else if r == Failed {
        procs := procs[p := s.procs[p].(wpc := WLeave)];
        ReachNext(s, Run(p, 0), View());
        if procs[p].mate.Some? {
          FuelAfter(s, sem, p, procs[p], procs[p].mate.value);
        }
      }
    }

    /** memset over the attached segment. */
    method ReaderClear(ghost p: Pid, ghost file: seq<Byte>, ghost adj: Six)
      requires Valid() && ReaderIsAt(p, RClear, file, 0, adj)
      modifies this, data
      ensures Valid() && ReaderIsAt(p, RPair, file, 0, adj)
    {
      Meanwhile(p);
      ghost var s := View();
      forall i | 0 <= i < data.Length {
        data[i] := 0;
      }
      size := 0;
      procs := procs[p := s.procs[p].(rpc := RPair)];
      assert data[..] == seq(MAX, i => 0);
      ReachNext(s, Run(p, 0), View());
    }

    /** open of an existing file. */
    method ReaderOpens(ghost p: Pid, ghost file: seq<Byte>, ghost adj: Six)
      requires Valid() && ReaderIsAt(p, ROpen, file, 0, adj)
      modifies this, data
      ensures Valid() && ReaderIsAt(p, RBalance, file, 0, adj)
    {
      Meanwhile(p);
      ghost var s := View();
      procs := procs[p := s.procs[p].(rpc := RBalance)];
      ReachNext(s, Run(p, 0), View());
    }

    /** The system's part of read: k bytes of the file at the front of the segment. */
    method Fill(file: seq<Byte>, pos: nat, k: nat)
      requires pos + k <= |file| && k <= data.Length
      modifies this`size, data
      ensures size == k && data[..] == file[pos..pos + k] + old(data[..])[k..]
    {
      forall i | 0 <= i < k {
        data[i] := file[pos + i];
      }
      size := k;
    }

    /** d->size = read(fd, d->data, MAX): fills the segment in place. */
    method ReaderFills(ghost p: Pid, ghost pc: RPc, file: seq<Byte>, pos: nat, ghost adj: Six) returns (k: nat)
      requires Valid() && ReaderIsAt(p, pc, file, pos, adj) && (pc == RFirst || pc == RNext)
      modifies this, data
      ensures Valid() && p in procs && pos + k <= |file| && (k == 0 <==> pos == |file|)
      ensures pc == RFirst || k != 0 ==> ReaderIsAt(p, RPost, file, pos + k, adj)
      ensures pc == RNext && k == 0 ==> ReaderIsAt(p, RLeave, file, pos, adj) && procs[p].eof
    {
      Meanwhile(p);
      ghost var s := View();
      ReachableInv(s);
      PathFacts(s, p);
      var most := if |file| - pos < MAX then |file| - pos else MAX;
      k :| 0 <= k <= most && (k == 0 <==> most == 0);
      Fill(file, pos, k);
      procs := procs[p := ReaderRead(s.procs[p], k)];
      ReadIsStep(s, p, k);
      ReachNext(s, Run(p, k), View());
    }

    /** write(1, d->data, d->size). */
    method WriterPrints(ghost p: Pid, ghost adj: Six) returns (chunk: seq<Byte>)
      requires Valid() && WriterIsAt(p, WOut, adj)
      modifies this, data
      ensures Valid() && WriterIsAt(p, WGive, adj) && procs[p].out == old(procs[p]).out + chunk
      ensures MateFuel(p) <= old(MateFuel(p))
    {
      Meanwhile(p);
      ghost var s := View();
      chunk := data[..size];
      procs := procs[p := s.procs[p].(wpc := WGive, out := s.procs[p].out + chunk)];
      ReachNext(s, Run(p, 0), View());
    }

    /** The loop of reader.c, after the first read. */
    method ReaderLoop(ghost p: Pid, file: seq<Byte>, first: nat, adj0: Six) returns (end: End)
      requires Valid() && ReaderIsAt(p, RPost, file, first, adj0) && first <= |file|
      modifies this, data
      ensures Valid() && p in procs && procs[p].Reader? && procs[p].file == file
      ensures match end
              case EndOfFile => procs[p].eof
              case MateGone => procs[p].rpc == RLeave && !procs[p].eof
              case StillWaiting => !CanMove(View(), p) && procs[p].rpc != ROpen
              case NoFile => false
    {
      var pos, adj, k, r := first, adj0, 0, Completed;
      while true
        invariant Valid() && ReaderIsAt(p, RPost, file, pos, adj) && pos <= |file|
        decreases |file| - pos
      {
        r, adj := ReaderCall(p, RPost, READER_POST, RAwait, file, pos, adj);
        if r == Waiting { return StillWaiting; }
        r, adj := ReaderCall(p, RAwait, READER_AWAIT, RNext, file, pos, adj);
        if r == Failed { return MateGone; }
        if r == Waiting { return StillWaiting; }
        k := ReaderFills(p, RNext, file, pos, adj);
        if k == 0 { return EndOfFile; }
        pos := pos + k;
      }
    }

    /** main of reader.c for a process that has just started. If it leaves its loop because the
        file has ended, one writer has printed exactly that file. */
    method ReaderMain(ghost p: Pid, found: bool, file: seq<Byte>) returns (end: End)
      requires Valid() && ReaderIsAt(p, REnter, file, 0, ZERO)
      modifies this, data
      ensures Valid() && p in procs && procs[p].Reader?
      ensures end == EndOfFile ==>
                procs[p].mate.Some? && procs[p].mate.value in procs &&
                procs[procs[p].mate.value].Writer? && procs[procs[p].mate.value].out == file
      ensures end == MateGone ==> procs[p].rpc == RLeave && !procs[p].eof
      ensures end == StillWaiting ==> !CanMove(View(), p)
      ensures end == NoFile <==> procs[p].rpc == ROpen
      ensures end == NoFile ==> !found
      ensures !found ==> end == NoFile || end == StillWaiting
      ensures end == EndOfFile ==> found && procs[p].eof && procs[p].file == file
    {
      var r, adj := ReaderCall(p, REnter, READER_ENTER, RClear, file, 0, ZERO);
      if r == Waiting { return StillWaiting; }
      ReaderClear(p, file, adj);
      r, adj := ReaderCall(p, RPair, READER_PAIR, ROpen, file, 0, adj);
      if r == Waiting { return StillWaiting; }
      if !found { return NoFile; }
      ReaderOpens(p, file, adj);
      r, adj := ReaderCall(p, RBalance, BALANCE, RFirst, file, 0, adj);
      if r == Waiting { return StillWaiting; }
      var k := ReaderFills(p, RFirst, file, 0, adj);
      end := ReaderLoop(p, file, k, adj);
      if end == EndOfFile {
        EofIsFinal(p);
      }
    }

    lemma EofIsFinal(p: Pid)
      requires Valid() && p in procs && procs[p].Reader? && procs[p].eof
      ensures procs[p].rpc != ROpen && procs[p].mate.Some? && procs[p].mate.value in procs
      ensures var q := procs[procs[p].mate.value]; q.Writer? && q.out == procs[p].file
    {
      ReachableInv(View());
      PathFacts(View(), p);
      EndOfFileMeansDelivered(View(), p);
    }

    /** One round of the writer's loop, if its call completes: it uses up one post of its mate. */
    method WriterRound(ghost p: Pid, adj: Six) returns (r: Status, adj': Six, chunk: seq<Byte>)
      requires Valid() && WriterIsAt(p, WTake, adj)
      modifies this, data
      ensures Valid() && p in procs && procs[p].Writer? && procs[p].out == old(procs[p]).out + chunk
      ensures r == Completed ==> WriterIsAt(p, WTake, adj') && MateFuel(p) < old(MateFuel(p))
      ensures r == Failed ==> procs[p].wpc == WLeave
      ensures r == Waiting ==> !CanMove(View(), p)
    {
      chunk := [];
      r, adj' := WriterCall(p, WTake, WRITER_TAKE, WOut, adj);
      if r == Completed {
        chunk := WriterPrints(p, adj');
        r, adj' := WriterCall(p, WGive, WRITER_GIVE, WTake, adj');
      }
    }

    /** main of writer.c for a process that has just started. It ends: the mate has only so much to
        post. What it prints is what the step relation records as its output, and is a first part
        of the file of its one mate. */
    method WriterMain(ghost p: Pid) returns (end: End, printed: seq<Byte>)
      requires Valid() && WriterIsAt(p, WEnter, ZERO) && procs[p].out == []
      modifies this, data
      ensures Valid() && p in procs && procs[p].Writer? && procs[p].out == printed
      ensures match procs[p].mate
              case None => printed == []
              case Some(m) => m in procs && procs[m].Reader? && printed <= procs[m].file
      ensures end == MateGone ==> procs[p].wpc == WLeave
      ensures end == StillWaiting ==> !CanMove(View(), p)
      ensures end == MateGone || end == StillWaiting
    {
      printed := [];
      var r, adj := WriterCall(p, WEnter, WRITER_ENTER, WPair, ZERO);
      if r == Completed {
        r, adj := WriterCall(p, WPair, WRITER_PAIR, WBalance, adj);
      }
      if r == Completed {
        r, adj := WriterCall(p, WBalance, BALANCE, WTake, adj);
      }
      while r == Completed
        invariant Valid() && p in procs && procs[p].Writer? && procs[p].out == printed
        invariant r == Completed ==> WriterIsAt(p, WTake, adj)
        invariant r == Failed ==> procs[p].wpc == WLeave
        invariant r == Waiting ==> !CanMove(View(), p)
        decreases r == Completed, MateFuel(p)
      {
        FuelLeft(p);
        var chunk;
        r, adj, chunk := WriterRound(p, adj);
        printed := printed + chunk;
        FuelLeft(p);
      }
      end := if r == Failed then MateGone else StillWaiting;
      OutputIsPrefix(View(), p);
    }

    lemma FuelLeft(p: Pid)
      requires Valid() && p in procs
      ensures MateFuel(p) >= 0
    {
      ReachableInv(View());
      if procs[p].mate.Some? {
        FuelIsNat(View(), procs[p].mate.value);
      }
    }
  }
}
