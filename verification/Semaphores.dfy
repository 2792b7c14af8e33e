/** System V semaphore sets as the two shared-memory programs use them: six counters,
    atomic arrays of operations, `SEM_UNDO` adjustments and their application at exit. */
module Semaphores {

  datatype SemNum = WOnly | ROnly | Read | Write | WWork | RWork

  /** A value per semaphore: the counters of the set, or the undo table of one process. */
  datatype Six = Six(wonly: int, ronly: int, read: int, write: int, wwork: int, rwork: int) {

    function Get(n: SemNum): int {
      match n
      case WOnly => wonly
      case ROnly => ronly
      case Read => read
      case Write => write
      case WWork => wwork
      case RWork => rwork
    }

    function Put(n: SemNum, v: int): Six {
      match n
      case WOnly => this.(wonly := v)
      case ROnly => this.(ronly := v)
      case Read => this.(read := v)
      case Write => this.(write := v)
      case WWork => this.(wwork := v)
      case RWork => this.(rwork := v)
    }
  }

  const ZERO := Six(0, 0, 0, 0, 0, 0)

  /** `struct sembuf`, with the two flags the programs use. */
  datatype Sembuf = Sembuf(num: SemNum, op: int, undo: bool, nowait: bool)

  /** What one call does: it completes, it has to wait, or it returns -1 (EAGAIN). */
  datatype Outcome = Done(vals: Six, adj: Six) | Blocks | Again

  function Refuse(o: Sembuf): Outcome {
    if o.nowait then Again else Blocks
  }

  /** One `semop` call: the array is evaluated in order, and either all of it takes effect
      or none of it does. `adj` is the caller's undo table. */
  function Semop(ops: seq<Sembuf>, vals: Six, adj: Six): Outcome {
    if ops == [] then Done(vals, adj) else
    var o := ops[0];
    var v := vals.Get(o.num);
    if o.op == 0 then
      if v == 0 then Semop(ops[1..], vals, adj) else Refuse(o)
    else if v + o.op < 0 then Refuse(o)
    else
      Semop(ops[1..], vals.Put(o.num, v + o.op),
            if o.undo then adj.Put(o.num, adj.Get(o.num) - o.op) else adj)
  }

  function Clamp(v: int): int {
    if v < 0 then 0 else v
  }

  /** Process exit: every adjustment is applied, and no counter goes below zero. */
  function AtExit(vals: Six, adj: Six): Six {
    Six(Clamp(vals.wonly + adj.wonly), Clamp(vals.ronly + adj.ronly),
        Clamp(vals.read + adj.read), Clamp(vals.write + adj.write),
        Clamp(vals.wwork + adj.wwork), Clamp(vals.rwork + adj.rwork))
  }

  // The operation arrays of the two programs.

  function Plain(n: SemNum, op: int): Sembuf {
    Sembuf(n, op, false, false)
  }

  function Undo(n: SemNum, op: int): Sembuf {
    Sembuf(n, op, true, false)
  }

  function NoWait(n: SemNum, op: int): Sembuf {
    Sembuf(n, op, false, true)
  }

  const READER_ENTER := [Plain(ROnly, 0), Plain(WWork, 0), Undo(ROnly, 1)]
  const READER_PAIR := [Plain(WOnly, -1), Plain(WOnly, 1), Undo(RWork, 1)]
  const READER_POST := [Plain(Read, 1)]
  const READER_AWAIT := [NoWait(WOnly, -1), NoWait(WOnly, 1), Plain(Write, -1)]
  const WRITER_ENTER := [Plain(WOnly, 0), Plain(RWork, 0), Undo(WOnly, 1)]
  const WRITER_PAIR := [Plain(ROnly, -1), Undo(WWork, 1), Plain(ROnly, 1)]
  const WRITER_TAKE := [NoWait(ROnly, -1), NoWait(ROnly, 1), Plain(Read, -1)]
  const WRITER_GIVE := [Plain(Write, 1)]
  const BALANCE := [Undo(Write, 1), Plain(Write, -1), Undo(Read, 1), Plain(Read, -1)]

  // What each array amounts to, as one atomic test and update.

  /** Semop over one operation followed by the others. */
  lemma SemopCons(o: Sembuf, rest: seq<Sembuf>, v: Six, a: Six)
    ensures Semop([o] + rest, v, a) ==
            (var x := v.Get(o.num);
             if o.op == 0 then if x == 0 then Semop(rest, v, a) else Refuse(o)
             else if x + o.op < 0 then Refuse(o)
             else Semop(rest, v.Put(o.num, x + o.op),
                        if o.undo then a.Put(o.num, a.Get(o.num) - o.op) else a))
  {
    assert ([o] + rest)[1..] == rest;
  }

  /** Semop over an array of three. */
  lemma SemopThree(o1: Sembuf, o2: Sembuf, o3: Sembuf, v: Six, a: Six)
    ensures Semop([o1, o2, o3], v, a) == Semop([o1] + ([o2] + ([o3] + [])), v, a)
  {
    assert [o1, o2, o3] == [o1] + ([o2] + ([o3] + []));
  }

  lemma ReaderEnterEffect(v: Six, a: Six)
    ensures Semop(READER_ENTER, v, a) ==
            if v.ronly == 0 && v.wwork == 0
            then Done(v.(ronly := 1), a.(ronly := a.ronly - 1)) else Blocks
  {
    SemopThree(Plain(ROnly, 0), Plain(WWork, 0), Undo(ROnly, 1), v, a);
    SemopCons(Plain(ROnly, 0), [Plain(WWork, 0)] + ([Undo(ROnly, 1)] + []), v, a);
    SemopCons(Plain(WWork, 0), [Undo(ROnly, 1)] + [], v, a);
    SemopCons(Undo(ROnly, 1), [], v, a);
  }

  lemma WriterEnterEffect(v: Six, a: Six)
    ensures Semop(WRITER_ENTER, v, a) ==
            if v.wonly == 0 && v.rwork == 0
            then Done(v.(wonly := 1), a.(wonly := a.wonly - 1)) else Blocks
  {
    SemopThree(Plain(WOnly, 0), Plain(RWork, 0), Undo(WOnly, 1), v, a);
    SemopCons(Plain(WOnly, 0), [Plain(RWork, 0)] + ([Undo(WOnly, 1)] + []), v, a);
    SemopCons(Plain(RWork, 0), [Undo(WOnly, 1)] + [], v, a);
    SemopCons(Undo(WOnly, 1), [], v, a);
  }

  lemma ReaderPairEffect(v: Six, a: Six)
    requires v.rwork >= 0
    ensures Semop(READER_PAIR, v, a) ==
            if v.wonly >= 1
            then Done(v.(rwork := v.rwork + 1), a.(rwork := a.rwork - 1)) else Blocks
  {
    SemopThree(Plain(WOnly, -1), Plain(WOnly, 1), Undo(RWork, 1), v, a);
    SemopCons(Plain(WOnly, -1), [Plain(WOnly, 1)] + ([Undo(RWork, 1)] + []), v, a);
    var v1 := v.Put(WOnly, v.wonly - 1);
    SemopCons(Plain(WOnly, 1), [Undo(RWork, 1)] + [], v1, a);
    SemopCons(Undo(RWork, 1), [], v1.Put(WOnly, v1.wonly + 1), a);
  }

  lemma WriterPairEffect(v: Six, a: Six)
    requires v.wwork >= 0
    ensures Semop(WRITER_PAIR, v, a) ==
            if v.ronly >= 1
            then Done(v.(wwork := v.wwork + 1), a.(wwork := a.wwork - 1)) else Blocks
  {
    SemopThree(Plain(ROnly, -1), Undo(WWork, 1), Plain(ROnly, 1), v, a);
    SemopCons(Plain(ROnly, -1), [Undo(WWork, 1)] + ([Plain(ROnly, 1)] + []), v, a);
    var v1 := v.Put(ROnly, v.ronly - 1);
    SemopCons(Undo(WWork, 1), [Plain(ROnly, 1)] + [], v1, a);
    SemopCons(Plain(ROnly, 1), [], v1.Put(WWork, v1.wwork + 1), a.(wwork := a.wwork - 1));
  }

  lemma ReaderAwaitEffect(v: Six, a: Six)
    requires v.wonly >= 0
    ensures Semop(READER_AWAIT, v, a) ==
            if v.wonly == 0 then Again
            else if v.write >= 1 then Done(v.(write := v.write - 1), a) else Blocks
  {
    SemopThree(NoWait(WOnly, -1), NoWait(WOnly, 1), Plain(Write, -1), v, a);
    SemopCons(NoWait(WOnly, -1), [NoWait(WOnly, 1)] + ([Plain(Write, -1)] + []), v, a);
    var v1 := v.Put(WOnly, v.wonly - 1);
    SemopCons(NoWait(WOnly, 1), [Plain(Write, -1)] + [], v1, a);
    SemopCons(Plain(Write, -1), [], v1.Put(WOnly, v1.wonly + 1), a);
  }

  lemma WriterTakeEffect(v: Six, a: Six)
    requires v.ronly >= 0
    ensures Semop(WRITER_TAKE, v, a) ==
            if v.ronly == 0 then Again
            else if v.read >= 1 then Done(v.(read := v.read - 1), a) else Blocks
  {
    SemopThree(NoWait(ROnly, -1), NoWait(ROnly, 1), Plain(Read, -1), v, a);
    SemopCons(NoWait(ROnly, -1), [NoWait(ROnly, 1)] + ([Plain(Read, -1)] + []), v, a);
    var v1 := v.Put(ROnly, v.ronly - 1);
    SemopCons(NoWait(ROnly, 1), [Plain(Read, -1)] + [], v1, a);
    SemopCons(Plain(Read, -1), [], v1.Put(ROnly, v1.ronly + 1), a);
  }

  lemma PostEffects(v: Six, a: Six)
    requires v.read >= 0 && v.write >= 0
    ensures Semop(READER_POST, v, a) == Done(v.(read := v.read + 1), a)
    ensures Semop(WRITER_GIVE, v, a) == Done(v.(write := v.write + 1), a)
  {
    assert READER_POST == [Plain(Read, 1)] + [];
    assert WRITER_GIVE == [Plain(Write, 1)] + [];
    SemopCons(Plain(Read, 1), [], v, a);
    SemopCons(Plain(Write, 1), [], v, a);
  }

  /** The balance call never waits and changes no counter: it only records undo adjustments. */
  lemma BalanceEffect(v: Six, a: Six)
    requires v.read >= 0 && v.write >= 0
    ensures Semop(BALANCE, v, a) == Done(v, a.(read := a.read - 1, write := a.write - 1))
  {
    var rest := [Plain(Write, -1)] + ([Undo(Read, 1)] + ([Plain(Read, -1)] + []));
    assert BALANCE == [Undo(Write, 1)] + rest;
    SemopCons(Undo(Write, 1), rest, v, a);
    var v1, a1 := v.Put(Write, v.write + 1), a.(write := a.write - 1);
    SemopCons(Plain(Write, -1), [Undo(Read, 1)] + ([Plain(Read, -1)] + []), v1, a1);
    SemopCons(Undo(Read, 1), [Plain(Read, -1)] + [], v, a1);
    SemopCons(Plain(Read, -1), [], v.Put(Read, v.read + 1), a1.(read := a1.read - 1));
  }
}
