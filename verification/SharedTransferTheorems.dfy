/** What the six semaphores guarantee of every reachable state and every run. */
module SharedTransferTheorems {
  import opened Common
  import opened Semaphores
  import opened SharedTransfer
  import opened SharedTransferInvariant

  lemma ReachableInv(s: State)
    requires Reachable(s)
    ensures Inv(s)
  {
    var ss, acts :| IsRun(ss, acts) && ss[|acts|] == s;
    RunKeepsInv(ss, acts, |acts|);
  }

  lemma ReachNext(s: State, a: Action, t: State)
    requires Reachable(s) && Step(s, a, t)
    ensures Reachable(t)
  {
    var ss, acts :| IsRun(ss, acts) && ss[|acts|] == s;
    assert IsRun(ss + [t], acts + [a]);
    assert (ss + [t])[|acts + [a]|] == t;
  }

  // Exclusion.

  /** Each slot has at most one holder; the buffer has at most one user; a reader that fills the
      buffer and a writer that prints it never overlap. */
  lemma MutualExclusion(s: State, p: Pid, q: Pid)
    requires Reachable(s) && p in s.procs && q in s.procs
    ensures ReaderHolds(s.procs[p]) && ReaderHolds(s.procs[q]) ==> p == q
    ensures WriterHolds(s.procs[p]) && WriterHolds(s.procs[q]) ==> p == q
    ensures Fills(s.procs[p]) ==> !Prints(s.procs[q])
    ensures 0 <= s.vals.read && 0 <= s.vals.write
    ensures s.vals.read + s.vals.write + Bit(WriterPhase(s.procs[q]) == WUsing) <= 1
  {
    ReachableInv(s);
    var r, w :| InvAt(s, r, w);
    FillerAlone(s, r, w);
    assert ReaderHolds(s.procs[p]) <==> r == Some(p);
    assert ReaderHolds(s.procs[q]) <==> r == Some(q);
    assert WriterHolds(s.procs[p]) <==> w == Some(p);
    assert WriterHolds(s.procs[q]) <==> w == Some(q);
  }

  /** The statements of the last result are the right ones: the buffer changes only while somebody
      fills it, and output grows only while somebody prints. */
  lemma BufferUse(s: State, a: Action, t: State, q: Pid)
    requires Reachable(s) && Step(s, a, t)
    ensures t.data != s.data || t.size != s.size ==> !a.Arrive? && a.p in s.procs && Fills(s.procs[a.p])
    ensures q in s.procs && s.procs[q].Writer? && q in t.procs && t.procs[q].Writer? && t.procs[q].out != s.procs[q].out ==>
              !a.Arrive? && a.p == q && Prints(s.procs[q])
  {
    ReachableInv(s);
    var r, w :| InvAt(s, r, w);
    match a
    case Run(p, k) =>
      if s.procs[p].Reader? {
        ReaderTouches(s, p, k, t);
      } else {
        WriterTouches(s, p, t);
      }
    case _ =>
  }

  lemma ReaderTouches(s: State, p: Pid, k: nat, t: State)
    requires |s.data| == MAX && p in s.procs && s.procs[p].Reader? && ReaderNext(s, p, k) == Some(t)
    ensures t.data != s.data || t.size != s.size ==> Fills(s.procs[p])
    ensures p in t.procs && t.procs[p].Reader? && t.procs == s.procs[p := t.procs[p]]
  {
  }

  lemma WriterTouches(s: State, p: Pid, t: State)
    requires s.size <= |s.data| && p in s.procs && s.procs[p].Writer? && WriterNext(s, p) == Some(t)
    ensures t.data == s.data && t.size == s.size
    ensures p in t.procs && t.procs[p].Writer? && t.procs == s.procs[p := t.procs[p]]
    ensures t.procs[p].out != s.procs[p].out ==> Prints(s.procs[p])
  {
  }

  // Pairing.

  /** A working process is paired with whoever holds the other slot. */
  lemma WorkingPair(s: State, p: Pid, q: Pid)
    requires Reachable(s) && p in s.procs && q in s.procs
    requires ReaderHolds(s.procs[p]) && WriterHolds(s.procs[q])
    ensures ReaderWorks(s.procs[p]) ==> s.procs[p].mate == Some(q)
    ensures WriterWorks(s.procs[q]) ==> s.procs[q].mate == Some(p)
  {
    ReachableInv(s);
    var r, w :| InvAt(s, r, w);
    assert ReaderHolds(s.procs[p]) <==> r == Some(p);
    assert WriterHolds(s.procs[q]) <==> w == Some(q);
  }

  /** Everything the later proofs need to know of one step of reader p. */
  lemma ReaderMoves(s: State, p: Pid, k: nat, t: State)
    requires s.size <= |s.data| == MAX && p in s.procs && s.procs[p].Reader?
    requires ReaderNext(s, p, k) == Some(t)
    requires s.vals.rwork >= 0 && s.vals.wonly >= 0 && s.vals.read >= 0 && s.vals.write >= 0
    ensures p in t.procs && t.procs == s.procs[p := t.procs[p]] && t.procs[p].Reader?
    ensures t.vals.wonly == s.vals.wonly
    ensures s.procs[p].rpc != RPair ==> t.procs[p].mate == s.procs[p].mate
    ensures s.procs[p].rpc == RPair ==> s.vals.wonly >= 1
    ensures ReaderWorks(t.procs[p]) ==> ReaderWorks(s.procs[p]) || s.procs[p].rpc == RPair
    ensures Stopped(t.procs[p]) && s.procs[p].rpc != RAwait ==> t.procs[p].eof
    ensures Stopped(t.procs[p]) && s.procs[p].rpc == RAwait ==> s.vals.wonly == 0
    ensures s.procs[p].rpc != RLeave && s.procs[p].rpc != RDead
    ensures t.vals.read == s.vals.read + (if s.procs[p].rpc == RPost then 1 else 0)
    ensures ReaderWork(t.procs[p]) + (if s.procs[p].rpc == RPost then 3 else 0) < ReaderWork(s.procs[p])
  {
    var v, a := s.vals, s.procs[p].adj;
    match s.procs[p].rpc
    case REnter => ReaderEnterEffect(v, a);
    case RClear =>
    case RPair => ReaderPairEffect(v, a);
    case ROpen =>
    case RBalance => BalanceEffect(v, a);
    case RFirst =>
    case RPost => PostEffects(v, a);
    case RAwait => ReaderAwaitEffect(v, a);
    case RNext =>
    case RLeave =>
    case RDead =>
  }

  /** The same for one step of writer p. */
  lemma WriterMoves(s: State, p: Pid, t: State)
    requires s.size <= |s.data| == MAX && p in s.procs && s.procs[p].Writer?
    requires WriterNext(s, p) == Some(t)
    requires s.vals.wwork >= 0 && s.vals.ronly >= 0 && s.vals.read >= 0 && s.vals.write >= 0
    ensures p in t.procs && t.procs == s.procs[p := t.procs[p]] && t.procs[p].Writer?
    ensures t.vals.wonly >= s.vals.wonly
    ensures s.procs[p].wpc != WPair ==> t.procs[p].mate == s.procs[p].mate
    ensures t.vals.read == s.vals.read - (if t.procs[p].wpc == WOut then 1 else 0)
    ensures WriterWork(t.procs[p]) < WriterWork(s.procs[p]) + (if t.procs[p].wpc == WOut then 3 else 0)
  {
    var v, a := s.vals, s.procs[p].adj;
    match s.procs[p].wpc
    case WEnter => WriterEnterEffect(v, a);
    case WPair => WriterPairEffect(v, a);
    case WBalance => BalanceEffect(v, a);
    case WTake => WriterTakeEffect(v, a);
    case WOut =>
    case WGive => PostEffects(v, a);
    case WLeave =>
    case WDead =>
  }

  /** A bound on the steps a reader still makes: three per byte at most, and one token each. */
  function ReaderWork(q: Proc): nat
    requires q.Reader?
  {
    var rest := if q.pos <= |q.file| then 6 * (|q.file| - q.pos) else 0;
    match q.rpc
    case REnter => 13 + rest
    case RClear => 12 + rest
    case RPair => 11 + rest
    case ROpen => 10 + rest
    case RBalance => 9 + rest
    case RFirst => 8 + rest
    case RPost => 7 + rest
    case RAwait => 3 + rest
    case RNext => 2 + rest
    case RLeave => 1
    case RDead => 0
  }

  /** A bound on the steps a writer still makes before it needs another READ token. */
  function WriterWork(q: Proc): nat
    requires q.Writer?
  {
    match q.wpc
    case WEnter => 5
    case WPair => 4
    case WBalance => 3
    case WTake => 2
    case WOut => 4
    case WGive => 3
    case WLeave => 1
    case WDead => 0
  }

  lemma CountersFacts(s: State)
    requires Inv(s)
    ensures s.size <= |s.data| == MAX
    ensures s.vals.rwork >= 0 && s.vals.wonly >= 0 && s.vals.wwork >= 0 && s.vals.ronly >= 0
    ensures s.vals.read >= 0 && s.vals.write >= 0
  {
  }

  /** The mate of a process is written once. */
  lemma MateIsFinal(s: State, a: Action, t: State, p: Pid)
    requires Inv(s) && Step(s, a, t) && p in s.procs
    ensures p in t.procs && t.procs[p].Reader? == s.procs[p].Reader?
    ensures s.procs[p].mate.Some? ==> t.procs[p].mate == s.procs[p].mate
  {
    CountersFacts(s);
    UnpairedAtPair(s, p);
    if a.Run? {
      if s.procs[a.p].Reader? {
        ReaderMoves(s, a.p, a.k, t);
      } else {
        WriterMoves(s, a.p, t);
      }
    }
  }

  lemma UnpairedAtPair(s: State, p: Pid)
    requires Inv(s) && p in s.procs
    ensures s.procs[p].Reader? && s.procs[p].rpc == RPair ==> s.procs[p].mate == None
    ensures s.procs[p].Writer? && s.procs[p].wpc == WPair ==> s.procs[p].mate == None
  {
    var r, w :| InvAt(s, r, w);
    assert ProcOk(s, p);
  }

  lemma {:induction false} MateIsFinalInRun(ss: seq<State>, acts: seq<Action>, i: nat, j: nat, p: Pid)
    requires IsRun(ss, acts) && i <= j < |ss| && p in ss[i].procs
    ensures p in ss[j].procs && ss[j].procs[p].Reader? == ss[i].procs[p].Reader?
    ensures ss[i].procs[p].mate.Some? ==> ss[j].procs[p].mate == ss[i].procs[p].mate
  {
    if i < j {
      MateIsFinalInRun(ss, acts, i, j - 1, p);
      RunKeepsInv(ss, acts, j - 1);
      MateIsFinal(ss[j - 1], acts[j - 1], ss[j], p);
    }
  }

  lemma PrefixReachable(ss: seq<State>, acts: seq<Action>, i: nat)
    requires IsRun(ss, acts) && i < |ss|
    ensures Reachable(ss[i])
  {
    assert IsRun(ss[..i + 1], acts[..i]);
    assert ss[..i + 1][|acts[..i]|] == ss[i];
  }

  /** From the moment a process marks itself working until it is gone, nobody but the mate it
      had then holds the opposite slot. */
  lemma SessionIsExclusive(ss: seq<State>, acts: seq<Action>, i: nat, j: nat, p: Pid, q: Pid)
    requires IsRun(ss, acts) && i <= j < |ss|
    requires p in ss[i].procs && (ReaderWorks(ss[i].procs[p]) || WriterWorks(ss[i].procs[p]))
    requires p in ss[j].procs && (ReaderWorks(ss[j].procs[p]) || WriterWorks(ss[j].procs[p]))
    requires q in ss[j].procs
    requires if ss[i].procs[p].Reader? then WriterHolds(ss[j].procs[q]) else ReaderHolds(ss[j].procs[q])
    ensures ss[i].procs[p].mate == Some(q)
  {
    MateIsFinalInRun(ss, acts, i, j, p);
    PrefixReachable(ss, acts, j);
    RunKeepsInv(ss, acts, i);
    var r, w :| InvAt(ss[i], r, w);
    assert ProcOk(ss[i], p);
    if ss[i].procs[p].Reader? {
      WorkingPair(ss[j], p, q);
    } else {
      WorkingPair(ss[j], q, p);
    }
  }

  // Self-cleaning.

  /** Whenever nobody holds a slot, whatever died before, all six semaphores are zero. */
  lemma SelfCleaning(s: State)
    requires Reachable(s)
    ensures s.vals == ZERO || exists p :: p in s.procs && (ReaderHolds(s.procs[p]) || WriterHolds(s.procs[p]))
  {
    ReachableInv(s);
    var r, w :| InvAt(s, r, w);
    assert r.Some? ==> ReaderHolds(s.procs[r.value]);
    assert w.Some? ==> WriterHolds(s.procs[w.value]);
  }

  /** A reader that has not posted yet, or is filling the buffer, sees neither token: nothing
      survives from an earlier session. */
  lemma NoTokenSurvives(s: State, p: Pid)
    requires Reachable(s) && p in s.procs && ReaderHolds(s.procs[p])
    ensures s.procs[p].rpc != RAwait && s.procs[p].rpc != RLeave ==> s.vals.read == 0 && s.vals.write == 0
    ensures s.procs[p].rpc == RLeave && s.procs[p].eof ==> s.vals.write == 0
  {
    ReachableInv(s);
    var r, w :| InvAt(s, r, w);
    assert r == Some(p);
    assert ProcOk(s, p);
  }

  /** READ is only up while a reader waits for its answer or leaves, WRITE only while a writer asks
      for more or leaves. */
  lemma TokensHaveTakers(s: State)
    requires Reachable(s)
    ensures s.vals.read > 0 ==> exists p :: p in s.procs && s.procs[p].Reader? && s.procs[p].rpc in {RAwait, RLeave}
    ensures s.vals.write > 0 ==> exists q :: q in s.procs && s.procs[q].Writer? && s.procs[q].wpc in {WTake, WLeave}
  {
    ReachableInv(s);
    var r, w :| InvAt(s, r, w);
    if s.vals.read > 0 {
      assert ReaderHolds(s.procs[r.value]) && s.procs[r.value].rpc in {RAwait, RLeave};
    }
    if s.vals.write > 0 {
      assert WriterHolds(s.procs[w.value]) && s.procs[w.value].wpc in {WTake, WLeave};
    }
  }

  // Data.

  /** What a writer has printed is a first part of the file of its one mate. */
  lemma OutputIsPrefix(s: State, q: Pid)
    requires Reachable(s) && q in s.procs && s.procs[q].Writer?
    ensures match s.procs[q].mate
            case None => s.procs[q].out == []
            case Some(p) => p in s.procs && s.procs[p].Reader? && s.procs[q].out <= s.procs[p].file
  {
    ReachableInv(s);
    var r, w :| InvAt(s, r, w);
    assert ProcOk(s, q);
  }

  /** When a reader has left its loop because it read nothing, its mate has printed the whole
      file, and had this reader as its only source. */
  lemma EndOfFileMeansDelivered(s: State, p: Pid)
    requires Reachable(s) && p in s.procs && s.procs[p].Reader? && s.procs[p].eof
    ensures s.procs[p].mate.Some?
    ensures var q := s.procs[p].mate.value;
            q in s.procs && s.procs[q].Writer? && s.procs[q].mate == Some(p) && s.procs[q].out == s.procs[p].file
  {
    ReachableInv(s);
    var r, w :| InvAt(s, r, w);
    assert ProcOk(s, p);
    assert s.procs[p].file[..s.procs[p].pos] == s.procs[p].file;
  }

  /** Nobody dies in the middle: every death is the exit of a process that has left its loop. */
  ghost predicate Orderly(s: State, a: Action) {
    a.Die? && a.p in s.procs ==>
      var q := s.procs[a.p];
      if q.Reader? then q.rpc == RLeave else q.wpc == WLeave
  }

  predicate Stopped(q: Proc) {
    q.Reader? && (q.rpc == RLeave || q.rpc == RDead)
  }

  /** Without crashes a working reader is never alone, and only the end of its file stops it. */
  ghost predicate Undisturbed(s: State) {
    && (forall p {:trigger Stopped(s.procs[p])} :: p in s.procs && Stopped(s.procs[p]) ==> s.procs[p].eof)
    && (forall p {:trigger ReaderWorks(s.procs[p])} ::
          p in s.procs && ReaderWorks(s.procs[p]) && s.procs[p].rpc != RLeave ==> s.vals.wonly >= 1)
  }

  lemma ReaderUndisturbed(s: State, p: Pid, k: nat, t: State)
    requires Inv(s) && Undisturbed(s) && Step(s, Run(p, k), t) && s.procs[p].Reader?
    ensures Undisturbed(t)
  {
    CountersFacts(s);
    ReaderMoves(s, p, k, t);
    assert s.procs[p].rpc == RAwait ==> ReaderWorks(s.procs[p]);
    forall x | x in t.procs && Stopped(t.procs[x]) ensures t.procs[x].eof {
      assert x != p ==> Stopped(s.procs[x]);
    }
    forall x | x in t.procs && ReaderWorks(t.procs[x]) && t.procs[x].rpc != RLeave ensures t.vals.wonly >= 1 {
      assert x != p ==> ReaderWorks(s.procs[x]);
    }
  }

  lemma WriterUndisturbed(s: State, p: Pid, k: nat, t: State)
    requires Inv(s) && Undisturbed(s) && Step(s, Run(p, k), t) && s.procs[p].Writer?
    ensures Undisturbed(t)
  {
    CountersFacts(s);
    WriterMoves(s, p, t);
    forall x | x in t.procs && Stopped(t.procs[x]) ensures t.procs[x].eof {
      assert x != p && Stopped(s.procs[x]);
    }
    forall x | x in t.procs && ReaderWorks(t.procs[x]) && t.procs[x].rpc != RLeave ensures t.vals.wonly >= 1 {
      assert x != p && ReaderWorks(s.procs[x]);
    }
  }

  /** A writer only reaches its exit when no reader is working. */
  lemma LeavingWriterIsLast(s: State, p: Pid)
    requires Inv(s) && p in s.procs && s.procs[p].Writer? && s.procs[p].wpc == WLeave
    ensures forall x {:trigger ReaderWorks(s.procs[x])} :: x in s.procs ==> !ReaderWorks(s.procs[x])
  {
    var r, w :| InvAt(s, r, w);
    assert WriterHolds(s.procs[p]) && w == Some(p);
    forall x | x in s.procs ensures !ReaderWorks(s.procs[x]) {
      assert ReaderHolds(s.procs[x]) <==> r == Some(x);
    }
  }

  /** The exit of a reader leaves the writer slot alone. */
  lemma LeavingReaderUndo(s: State, p: Pid)
    requires Inv(s) && p in s.procs && s.procs[p].Reader?
    ensures s.procs[p].adj.wonly == 0 && s.vals.wonly >= 0
  {
    var r, w :| InvAt(s, r, w);
    assert ProcOk(s, p);
  }

  /** What the orderly exit of p changes. */
  lemma ExitFacts(s: State, p: Pid, scrap: seq<Byte>, m: nat, k: nat, t: State)
    requires Inv(s) && Step(s, Die(p, scrap, m, k), t) && Orderly(s, Die(p, scrap, m, k))
    ensures t.procs == s.procs[p := t.procs[p]]
    ensures s.procs[p].Reader? ==>
              t.vals.wonly == s.vals.wonly && Stopped(s.procs[p]) && t.procs[p] == s.procs[p].(rpc := RDead, adj := ZERO)
    ensures s.procs[p].Writer? ==>
              t.procs[p].Writer? && forall x {:trigger ReaderWorks(s.procs[x])} :: x in s.procs ==> !ReaderWorks(s.procs[x])
  {
    if s.procs[p].Reader? {
      LeavingReaderUndo(s, p);
    } else {
      LeavingWriterIsLast(s, p);
    }
  }

  lemma ExitUndisturbed(s: State, p: Pid, scrap: seq<Byte>, m: nat, k: nat, t: State)
    requires Inv(s) && Undisturbed(s) && Step(s, Die(p, scrap, m, k), t) && Orderly(s, Die(p, scrap, m, k))
    ensures Undisturbed(t)
  {
    ExitFacts(s, p, scrap, m, k, t);
    forall x | x in t.procs && Stopped(t.procs[x]) ensures t.procs[x].eof {
      assert Stopped(s.procs[x]);
    }
    forall x | x in t.procs && ReaderWorks(t.procs[x]) && t.procs[x].rpc != RLeave ensures t.vals.wonly >= 1 {
      assert x != p && ReaderWorks(s.procs[x]);
    }
  }

  lemma {:induction false} OrderlyRun(ss: seq<State>, acts: seq<Action>, i: nat)
    requires IsRun(ss, acts) && i < |ss|
    requires forall j {:trigger acts[j]} :: 0 <= j < |acts| ==> Orderly(ss[j], acts[j])
    ensures Undisturbed(ss[i])
  {
    if i != 0 {
      OrderlyRun(ss, acts, i - 1);
      RunKeepsInv(ss, acts, i - 1);
      var s, a, t := ss[i - 1], acts[i - 1], ss[i];
      match a
      case Arrive(p, who) =>
        forall x | x in t.procs && Stopped(t.procs[x]) ensures t.procs[x].eof {
          assert x != p && Stopped(s.procs[x]);
        }
        forall x | x in t.procs && ReaderWorks(t.procs[x]) && t.procs[x].rpc != RLeave ensures t.vals.wonly >= 1 {
          assert x != p && ReaderWorks(s.procs[x]);
        }
      case Run(p, k) =>
        if s.procs[p].Reader? {
          ReaderUndisturbed(s, p, k, t);
        } else {
          WriterUndisturbed(s, p, k, t);
        }
      case Die(p, scrap, m, k) => ExitUndisturbed(s, p, scrap, m, k, t);
    }
  }

  /** In a run without crashes, every reader that has stopped has had its whole file printed, by
      one writer that printed nothing else. */
  lemma CrashFreeDelivery(ss: seq<State>, acts: seq<Action>, i: nat, p: Pid)
    requires IsRun(ss, acts) && i < |ss|
    requires forall j {:trigger acts[j]} :: 0 <= j < |acts| ==> Orderly(ss[j], acts[j])
    requires p in ss[i].procs && Stopped(ss[i].procs[p])
    ensures ss[i].procs[p].mate.Some?
    ensures var q := ss[i].procs[p].mate.value;
            q in ss[i].procs && ss[i].procs[q].Writer? && ss[i].procs[q].out == ss[i].procs[p].file
  {
    OrderlyRun(ss, acts, i);
    PrefixReachable(ss, acts, i);
    EndOfFileMeansDelivered(ss[i], p);
  }

  // Progress.

  /** Process p can make a step of its own: its next call does not wait, or it is about to exit. */
  ghost predicate CanMove(s: State, p: Pid)
    requires p in s.procs && s.size <= |s.data| == MAX
  {
    var q := s.procs[p];
    || (exists k: nat :: Next(s, Run(p, k)).Some?)
    || (q.Reader? && q.rpc == RLeave)
    || (q.Writer? && q.wpc == WLeave)
  }

  /** Exactly when a live reader has to wait. */
  lemma ReaderWaits(s: State, p: Pid)
    requires s.size <= |s.data| == MAX && p in s.procs && s.procs[p].Reader? && Alive(s.procs[p])
    requires s.procs[p].pos <= |s.procs[p].file|
    requires s.vals.rwork >= 0 && s.vals.wonly >= 0 && s.vals.read >= 0 && s.vals.write >= 0
    ensures !CanMove(s, p) <==>
            match s.procs[p].rpc
            case REnter => s.vals.ronly != 0 || s.vals.wwork != 0
            case RPair => s.vals.wonly == 0
            case RAwait => s.vals.wonly != 0 && s.vals.write == 0
            case _ => false
  {
    var q := s.procs[p];
    var v, a := s.vals, q.adj;
    var rest := |q.file| - q.pos;
    var k := if rest < MAX then rest else MAX;
    match q.rpc
    case REnter =>
      ReaderEnterEffect(v, a);
      assert v.ronly == 0 && v.wwork == 0 ==> Next(s, Run(p, 0)).Some?;
    case RClear => assert Next(s, Run(p, 0)).Some?;
    case RPair =>
      ReaderPairEffect(v, a);
      assert v.wonly >= 1 ==> Next(s, Run(p, 0)).Some?;
    case ROpen => assert Next(s, Run(p, 0)).Some?;
    case RBalance =>
      BalanceEffect(v, a);
      assert Next(s, Run(p, 0)).Some?;
    case RFirst => assert CanRead(q, k) && Next(s, Run(p, k)).Some?;
    case RPost =>
      PostEffects(v, a);
      assert Next(s, Run(p, 0)).Some?;
    case RAwait =>
      ReaderAwaitEffect(v, a);
      assert v.wonly == 0 || v.write >= 1 ==> Next(s, Run(p, 0)).Some?;
    case RNext => assert CanRead(q, k) && Next(s, Run(p, k)).Some?;
    case RLeave =>
  }

  /** Exactly when a live writer has to wait. */
  lemma WriterWaits(s: State, p: Pid)
    requires s.size <= |s.data| == MAX && p in s.procs && s.procs[p].Writer? && Alive(s.procs[p])
    requires s.vals.wwork >= 0 && s.vals.ronly >= 0 && s.vals.read >= 0 && s.vals.write >= 0
    ensures !CanMove(s, p) <==>
            match s.procs[p].wpc
            case WEnter => s.vals.wonly != 0 || s.vals.rwork != 0
            case WPair => s.vals.ronly == 0
            case WTake => s.vals.ronly != 0 && s.vals.read == 0
            case _ => false
  {
    var q := s.procs[p];
    var v, a := s.vals, q.adj;
    match q.wpc
    case WEnter =>
      WriterEnterEffect(v, a);
      assert v.wonly == 0 && v.rwork == 0 ==> Next(s, Run(p, 0)).Some?;
    case WPair =>
      WriterPairEffect(v, a);
      assert v.ronly >= 1 ==> Next(s, Run(p, 0)).Some?;
    case WBalance =>
      BalanceEffect(v, a);
      assert Next(s, Run(p, 0)).Some?;
    case WTake =>
      WriterTakeEffect(v, a);
      assert v.ronly == 0 || v.read >= 1 ==> Next(s, Run(p, 0)).Some?;
    case WOut => assert Next(s, Run(p, 0)).Some?;
    case WGive =>
      PostEffects(v, a);
      assert Next(s, Run(p, 0)).Some?;
    case WLeave =>
  }

  /** Whenever a live reader and a live writer hold their slots, one of them can move. */
  lemma SessionMoves(s: State, p: Pid, q: Pid)
    requires Reachable(s) && p in s.procs && q in s.procs
    requires ReaderHolds(s.procs[p]) && WriterHolds(s.procs[q])
    ensures s.size <= |s.data| == MAX && (CanMove(s, p) || CanMove(s, q))
  {
    ReachableInv(s);
    CountersFacts(s);
    var r, w :| InvAt(s, r, w);
    assert ProcOk(s, p) && r == Some(p) && w == Some(q);
    ReaderWaits(s, p);
    WriterWaits(s, q);
  }

  /** Once the mate of a working process is dead, the opposite slot is empty: nobody else has been
      let in. */
  lemma MateDiesSlotEmpties(s: State, p: Pid)
    requires Reachable(s) && p in s.procs && (ReaderWorks(s.procs[p]) || WriterWorks(s.procs[p]))
    ensures s.procs[p].mate.Some? && s.procs[p].mate.value in s.procs
    ensures !Alive(s.procs[s.procs[p].mate.value]) ==>
              if s.procs[p].Reader? then s.vals.wonly == 0 else s.vals.ronly == 0
  {
    ReachableInv(s);
    var r, w :| InvAt(s, r, w);
    assert ProcOk(s, p);
    Occupancy(s, r, w);
    if s.procs[p].Reader? && w.Some? {
      assert WriterHolds(s.procs[w.value]);
      WorkingPair(s, p, w.value);
    } else if s.procs[p].Writer? && r.Some? {
      assert ReaderHolds(s.procs[r.value]);
      WorkingPair(s, r.value, p);
    }
  }

  ghost predicate MateIsDead(s: State, p: Pid)
    requires p in s.procs
  {
    s.procs[p].mate.Some? && s.procs[p].mate.value in s.procs && !Alive(s.procs[s.procs[p].mate.value])
  }

  /** After either of a pair has died, wherever it was, the other is never stuck at its loop's
      semop: the call fails at once and ends the loop. */
  lemma SurvivorLeaves(s: State, p: Pid)
    requires Reachable(s) && p in s.procs
    ensures s.size <= |s.data| == MAX
    ensures s.procs[p].Reader? && s.procs[p].rpc == RAwait && (MateIsDead(s, p) || s.vals.wonly == 0) ==>
              Next(s, Run(p, 0)) == Some(s.(procs := s.procs[p := s.procs[p].(rpc := RLeave)]))
    ensures s.procs[p].Writer? && s.procs[p].wpc == WTake && (MateIsDead(s, p) || s.vals.ronly == 0) ==>
              Next(s, Run(p, 0)) == Some(s.(procs := s.procs[p := s.procs[p].(wpc := WLeave)]))
  {
    ReachableInv(s);
    CountersFacts(s);
    if s.procs[p].Reader? {
      if s.procs[p].rpc == RAwait {
        MateDiesSlotEmpties(s, p);
        ReaderAwaitEffect(s.vals, s.procs[p].adj);
      }
    } else if s.procs[p].wpc == WTake {
      MateDiesSlotEmpties(s, p);
      WriterTakeEffect(s.vals, s.procs[p].adj);
    }
  }

  /** No live process can move. */
  ghost predicate AtRest(s: State)
    requires s.size <= |s.data| == MAX
  {
    forall x {:trigger Alive(s.procs[x])} :: x in s.procs && Alive(s.procs[x]) ==> !CanMove(s, x)
  }

  predicate Queues(q: Proc) {
    if q.Reader? then q.rpc == REnter else q.wpc == WEnter
  }

  predicate WaitsForMate(q: Proc) {
    if q.Reader? then q.rpc == RPair else q.wpc == WPair
  }

  /** One process holds a slot and waits for a mate; all other live ones queue on the same side. */
  ghost predicate OneSided(s: State, p: Pid) {
    && p in s.procs && WaitsForMate(s.procs[p])
    && forall x {:trigger Alive(s.procs[x])} :: x in s.procs && Alive(s.procs[x]) && x != p ==>
         Queues(s.procs[x]) && s.procs[x].Reader? == s.procs[p].Reader?
  }

  /** What an alive process without a slot is waiting for. */
  lemma QueueWaits(s: State, x: Pid)
    requires Inv(s) && x in s.procs && Alive(s.procs[x]) && Queues(s.procs[x])
    ensures s.size <= |s.data| == MAX
    ensures !CanMove(s, x) <==>
            if s.procs[x].Reader? then s.vals.ronly != 0 || s.vals.wwork != 0
            else s.vals.wonly != 0 || s.vals.rwork != 0
  {
    CountersFacts(s);
    var r, w :| InvAt(s, r, w);
    assert ProcOk(s, x);
    if s.procs[x].Reader? {
      ReaderWaits(s, x);
    } else {
      WriterWaits(s, x);
    }
  }

  /** A slot holder whose opposite slot is free only ever waits for a mate. */
  lemma LonelyWaits(s: State, p: Pid, r: Option<Pid>, w: Option<Pid>)
    requires InvAt(s, r, w) && ((r == Some(p) && w == None) || (r == None && w == Some(p)))
    ensures !CanMove(s, p) <==> WaitsForMate(s.procs[p])
  {
    assert ProcOk(s, p);
    if r == Some(p) {
      assert ReaderHolds(s.procs[p]);
      ReaderWaits(s, p);
    } else {
      assert WriterHolds(s.procs[p]);
      WriterWaits(s, p);
    }
  }

  lemma RestImpliesOneSided(s: State, r: Option<Pid>, w: Option<Pid>, x: Pid)
    requires InvAt(s, r, w) && AtRest(s) && x in s.procs && Alive(s.procs[x])
    ensures exists p :: OneSided(s, p)
  {
    forall y | y in s.procs && Alive(s.procs[y]) && r != Some(y) && w != Some(y)
      ensures Queues(s.procs[y])
      ensures if s.procs[y].Reader? then s.vals.ronly != 0 || s.vals.wwork != 0
              else s.vals.wonly != 0 || s.vals.rwork != 0
    {
      assert ReaderHolds(s.procs[y]) <==> r == Some(y);
      assert WriterHolds(s.procs[y]) <==> w == Some(y);
      QueueWaits(s, y);
    }
    if r.Some? && w.Some? {
      BothMove(s, r, w);
    } else if r.Some? {
      LonelyWaits(s, r.value, r, w);
      assert Alive(s.procs[r.value]);
      assert OneSided(s, r.value);
    } else if w.Some? {
      LonelyWaits(s, w.value, r, w);
      assert Alive(s.procs[w.value]);
      assert OneSided(s, w.value);
    }
  }

  lemma BothMove(s: State, r: Option<Pid>, w: Option<Pid>)
    requires InvAt(s, r, w) && r.Some? && w.Some?
    ensures !AtRest(s)
  {
    assert ReaderHolds(s.procs[r.value]) && WriterHolds(s.procs[w.value]);
    assert ProcOk(s, r.value);
    ReaderWaits(s, r.value);
    WriterWaits(s, w.value);
    assert Alive(s.procs[r.value]) && Alive(s.procs[w.value]);
  }

  lemma OneSidedRests(s: State, r: Option<Pid>, w: Option<Pid>, p: Pid)
    requires InvAt(s, r, w) && OneSided(s, p)
    ensures AtRest(s)
  {
    assert ReaderHolds(s.procs[p]) <==> r == Some(p);
    assert WriterHolds(s.procs[p]) <==> w == Some(p);
    assert r.Some? ==> ReaderHolds(s.procs[r.value]) && Alive(s.procs[r.value]);
    assert w.Some? ==> WriterHolds(s.procs[w.value]) && Alive(s.procs[w.value]);
    LonelyWaits(s, p, r, w);
    forall x | x in s.procs && Alive(s.procs[x]) ensures !CanMove(s, x) {
      if x != p {
        QueueWaits(s, x);
      }
    }
  }

  /** Deadlock freedom of the whole system. It is at rest exactly when nobody is alive, or when
      one process waits for a mate and everybody else alive queues behind it on the same side.
      So as soon as a reader and a writer are alive, whatever they are doing, something moves. */
  lemma RestIsOneSided(s: State)
    requires Reachable(s)
    ensures s.size <= |s.data| == MAX
    ensures AtRest(s) <==>
              || (forall x {:trigger Alive(s.procs[x])} :: x in s.procs ==> !Alive(s.procs[x]))
              || (exists p :: OneSided(s, p))
  {
    ReachableInv(s);
    var r, w :| InvAt(s, r, w);
    if AtRest(s) && exists x :: x in s.procs && Alive(s.procs[x]) {
      var x :| x in s.procs && Alive(s.procs[x]);
      RestImpliesOneSided(s, r, w, x);
    }
    if p :| OneSided(s, p) {
      OneSidedRests(s, r, w, p);
    }
  }
}
