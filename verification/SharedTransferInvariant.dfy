/** The inductive invariant of the shared-memory transfer. `r` and `w` name the processes that
    hold the reader and the writer slot. */
module SharedTransferInvariant {
  import opened Common
  import opened Semaphores
  import opened SharedTransfer

  function Bit(b: bool): int {
    if b then 1 else 0
  }

  /** What the protocol distinguishes of the process in the reader slot. */
  datatype RPhase = RNone | RComing | RTurn | RWaiting | RLeaving

  /** What the protocol distinguishes of the process in the writer slot. */
  datatype WPhase = WNone | WComing | WStarting | WWaiting | WUsing | WLeaving

  function ReaderPhase(q: Proc): RPhase {
    if q.Writer? then RNone else
    match q.rpc
    case REnter => RNone
    case RClear => RComing
    case RPair => RComing
    case ROpen => RTurn
    case RBalance => RTurn
    case RFirst => RTurn
    case RPost => RTurn
    case RAwait => RWaiting
    case RNext => RTurn
    case RLeave => RLeaving
    case RDead => RNone
  }

  function WriterPhase(q: Proc): WPhase {
    if q.Reader? then WNone else
    match q.wpc
    case WEnter => WNone
    case WPair => WComing
    case WBalance => WStarting
    case WTake => WWaiting
    case WOut => WUsing
    case WGive => WUsing
    case WLeave => WLeaving
    case WDead => WNone
  }

  ghost function RAt(s: State, r: Option<Pid>): RPhase
    requires r.Some? ==> r.value in s.procs
  {
    if r.None? then RNone else ReaderPhase(s.procs[r.value])
  }

  ghost function WAt(s: State, w: Option<Pid>): WPhase
    requires w.Some? ==> w.value in s.procs
  {
    if w.None? then WNone else WriterPhase(s.procs[w.value])
  }

  predicate Balanced(q: Proc) {
    if q.Reader? then ReaderWorks(q) && q.rpc != ROpen && q.rpc != RBalance
    else WriterWorks(q) && q.wpc != WBalance
  }

  /** The undo table is determined by how far the process got. */
  function AdjOf(q: Proc): Six {
    Six(-Bit(WriterHolds(q)), -Bit(ReaderHolds(q)), -Bit(Balanced(q)), -Bit(Balanced(q)),
        -Bit(WriterWorks(q)), -Bit(ReaderWorks(q)))
  }

  predicate Prints(q: Proc) {
    q.Writer? && q.wpc == WOut
  }

  /** The baton: READ, WRITE, or a writer that has taken READ and not yet given WRITE. */
  function Tokens(v: Six, y: WPhase): int {
    v.read + v.write + Bit(y == WUsing)
  }

  /** The six counters as functions of the phases of the slot holders, and who may see which token. */
  predicate Counters(v: Six, x: RPhase, y: WPhase) {
    && v.ronly == Bit(x != RNone) && v.rwork == Bit(x != RNone && x != RComing)
    && v.wonly == Bit(y != WNone) && v.wwork == Bit(y != WNone && y != WComing)
    && v.read >= 0 && v.write >= 0 && Tokens(v, y) <= 1
    && (match x
        case RNone => v.read == 0
        case RComing => Tokens(v, y) == 0
        case RTurn => Tokens(v, y) == 0
        case RWaiting => y != WNone ==> Tokens(v, y) == 1
        case RLeaving => y != WNone ==> Tokens(v, y) == 0)
    && (v.write == 1 ==> y == WWaiting || y == WLeaving)
    && (y == WLeaving ==> x == RNone)
  }

  /** The chunk in the buffer is not yet in the writer's output. */
  predicate Pending(v: Six, r: Proc, w: Proc)
    requires r.Reader? && w.Writer?
  {
    r.rpc == RPost || (r.rpc == RAwait && (v.read == 1 || w.wpc == WOut))
  }

  /** How far the output of the slot-holding writer has got in the file of the slot-holding reader. */
  ghost predicate Flow(v: Six, data: seq<Byte>, size: nat, r: Proc, w: Proc)
    requires r.Reader? && w.Writer? && size <= |data|
  {
    match r.rpc
    case RPost => Holding(data, size, r, w)
    case RAwait => if Pending(v, r, w) then Holding(data, size, r, w) else Printed(r, w)
    case RNext => Printed(r, w)
    case RLeave => true
    case REnter => true
    case RDead => true
    case _ => w.out == []
  }

  ghost predicate Printed(r: Proc, w: Proc)
    requires r.Reader? && w.Writer?
  {
    r.pos <= |r.file| && w.out == r.file[..r.pos]
  }

  /** The buffer holds the last chunk read, and everything before it has been printed. */
  ghost predicate Holding(data: seq<Byte>, size: nat, r: Proc, w: Proc)
    requires r.Reader? && w.Writer? && size <= |data|
  {
    && size <= r.pos <= |r.file|
    && w.out == r.file[..r.pos - size]
    && data[..size] == r.file[r.pos - size..r.pos]
  }

  /** What the state of one process says about itself. */
  ghost predicate Local(q: Proc) {
    && q.adj == AdjOf(q)
    && match q
       case Reader(rpc, _, mate, file, pos, eof) =>
         && pos <= |file|
         && (!ReaderWorks(q) && rpc != RDead ==> mate == None && pos == 0)
         && (rpc == ROpen || rpc == RBalance || rpc == RFirst ==> pos == 0)
         && (ReaderWorks(q) ==> mate.Some?)
         && (eof ==> mate.Some? && pos == |file| && (rpc == RLeave || rpc == RDead))
       case Writer(wpc, _, mate, out) =>
         && (wpc == WEnter || wpc == WPair ==> mate == None)
         && (WriterWorks(q) ==> mate.Some?)
         && (mate == None ==> out == [])
  }

  /** What process p, in state q, says about the state m of its mate. */
  ghost predicate Link(p: Pid, q: Proc, m: Proc) {
    match q
    case Reader(rpc, _, mate, file, pos, eof) =>
      m.Writer? && (eof || rpc == RNext ==> pos <= |file| && m.mate == Some(p) && m.out == file[..pos])
    case Writer(wpc, _, mate, out) =>
      m.Reader? && out <= m.file && (wpc == WOut ==> !m.eof)
  }

  ghost predicate Chunk(data: seq<Byte>, size: nat, q: Proc, m: Proc)
    requires size <= |data|
  {
    Prints(q) && m.Reader? ==> q.out + data[..size] <= m.file
  }

  /** What holds of every process, dead or alive. */
  ghost predicate ProcOk(s: State, p: Pid)
    requires p in s.procs && s.size <= |s.data|
  {
    var q := s.procs[p];
    && Local(q)
    && (q.mate.Some? ==>
          && q.mate.value in s.procs
          && Link(p, q, s.procs[q.mate.value])
          && Chunk(s.data, s.size, q, s.procs[q.mate.value]))
  }

  ghost predicate AllOk(s: State)
    requires s.size <= |s.data|
  {
    forall p {:trigger ProcOk(s, p)} :: p in s.procs ==> ProcOk(s, p)
  }

  ghost predicate Slots(s: State, r: Option<Pid>, w: Option<Pid>) {
    && (r.Some? ==> r.value in s.procs)
    && (w.Some? ==> w.value in s.procs)
    && (forall p {:trigger ReaderHolds(s.procs[p])} :: p in s.procs ==> (ReaderHolds(s.procs[p]) <==> r == Some(p)))
    && (forall p {:trigger WriterHolds(s.procs[p])} :: p in s.procs ==> (WriterHolds(s.procs[p]) <==> w == Some(p)))
  }

  /** What the two slot holders owe each other. */
  ghost predicate Paired(v: Six, data: seq<Byte>, size: nat, r: Option<Pid>, w: Option<Pid>, rp: Proc, wp: Proc)
    requires size <= |data|
  {
    && rp.Reader? && wp.Writer?
    && (ReaderWorks(rp) ==> rp.mate == w)
    && (WriterWorks(wp) ==> wp.mate == r)
    && Flow(v, data, size, rp, wp)
  }

  ghost predicate Session(s: State, r: Option<Pid>, w: Option<Pid>)
    requires Slots(s, r, w) && s.size <= |s.data|
  {
    r.Some? && w.Some? ==>
      Paired(s.vals, s.data, s.size, r, w, s.procs[r.value], s.procs[w.value])
  }

  ghost predicate InvAt(s: State, r: Option<Pid>, w: Option<Pid>) {
    && s.size <= |s.data| == MAX
    && Slots(s, r, w)
    && Counters(s.vals, RAt(s, r), WAt(s, w))
    && AllOk(s)
    && Session(s, r, w)
  }

  ghost predicate Inv(s: State) {
    exists r, w :: InvAt(s, r, w)
  }

  lemma HoldersAre(s: State, r: Option<Pid>, w: Option<Pid>)
    requires Slots(s, r, w)
    ensures ReaderHolder(s) == r && WriterHolder(s) == w
  {
  }

  // What the other processes need when only p moves.

  /** p keeps what others read of it. */
  predicate Steady(q: Proc, q': Proc) {
    match q
    case Reader(_, _, _, file, _, eof) => q'.Reader? && q'.file == file && q'.eof == eof
    case Writer(_, _, mate, out) => q'.Writer? && q'.out == out && (mate.Some? ==> q'.mate == mate)
  }

  lemma OthersKeep(s: State, t: State, p: Pid, q': Proc)
    requires s.size <= |s.data| && t.size <= |t.data| && AllOk(s)
    requires p in s.procs && t.procs == s.procs[p := q'] && Steady(s.procs[p], q')
    requires t.data == s.data && t.size == s.size
    requires ProcOk(t, p)
    ensures AllOk(t)
  {
    forall x | x in t.procs ensures ProcOk(t, x) {
      if x != p {
        assert ProcOk(s, x);
      }
    }
  }

  /** Reader p refills the buffer, possibly finding the end of its file: nobody prints. */
  lemma OthersKeepFilled(s: State, t: State, p: Pid, q': Proc)
    requires s.size <= |s.data| && t.size <= |t.data| && AllOk(s)
    requires p in s.procs && t.procs == s.procs[p := q']
    requires s.procs[p].Reader? && q'.Reader? && q'.file == s.procs[p].file
    requires forall x {:trigger Prints(s.procs[x])} :: x in s.procs ==> !Prints(s.procs[x])
    requires ProcOk(t, p)
    ensures AllOk(t)
  {
    forall x | x in t.procs ensures ProcOk(t, x) {
      if x != p {
        assert ProcOk(s, x);
        assert !Prints(s.procs[x]);
      }
    }
  }

  /** Writer p prints: no reader has already counted on its output. */
  lemma OthersKeepPrinted(s: State, t: State, p: Pid, q': Proc)
    requires s.size <= |s.data| && t.size <= |t.data| && AllOk(s)
    requires p in s.procs && t.procs == s.procs[p := q']
    requires Prints(s.procs[p]) && q'.Writer? && q'.mate == s.procs[p].mate
    requires t.data == s.data && t.size == s.size
    requires forall x {:trigger Fills(s.procs[x])} :: x in s.procs ==> !Fills(s.procs[x])
    requires ProcOk(t, p)
    ensures AllOk(t)
  {
    assert ProcOk(s, p);
    forall x | x in t.procs ensures ProcOk(t, x) {
      if x != p {
        assert ProcOk(s, x);
        assert !Fills(s.procs[x]);
      }
    }
  }

  lemma SlotsKeep(s: State, t: State, p: Pid, q': Proc, r: Option<Pid>, w: Option<Pid>)
    requires Slots(s, r, w) && p in s.procs && t.procs == s.procs[p := q']
    requires ReaderHolds(q') == ReaderHolds(s.procs[p]) && WriterHolds(q') == WriterHolds(s.procs[p])
    ensures Slots(t, r, w)
  {
    forall x | x in t.procs
      ensures (ReaderHolds(t.procs[x]) <==> r == Some(x)) && (WriterHolds(t.procs[x]) <==> w == Some(x))
    {
      assert x != p ==> t.procs[x] == s.procs[x];
      assert ReaderHolds(s.procs[x]) <==> r == Some(x);
      assert WriterHolds(s.procs[x]) <==> w == Some(x);
    }
  }

  /** p gives up the slot it may hold, or takes a free one. */
  lemma SlotsMove(s: State, t: State, p: Pid, q': Proc, r: Option<Pid>, w: Option<Pid>, r': Option<Pid>, w': Option<Pid>)
    requires Slots(s, r, w) && p in s.procs && t.procs == s.procs[p := q']
    requires r' == (if ReaderHolds(q') then Some(p) else if r == Some(p) then None else r)
    requires w' == (if WriterHolds(q') then Some(p) else if w == Some(p) then None else w)
    requires ReaderHolds(q') ==> r == None || r == Some(p)
    requires WriterHolds(q') ==> w == None || w == Some(p)
    ensures Slots(t, r', w')
  {
    forall x | x in t.procs
      ensures (ReaderHolds(t.procs[x]) <==> r' == Some(x)) && (WriterHolds(t.procs[x]) <==> w' == Some(x))
    {
      assert x != p ==> t.procs[x] == s.procs[x];
      assert ReaderHolds(s.procs[x]) <==> r == Some(x);
      assert WriterHolds(s.procs[x]) <==> w == Some(x);
    }
  }

  /** While a reader fills the buffer nobody prints, and the other way round. */
  lemma FillerAlone(s: State, r: Option<Pid>, w: Option<Pid>)
    requires InvAt(s, r, w)
    ensures forall x, y {:trigger Fills(s.procs[x]), Prints(s.procs[y])} ::
              x in s.procs && y in s.procs && Fills(s.procs[x]) ==> !Prints(s.procs[y])
  {
    forall x, y | x in s.procs && y in s.procs && Fills(s.procs[x]) ensures !Prints(s.procs[y]) {
      assert ReaderHolds(s.procs[x]) <==> r == Some(x);
      assert WriterHolds(s.procs[y]) <==> w == Some(y);
    }
  }

  /** The slot holders did not move. */
  lemma SessionKeeps(s: State, t: State, r: Option<Pid>, w: Option<Pid>)
    requires InvAt(s, r, w) && Slots(t, r, w)
    requires t.vals == s.vals && t.data == s.data && t.size == s.size
    requires r.Some? ==> t.procs[r.value] == s.procs[r.value]
    requires w.Some? ==> t.procs[w.value] == s.procs[w.value]
    ensures Counters(t.vals, RAt(t, r), WAt(t, w)) && Session(t, r, w)
  {
  }

  // What a step has to show when it moves only one of the slot holders.

  function Moved(s: State, v: Six, p: Pid, q: Proc): State {
    s.(vals := v, procs := s.procs[p := q])
  }

  /** The counters tell which slots are taken and which processes work. */
  lemma Occupancy(s: State, r: Option<Pid>, w: Option<Pid>)
    requires InvAt(s, r, w)
    ensures s.vals.ronly == Bit(r != None) && s.vals.wonly == Bit(w != None)
    ensures s.vals.rwork == Bit(r != None && ReaderWorks(s.procs[r.value]))
    ensures s.vals.wwork == Bit(w != None && WriterWorks(s.procs[w.value]))
  {
    assert r.Some? ==> ReaderHolds(s.procs[r.value]);
    assert w.Some? ==> WriterHolds(s.procs[w.value]);
  }

  /** p is the reader of the session. */
  lemma ReaderIs(s: State, p: Pid, r: Option<Pid>, w: Option<Pid>)
    requires InvAt(s, r, w) && p in s.procs && ReaderHolds(s.procs[p])
    ensures r == Some(p) && w != Some(p) && ProcOk(s, p)
    ensures w.Some? ==> w.value in s.procs && Paired(s.vals, s.data, s.size, r, w, s.procs[p], s.procs[w.value])
    ensures Counters(s.vals, ReaderPhase(s.procs[p]), WAt(s, w))
  {
    assert WriterHolds(s.procs[p]) <==> w == Some(p);
  }

  /** p is the writer of the session. */
  lemma WriterIs(s: State, p: Pid, r: Option<Pid>, w: Option<Pid>)
    requires InvAt(s, r, w) && p in s.procs && WriterHolds(s.procs[p])
    ensures w == Some(p) && r != Some(p) && ProcOk(s, p)
    ensures r.Some? ==> r.value in s.procs && Paired(s.vals, s.data, s.size, r, w, s.procs[r.value], s.procs[p])
    ensures Counters(s.vals, RAt(s, r), WriterPhase(s.procs[p]))
  {
    assert ReaderHolds(s.procs[p]) <==> r == Some(p);
  }

  /** The reader of the session moves and leaves the buffer alone. */
  lemma ReaderMoveKeeps(s: State, v: Six, p: Pid, q: Proc, r: Option<Pid>, w: Option<Pid>)
    requires InvAt(s, r, w) && r == Some(p) && w != Some(p)
    requires Steady(s.procs[p], q) && ReaderHolds(q)
    requires Counters(v, ReaderPhase(q), WAt(s, w))
    requires ProcOk(Moved(s, v, p, q), p)
    requires w.Some? ==> Paired(v, s.data, s.size, r, w, q, s.procs[w.value])
    ensures InvAt(Moved(s, v, p, q), r, w)
  {
    var t := Moved(s, v, p, q);
    SlotsKeep(s, t, p, q, r, w);
    OthersKeep(s, t, p, q);
  }

  /** The reader of the session refills the buffer. */
  lemma ReaderRefillKeeps(s: State, t: State, p: Pid, q: Proc, r: Option<Pid>, w: Option<Pid>)
    requires InvAt(s, r, w) && r == Some(p) && w != Some(p) && Fills(s.procs[p])
    requires q.Reader? && q.file == s.procs[p].file && ReaderHolds(q)
    requires t.procs == s.procs[p := q] && t.vals == s.vals && t.size <= |t.data| == MAX
    requires Counters(t.vals, ReaderPhase(q), WAt(s, w))
    requires ProcOk(t, p)
    requires w.Some? ==> Paired(t.vals, t.data, t.size, r, w, q, s.procs[w.value])
    ensures InvAt(t, r, w)
  {
    FillerAlone(s, r, w);
    SlotsKeep(s, t, p, q, r, w);
    OthersKeepFilled(s, t, p, q);
  }

  /** The writer of the session moves without printing. */
  lemma WriterMoveKeeps(s: State, v: Six, p: Pid, q: Proc, r: Option<Pid>, w: Option<Pid>)
    requires InvAt(s, r, w) && w == Some(p) && r != Some(p)
    requires Steady(s.procs[p], q) && WriterHolds(q)
    requires Counters(v, RAt(s, r), WriterPhase(q))
    requires ProcOk(Moved(s, v, p, q), p)
    requires r.Some? ==> Paired(v, s.data, s.size, r, w, s.procs[r.value], q)
    ensures InvAt(Moved(s, v, p, q), r, w)
  {
    var t := Moved(s, v, p, q);
    SlotsKeep(s, t, p, q, r, w);
    OthersKeep(s, t, p, q);
  }

  /** The writer of the session prints. */
  lemma WriterPrintKeeps(s: State, p: Pid, q: Proc, r: Option<Pid>, w: Option<Pid>)
    requires InvAt(s, r, w) && w == Some(p) && r != Some(p) && Prints(s.procs[p])
    requires q.Writer? && q.mate == s.procs[p].mate && WriterHolds(q)
    requires Counters(s.vals, RAt(s, r), WriterPhase(q))
    requires ProcOk(Moved(s, s.vals, p, q), p)
    requires r.Some? ==> Paired(s.vals, s.data, s.size, r, w, s.procs[r.value], q)
    ensures InvAt(Moved(s, s.vals, p, q), r, w)
  {
    var t := Moved(s, s.vals, p, q);
    FillerAlone(s, r, w);
    SlotsKeep(s, t, p, q, r, w);
    OthersKeepPrinted(s, t, p, q);
  }

  // How each call moves the counters, whatever the other side is doing.

  lemma EnterCounters(v: Six, x: RPhase, y: WPhase)
    requires Counters(v, x, y)
    ensures x == RNone && v.wwork == 0 ==> Counters(v.(ronly := 1), RComing, y)
    ensures y == WNone && v.rwork == 0 ==> Counters(v.(wonly := 1), x, WComing)
  {
  }

  lemma PairCounters(v: Six, x: RPhase, y: WPhase)
    requires Counters(v, x, y)
    ensures x == RComing ==> Counters(v.(rwork := v.rwork + 1), RTurn, y)
    ensures y == WComing && v.ronly >= 1 ==> Counters(v.(wwork := v.wwork + 1), x, WStarting)
    ensures y == WStarting ==> Counters(v, x, WWaiting)
  {
  }

  lemma PostCounters(v: Six, y: WPhase)
    requires Counters(v, RTurn, y)
    ensures Counters(v.(read := v.read + 1), RWaiting, y)
    ensures Counters(v, RLeaving, y)
  {
  }

  lemma AwaitCounters(v: Six, y: WPhase)
    requires Counters(v, RWaiting, y)
    ensures v.wonly != 0 && v.write >= 1 ==> Counters(v.(write := v.write - 1), RTurn, y)
    ensures v.wonly == 0 ==> Counters(v, RLeaving, y)
  {
  }

  lemma TakeCounters(v: Six, x: RPhase)
    requires Counters(v, x, WWaiting)
    ensures v.ronly != 0 && v.read >= 1 ==> x == RWaiting && Counters(v.(read := v.read - 1), x, WUsing)
    ensures v.ronly == 0 ==> Counters(v, x, WLeaving)
  {
  }

  lemma GiveCounters(v: Six, x: RPhase)
    requires Counters(v, x, WUsing)
    ensures Counters(v.(write := v.write + 1), x, WWaiting)
    ensures v.read == 0 && v.write == 0 && (x == RNone || x == RWaiting)
  {
  }

  // One lemma per statement of the programs.

  ghost predicate ReaderAt(s: State, r: Option<Pid>, w: Option<Pid>, p: Pid, pc: RPc) {
    InvAt(s, r, w) && p in s.procs && s.procs[p].Reader? && s.procs[p].rpc == pc
  }

  ghost predicate WriterAt(s: State, r: Option<Pid>, w: Option<Pid>, p: Pid, pc: WPc) {
    InvAt(s, r, w) && p in s.procs && s.procs[p].Writer? && s.procs[p].wpc == pc
  }

  lemma ReaderEnterKeeps(s: State, p: Pid, r: Option<Pid>, w: Option<Pid>, q: Proc, t: State)
    requires ReaderAt(s, r, w, p, REnter)
    requires s.vals.ronly == 0 && s.vals.wwork == 0
    requires q == s.procs[p].(rpc := RClear, adj := s.procs[p].adj.(ronly := s.procs[p].adj.ronly - 1))
    requires t == Moved(s, s.vals.(ronly := 1), p, q)
    ensures InvAt(t, Some(p), w)
  {
    Occupancy(s, r, w);
    assert ProcOk(s, p);
    assert w != Some(p) by { assert !WriterHolds(s.procs[p]); }
    EnterCounters(s.vals, RAt(s, r), WAt(s, w));
    SlotsMove(s, t, p, q, r, w, Some(p), w);
    OthersKeep(s, t, p, q);
    if w.Some? {
      assert ProcOk(s, w.value);
      assert WriterHolds(s.procs[w.value]) && !WriterWorks(s.procs[w.value]);
    }
  }

  lemma ReaderClearKeeps(s: State, p: Pid, r: Option<Pid>, w: Option<Pid>, q: Proc, t: State)
    requires ReaderAt(s, r, w, p, RClear)
    requires q == s.procs[p].(rpc := RPair)
    requires t.procs == s.procs[p := q] && t.vals == s.vals && t.size <= |t.data| == MAX
    ensures InvAt(t, r, w)
  {
    ReaderIs(s, p, r, w);
    ReaderRefillKeeps(s, t, p, q, r, w);
  }

  lemma ReaderPairKeeps(s: State, p: Pid, r: Option<Pid>, w: Option<Pid>, q: Proc, t: State)
    requires ReaderAt(s, r, w, p, RPair) && s.vals.wonly >= 1
    requires q == s.procs[p].(rpc := ROpen, adj := s.procs[p].adj.(rwork := s.procs[p].adj.rwork - 1), mate := w)
    requires t == Moved(s, s.vals.(rwork := s.vals.rwork + 1), p, q)
    ensures InvAt(t, r, w)
  {
    ReaderIs(s, p, r, w);
    Occupancy(s, r, w);
    assert WriterHolds(s.procs[w.value]);
    PairCounters(s.vals, RComing, WAt(s, w));
    ReaderMoveKeeps(s, t.vals, p, q, r, w);
  }

  lemma ReaderOpenKeeps(s: State, p: Pid, r: Option<Pid>, w: Option<Pid>, q: Proc, t: State)
    requires ReaderAt(s, r, w, p, ROpen)
    requires q == s.procs[p].(rpc := RBalance) && t == Moved(s, s.vals, p, q)
    ensures InvAt(t, r, w)
  {
    ReaderIs(s, p, r, w);
    ReaderMoveKeeps(s, t.vals, p, q, r, w);
  }

  lemma ReaderBalanceKeeps(s: State, p: Pid, r: Option<Pid>, w: Option<Pid>, q: Proc, t: State)
    requires ReaderAt(s, r, w, p, RBalance)
    requires var a := s.procs[p].adj;
             q == s.procs[p].(rpc := RFirst, adj := a.(read := a.read - 1, write := a.write - 1))
    requires t == Moved(s, s.vals, p, q)
    ensures InvAt(t, r, w)
  {
    ReaderIs(s, p, r, w);
    ReaderMoveKeeps(s, t.vals, p, q, r, w);
  }

  lemma FilledHolds(s: State, q0: Proc, k: nat, q: Proc, wp: Proc)
    requires q0.Reader? && wp.Writer? && |s.data| == MAX && CanRead(q0, k) && Printed(q0, wp)
    requires q == q0.(rpc := RPost, pos := q0.pos + k)
    ensures Holding(Filled(s.data, q0, k), k, q, wp)
  {
    assert Filled(s.data, q0, k)[..k] == q0.file[q0.pos..q0.pos + k];
  }

  lemma ReaderFillKeeps(s: State, p: Pid, k: nat, r: Option<Pid>, w: Option<Pid>, q: Proc, t: State)
    requires ReaderAt(s, r, w, p, RFirst) || (ReaderAt(s, r, w, p, RNext) && k != 0)
    requires CanRead(s.procs[p], k)
    requires q == s.procs[p].(rpc := RPost, pos := s.procs[p].pos + k)
    requires t == Moved(s, s.vals, p, q).(data := Filled(s.data, s.procs[p], k), size := k)
    ensures InvAt(t, r, w)
  {
    ReaderIs(s, p, r, w);
    if w.Some? {
      FilledHolds(s, s.procs[p], k, q, s.procs[w.value]);
    }
    ReaderRefillKeeps(s, t, p, q, r, w);
  }

  lemma ReaderEofKeeps(s: State, p: Pid, r: Option<Pid>, w: Option<Pid>, q: Proc, t: State)
    requires ReaderAt(s, r, w, p, RNext) && CanRead(s.procs[p], 0)
    requires q == s.procs[p].(rpc := RLeave, eof := true)
    requires t == Moved(s, s.vals, p, q).(data := Filled(s.data, s.procs[p], 0), size := 0)
    ensures InvAt(t, r, w)
  {
    ReaderIs(s, p, r, w);
    PostCounters(s.vals, WAt(s, w));
    ReaderRefillKeeps(s, t, p, q, r, w);
  }

  lemma ReaderPostKeeps(s: State, p: Pid, r: Option<Pid>, w: Option<Pid>, q: Proc, t: State)
    requires ReaderAt(s, r, w, p, RPost)
    requires q == s.procs[p].(rpc := RAwait) && t == Moved(s, s.vals.(read := s.vals.read + 1), p, q)
    ensures InvAt(t, r, w)
  {
    ReaderIs(s, p, r, w);
    PostCounters(s.vals, WAt(s, w));
    ReaderMoveKeeps(s, t.vals, p, q, r, w);
  }

  lemma ReaderAwaitKeeps(s: State, p: Pid, r: Option<Pid>, w: Option<Pid>, q: Proc, t: State)
    requires ReaderAt(s, r, w, p, RAwait) && s.vals.wonly != 0 && s.vals.write >= 1
    requires q == s.procs[p].(rpc := RNext) && t == Moved(s, s.vals.(write := s.vals.write - 1), p, q)
    ensures InvAt(t, r, w)
  {
    ReaderIs(s, p, r, w);
    Occupancy(s, r, w);
    AwaitCounters(s.vals, WAt(s, w));
    WriterIs(s, w.value, r, w);
    ReaderMoveKeeps(s, t.vals, p, q, r, w);
  }

  lemma ReaderGivesUpKeeps(s: State, p: Pid, r: Option<Pid>, w: Option<Pid>, q: Proc, t: State)
    requires ReaderAt(s, r, w, p, RAwait) && s.vals.wonly == 0
    requires q == s.procs[p].(rpc := RLeave) && t == Moved(s, s.vals, p, q)
    ensures InvAt(t, r, w)
  {
    ReaderIs(s, p, r, w);
    Occupancy(s, r, w);
    AwaitCounters(s.vals, WAt(s, w));
    ReaderMoveKeeps(s, t.vals, p, q, r, w);
  }

  lemma WriterEnterKeeps(s: State, p: Pid, r: Option<Pid>, w: Option<Pid>, q: Proc, t: State)
    requires WriterAt(s, r, w, p, WEnter)
    requires s.vals.wonly == 0 && s.vals.rwork == 0
    requires q == s.procs[p].(wpc := WPair, adj := s.procs[p].adj.(wonly := s.procs[p].adj.wonly - 1))
    requires t == Moved(s, s.vals.(wonly := 1), p, q)
    ensures InvAt(t, r, Some(p))
  {
    Occupancy(s, r, w);
    assert ProcOk(s, p);
    assert r != Some(p) by { assert !ReaderHolds(s.procs[p]); }
    EnterCounters(s.vals, RAt(s, r), WAt(s, w));
    SlotsMove(s, t, p, q, r, w, r, Some(p));
    OthersKeep(s, t, p, q);
    if r.Some? {
      assert ReaderHolds(s.procs[r.value]) && !ReaderWorks(s.procs[r.value]);
    }
  }

  predicate PairedWriter(q0: Proc, q: Proc, r: Option<Pid>) {
    && q0.Writer?
    && q == Writer(WBalance, q0.adj.(wwork := q0.adj.wwork - 1), r, q0.out)
  }

  /** A writer that has just found its reader has printed nothing of anybody's file. */
  lemma PairedWriterOk(s: State, v: Six, p: Pid, q: Proc, r: Option<Pid>)
    requires s.size <= |s.data| && p in s.procs && ProcOk(s, p)
    requires s.procs[p].Writer? && s.procs[p].wpc == WPair && PairedWriter(s.procs[p], q, r)
    requires r.Some? && r.value in s.procs && r.value != p && s.procs[r.value].Reader?
    ensures ProcOk(Moved(s, v, p, q), p) && q.out == []
  {
    assert Local(s.procs[p]) && Local(q);
  }

  /** The reader that is waiting for a writer, or for the first chunk to be taken, does not mind
      which. */
  lemma PairedFlow(s: State, v: Six, p: Pid, q: Proc, r: Option<Pid>)
    requires s.size <= |s.data| && p in s.procs && s.procs[p].Writer? && s.procs[p].wpc == WPair
    requires PairedWriter(s.procs[p], q, r) && r.Some? && r.value in s.procs && s.procs[r.value].Reader?
    requires v == s.vals.(wwork := s.vals.wwork + 1)
    requires Paired(s.vals, s.data, s.size, r, Some(p), s.procs[r.value], s.procs[p])
    ensures Paired(v, s.data, s.size, r, Some(p), s.procs[r.value], q)
  {
    assert Pending(v, s.procs[r.value], q) == Pending(s.vals, s.procs[r.value], s.procs[p]);
  }

  lemma WriterPairKeeps(s: State, p: Pid, r: Option<Pid>, w: Option<Pid>, q: Proc, t: State)
    requires WriterAt(s, r, w, p, WPair) && s.vals.ronly >= 1
    requires PairedWriter(s.procs[p], q, r)
    requires t == Moved(s, s.vals.(wwork := s.vals.wwork + 1), p, q)
    ensures InvAt(t, r, w)
  {
    WriterIs(s, p, r, w);
    Occupancy(s, r, w);
    assert ReaderHolds(s.procs[r.value]);
    PairCounters(s.vals, RAt(s, r), WComing);
    PairedWriterOk(s, t.vals, p, q, r);
    PairedFlow(s, t.vals, p, q, r);
    WriterMoveKeeps(s, t.vals, p, q, r, w);
  }

  lemma WriterBalanceKeeps(s: State, p: Pid, r: Option<Pid>, w: Option<Pid>, q: Proc, t: State)
    requires WriterAt(s, r, w, p, WBalance)
    requires var a := s.procs[p].adj;
             q == s.procs[p].(wpc := WTake, adj := a.(read := a.read - 1, write := a.write - 1))
    requires t == Moved(s, s.vals, p, q)
    ensures InvAt(t, r, w)
  {
    WriterIs(s, p, r, w);
    PairCounters(s.vals, RAt(s, r), WStarting);
    WriterMoveKeeps(s, t.vals, p, q, r, w);
  }

  lemma WriterTakeKeeps(s: State, p: Pid, r: Option<Pid>, w: Option<Pid>, q: Proc, t: State)
    requires WriterAt(s, r, w, p, WTake) && s.vals.ronly != 0 && s.vals.read >= 1
    requires q == s.procs[p].(wpc := WOut) && t == Moved(s, s.vals.(read := s.vals.read - 1), p, q)
    ensures InvAt(t, r, w)
  {
    WriterIs(s, p, r, w);
    Occupancy(s, r, w);
    TakeCounters(s.vals, RAt(s, r));
    var rp := s.procs[r.value];
    ReaderIs(s, r.value, r, w);
    assert rp.rpc == RAwait;
    assert rp.file[..rp.pos - s.size] + rp.file[rp.pos - s.size..rp.pos] == rp.file[..rp.pos];
    WriterMoveKeeps(s, t.vals, p, q, r, w);
  }

  lemma WriterGivesUpKeeps(s: State, p: Pid, r: Option<Pid>, w: Option<Pid>, q: Proc, t: State)
    requires WriterAt(s, r, w, p, WTake) && s.vals.ronly == 0
    requires q == s.procs[p].(wpc := WLeave) && t == Moved(s, s.vals, p, q)
    ensures InvAt(t, r, w)
  {
    WriterIs(s, p, r, w);
    Occupancy(s, r, w);
    TakeCounters(s.vals, RAt(s, r));
    WriterMoveKeeps(s, t.vals, p, q, r, w);
  }

  lemma WriterOutKeeps(s: State, p: Pid, r: Option<Pid>, w: Option<Pid>, q: Proc, t: State)
    requires WriterAt(s, r, w, p, WOut)
    requires q == s.procs[p].(wpc := WGive, out := s.procs[p].out + s.data[..s.size])
    requires t == Moved(s, s.vals, p, q)
    ensures InvAt(t, r, w)
  {
    WriterIs(s, p, r, w);
    GiveCounters(s.vals, RAt(s, r));
    if r.Some? {
      var rp := s.procs[r.value];
      assert ReaderHolds(rp) && rp.rpc == RAwait;
      assert Holding(s.data, s.size, rp, s.procs[p]);
      assert rp.file[..rp.pos - s.size] + rp.file[rp.pos - s.size..rp.pos] == rp.file[..rp.pos];
    }
    WriterPrintKeeps(s, p, q, r, w);
  }

  lemma WriterGiveKeeps(s: State, p: Pid, r: Option<Pid>, w: Option<Pid>, q: Proc, t: State)
    requires WriterAt(s, r, w, p, WGive)
    requires q == s.procs[p].(wpc := WTake) && t == Moved(s, s.vals.(write := s.vals.write + 1), p, q)
    ensures InvAt(t, r, w)
  {
    WriterIs(s, p, r, w);
    GiveCounters(s.vals, RAt(s, r));
    if r.Some? {
      assert ReaderHolds(s.procs[r.value]);
    }
    WriterMoveKeeps(s, t.vals, p, q, r, w);
  }

  /** The undo of a dying process takes back exactly what its session had added. */
  lemma ReaderUndo(v: Six, q: Proc, y: WPhase)
    requires Counters(v, ReaderPhase(q), y) && ReaderHolds(q) && q.adj == AdjOf(q)
    ensures Counters(AtExit(v, q.adj), RNone, y)
  {
    assert Balanced(q) ==> ReaderWorks(q);
  }

  lemma WriterUndo(v: Six, x: RPhase, q: Proc)
    requires Counters(v, x, WriterPhase(q)) && WriterHolds(q) && q.adj == AdjOf(q)
    ensures Counters(AtExit(v, q.adj), x, WNone)
  {
    assert Balanced(q) ==> WriterWorks(q);
  }

  lemma BystanderUndo(v: Six, x: RPhase, y: WPhase, q: Proc)
    requires Counters(v, x, y) && q.adj == AdjOf(q) && !ReaderHolds(q) && !WriterHolds(q)
    ensures AtExit(v, q.adj) == v
  {
  }

  lemma BystanderIs(s: State, p: Pid, r: Option<Pid>, w: Option<Pid>)
    requires InvAt(s, r, w) && p in s.procs && !ReaderHolds(s.procs[p]) && !WriterHolds(s.procs[p])
    ensures r != Some(p) && w != Some(p) && ProcOk(s, p)
    ensures AtExit(s.vals, s.procs[p].adj) == s.vals
  {
    assert ProcOk(s, p);
    BystanderUndo(s.vals, RAt(s, r), WAt(s, w), s.procs[p]);
  }

  /** A process without a slot moves where nobody notices. */
  lemma BystanderMoveKeeps(s: State, p: Pid, r: Option<Pid>, w: Option<Pid>, q: Proc, t: State)
    requires InvAt(s, r, w) && p in s.procs && !ReaderHolds(s.procs[p]) && !WriterHolds(s.procs[p])
    requires r != Some(p) && w != Some(p) && !ReaderHolds(q) && !WriterHolds(q)
    requires Steady(s.procs[p], q) && t == Moved(s, s.vals, p, q) && ProcOk(t, p)
    ensures InvAt(t, r, w)
  {
    OthersKeep(s, t, p, q);
    SlotsKeep(s, t, p, q, r, w);
    SessionKeeps(s, t, r, w);
  }

  predicate Killed(q0: Proc, q: Proc) {
    q == if q0.Reader? then q0.(rpc := RDead, adj := ZERO) else q0.(wpc := WDead, adj := ZERO)
  }

  lemma KilledIsOk(s: State, p: Pid, q: Proc, t: State)
    requires p in s.procs && s.size <= |s.data| && ProcOk(s, p)
    requires !ReaderHolds(s.procs[p]) && !WriterHolds(s.procs[p])
    requires Killed(s.procs[p], q) && t == Moved(s, s.vals, p, q)
    ensures ProcOk(t, p)
  {
    assert Local(s.procs[p]) && Local(q);
  }

  /** The death of a process that holds no slot. */
  lemma BystanderDeathKeeps(s: State, p: Pid, r: Option<Pid>, w: Option<Pid>, q: Proc, t: State)
    requires InvAt(s, r, w) && p in s.procs && !ReaderHolds(s.procs[p]) && !WriterHolds(s.procs[p])
    requires Killed(s.procs[p], q) && t == Moved(s, AtExit(s.vals, s.procs[p].adj), p, q)
    ensures InvAt(t, r, w)
  {
    BystanderIs(s, p, r, w);
    KilledIsOk(s, p, q, t);
    assert Steady(s.procs[p], q) && !ReaderHolds(q) && !WriterHolds(q);
    BystanderMoveKeeps(s, p, r, w, q, t);
  }

  lemma ReaderDeathKeeps(s: State, p: Pid, r: Option<Pid>, w: Option<Pid>, q: Proc, t: State)
    requires InvAt(s, r, w) && p in s.procs && ReaderHolds(s.procs[p])
    requires q == s.procs[p].(rpc := RDead, adj := ZERO)
    requires t.vals == AtExit(s.vals, s.procs[p].adj) && t.procs == s.procs[p := q] && t.size <= |t.data| == MAX
    requires Fills(s.procs[p]) || (t.data == s.data && t.size == s.size)
    ensures InvAt(t, None, w)
  {
    assert r == Some(p);
    assert Counters(t.vals, RNone, WAt(s, w)) by {
      assert ProcOk(s, p);
      ReaderUndo(s.vals, s.procs[p], WAt(s, w));
    }
    assert Slots(t, None, w) by {
      SlotsMove(s, t, p, q, r, w, None, w);
    }
    assert AllOk(t) by {
      assert ProcOk(s, p);
      if Fills(s.procs[p]) {
        FillerAlone(s, r, w);
        OthersKeepFilled(s, t, p, q);
      } else {
        OthersKeep(s, t, p, q);
      }
    }
  }

  lemma WriterDeathKeeps(s: State, p: Pid, k: nat, r: Option<Pid>, w: Option<Pid>, q: Proc, t: State)
    requires InvAt(s, r, w) && p in s.procs && WriterHolds(s.procs[p]) && k <= s.size
    requires var q0 := s.procs[p];
             q == q0.(wpc := WDead, adj := ZERO, out := if Prints(q0) then q0.out + s.data[..k] else q0.out)
    requires t == Moved(s, AtExit(s.vals, s.procs[p].adj), p, q)
    ensures InvAt(t, r, None)
  {
    assert w == Some(p);
    assert Counters(t.vals, RAt(s, r), WNone) by {
      assert ProcOk(s, p);
      WriterUndo(s.vals, RAt(s, r), s.procs[p]);
    }
    assert Slots(t, r, None) by {
      SlotsMove(s, t, p, q, r, w, r, None);
    }
    assert AllOk(t) by {
      assert ProcOk(s, p);
      if Prints(s.procs[p]) {
        assert s.procs[p].out + s.data[..k] <= s.procs[p].out + s.data[..s.size];
        FillerAlone(s, r, w);
        OthersKeepPrinted(s, t, p, q);
      } else {
        OthersKeep(s, t, p, q);
      }
    }
  }

  lemma ArrivalKeeps(s: State, p: Pid, who: Proc, r: Option<Pid>, w: Option<Pid>, t: State)
    requires InvAt(s, r, w) && p !in s.procs && Newcomer(who)
    requires t == s.(procs := s.procs[p := who])
    ensures InvAt(t, r, w)
  {
    assert AllOk(t) by {
      forall x | x in t.procs ensures ProcOk(t, x) {
        assert x != p ==> ProcOk(s, x);
      }
    }
    assert Slots(t, r, w) by {
      forall x | x in t.procs
        ensures (ReaderHolds(t.procs[x]) <==> r == Some(x)) && (WriterHolds(t.procs[x]) <==> w == Some(x))
      {
        assert x != p ==> t.procs[x] == s.procs[x];
        assert x != p ==> (ReaderHolds(s.procs[x]) <==> r == Some(x));
        assert x != p ==> (WriterHolds(s.procs[x]) <==> w == Some(x));
      }
    }
    SessionKeeps(s, t, r, w);
  }

  lemma ReaderJoins(s: State, p: Pid, k: nat, r: Option<Pid>, w: Option<Pid>, t: State)
    requires InvAt(s, r, w) && p in s.procs && s.procs[p].Reader? && ReaderNext(s, p, k) == Some(t)
    requires s.procs[p].rpc == REnter || s.procs[p].rpc == RClear
    ensures exists r' :: InvAt(t, r', w)
  {
    if s.procs[p].rpc == REnter {
      ReaderEnterEffect(s.vals, s.procs[p].adj);
      ReaderEnterKeeps(s, p, r, w, t.procs[p], t);
    } else {
      ReaderClearKeeps(s, p, r, w, t.procs[p], t);
    }
  }

  lemma ReaderPrepares(s: State, p: Pid, k: nat, r: Option<Pid>, w: Option<Pid>, t: State)
    requires InvAt(s, r, w) && p in s.procs && s.procs[p].Reader? && ReaderNext(s, p, k) == Some(t)
    requires s.procs[p].rpc == RPair || s.procs[p].rpc == ROpen || s.procs[p].rpc == RBalance
    ensures InvAt(t, r, w)
  {
    var q := s.procs[p];
    match q.rpc
    case RPair =>
      ReaderPairEffect(s.vals, q.adj);
      HoldersAre(s, r, w);
      ReaderPairKeeps(s, p, r, w, t.procs[p], t);
    case ROpen => ReaderOpenKeeps(s, p, r, w, t.procs[p], t);
    case RBalance =>
      BalanceEffect(s.vals, q.adj);
      ReaderBalanceKeeps(s, p, r, w, t.procs[p], t);
  }

  lemma ReaderReads(s: State, p: Pid, k: nat, r: Option<Pid>, w: Option<Pid>, t: State)
    requires InvAt(s, r, w) && p in s.procs && s.procs[p].Reader? && ReaderNext(s, p, k) == Some(t)
    requires s.procs[p].rpc == RFirst || s.procs[p].rpc == RNext
    ensures InvAt(t, r, w)
  {
    if s.procs[p].rpc == RFirst || k != 0 {
      ReaderFillKeeps(s, p, k, r, w, t.procs[p], t);
    } else {
      ReaderEofKeeps(s, p, r, w, t.procs[p], t);
    }
  }

  lemma ReaderTalks(s: State, p: Pid, k: nat, r: Option<Pid>, w: Option<Pid>, t: State)
    requires InvAt(s, r, w) && p in s.procs && s.procs[p].Reader? && ReaderNext(s, p, k) == Some(t)
    requires s.procs[p].rpc == RPost || s.procs[p].rpc == RAwait
    ensures InvAt(t, r, w)
  {
    if s.procs[p].rpc == RPost {
      PostEffects(s.vals, s.procs[p].adj);
      ReaderPostKeeps(s, p, r, w, t.procs[p], t);
    } else {
      ReaderAwaitEffect(s.vals, s.procs[p].adj);
      if s.vals.wonly == 0 {
        ReaderGivesUpKeeps(s, p, r, w, t.procs[p], t);
      } else {
        ReaderAwaitKeeps(s, p, r, w, t.procs[p], t);
      }
    }
  }

  lemma ReaderStepKeeps(s: State, p: Pid, k: nat, r: Option<Pid>, w: Option<Pid>, t: State)
    requires InvAt(s, r, w) && p in s.procs && s.procs[p].Reader? && ReaderNext(s, p, k) == Some(t)
    ensures Inv(t)
  {
    match s.procs[p].rpc
    case REnter => ReaderJoins(s, p, k, r, w, t);
    case RClear => ReaderJoins(s, p, k, r, w, t);
    case RPair => ReaderPrepares(s, p, k, r, w, t);
    case ROpen => ReaderPrepares(s, p, k, r, w, t);
    case RBalance => ReaderPrepares(s, p, k, r, w, t);
    case RFirst => ReaderReads(s, p, k, r, w, t);
    case RNext => ReaderReads(s, p, k, r, w, t);
    case RPost => ReaderTalks(s, p, k, r, w, t);
    case RAwait => ReaderTalks(s, p, k, r, w, t);
    case RLeave =>
    case RDead =>
  }

  lemma WriterPrepares(s: State, p: Pid, r: Option<Pid>, w: Option<Pid>, t: State)
    requires InvAt(s, r, w) && p in s.procs && s.procs[p].Writer? && WriterNext(s, p) == Some(t)
    requires s.procs[p].wpc == WEnter || s.procs[p].wpc == WPair || s.procs[p].wpc == WBalance
    ensures exists w' :: InvAt(t, r, w')
  {
    var q := s.procs[p];
    match q.wpc
    case WEnter =>
      WriterEnterEffect(s.vals, q.adj);
      WriterEnterKeeps(s, p, r, w, t.procs[p], t);
    case WPair =>
      WriterPairEffect(s.vals, q.adj);
      HoldersAre(s, r, w);
      WriterPairKeeps(s, p, r, w, t.procs[p], t);
    case WBalance =>
      BalanceEffect(s.vals, q.adj);
      WriterBalanceKeeps(s, p, r, w, t.procs[p], t);
  }

  lemma WriterTakes(s: State, p: Pid, r: Option<Pid>, w: Option<Pid>, t: State)
    requires WriterAt(s, r, w, p, WTake) && WriterNext(s, p) == Some(t)
    ensures InvAt(t, r, w)
  {
    WriterTakeEffect(s.vals, s.procs[p].adj);
    if s.vals.ronly == 0 {
      WriterGivesUpKeeps(s, p, r, w, t.procs[p], t);
    } else {
      WriterTakeKeeps(s, p, r, w, t.procs[p], t);
    }
  }

  lemma WriterTalks(s: State, p: Pid, r: Option<Pid>, w: Option<Pid>, t: State)
    requires WriterAt(s, r, w, p, WOut) || WriterAt(s, r, w, p, WGive)
    requires WriterNext(s, p) == Some(t)
    ensures InvAt(t, r, w)
  {
    if s.procs[p].wpc == WOut {
      WriterOutKeeps(s, p, r, w, t.procs[p], t);
    } else {
      PostEffects(s.vals, s.procs[p].adj);
      WriterGiveKeeps(s, p, r, w, t.procs[p], t);
    }
  }

  lemma WriterStepKeeps(s: State, p: Pid, r: Option<Pid>, w: Option<Pid>, t: State)
    requires InvAt(s, r, w) && p in s.procs && s.procs[p].Writer? && WriterNext(s, p) == Some(t)
    ensures Inv(t)
  {
    match s.procs[p].wpc
    case WEnter => WriterPrepares(s, p, r, w, t);
    case WPair => WriterPrepares(s, p, r, w, t);
    case WBalance => WriterPrepares(s, p, r, w, t);
    case WTake => WriterTakes(s, p, r, w, t);
    case WOut => WriterTalks(s, p, r, w, t);
    case WGive => WriterTalks(s, p, r, w, t);
    case WLeave =>
    case WDead =>
  }

  lemma DeathKeeps(s: State, p: Pid, scrap: seq<Byte>, m: nat, k: nat, r: Option<Pid>, w: Option<Pid>, t: State)
    requires InvAt(s, r, w) && p in s.procs && Died(s, p, scrap, m, k) == Some(t)
    ensures Inv(t)
  {
    var q := s.procs[p];
    if ReaderHolds(q) {
      ReaderDeathKeeps(s, p, r, w, t.procs[p], t);
    } else if WriterHolds(q) {
      WriterDeathKeeps(s, p, if Prints(q) then k else 0, r, w, t.procs[p], t);
    } else {
      BystanderDeathKeeps(s, p, r, w, t.procs[p], t);
    }
  }

  /** Every action keeps the invariant. */
  lemma StepKeepsInv(s: State, a: Action, t: State)
    requires Inv(s) && Step(s, a, t)
    ensures Inv(t)
  {
    var r, w :| InvAt(s, r, w);
    match a
    case Arrive(p, who) => ArrivalKeeps(s, p, who, r, w, t);
    case Run(p, k) =>
      if s.procs[p].Reader? {
        ReaderStepKeeps(s, p, k, r, w, t);
      } else {
        WriterStepKeeps(s, p, r, w, t);
      }
    case Die(p, scrap, m, k) => DeathKeeps(s, p, scrap, m, k, r, w, t);
  }

  lemma {:induction false} RunKeepsInv(ss: seq<State>, acts: seq<Action>, i: nat)
    requires IsRun(ss, acts) && i < |ss|
    ensures Inv(ss[i])
  {
    if i == 0 {
      assert InvAt(ss[0], None, None);
    } else {
      RunKeepsInv(ss, acts, i - 1);
      StepKeepsInv(ss[i - 1], acts[i - 1], ss[i]);
    }
  }
}
