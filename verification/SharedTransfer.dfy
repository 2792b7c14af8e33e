/** transferViaSharedMemory: any number of reader processes (which read a file into the shared
    buffer) and writer processes (which print the buffer) meet over six semaphores.
    A step is one system call of one process, the arrival of a process, or its death. */
module SharedTransfer {
  import opened Common
  import opened Semaphores

  type Pid = nat

  /** Where a reader is: the name says what its next statement does. */
  datatype RPc =
    | REnter    // take the reader slot (waits for it, and for the last writer to leave)
    | RClear    // attach and zero the shared buffer
    | RPair     // wait for a writer, mark itself working
    | ROpen     // open the file
    | RBalance  // record the READ/WRITE adjustments
    | RFirst    // first read into the buffer
    | RPost     // READ + 1
    | RAwait    // WRITE - 1 while a writer lives
    | RNext     // next read into the buffer
    | RLeave    // out of the loop, about to exit
    | RDead

  datatype WPc =
    | WEnter    // take the writer slot
    | WPair     // wait for a reader, mark itself working
    | WBalance  // record the READ/WRITE adjustments
    | WTake     // READ - 1 while a reader lives
    | WOut      // write the buffer to standard output
    | WGive     // WRITE + 1
    | WLeave
    | WDead

  /** A process. `adj` is its undo table. `mate` and `eof` are history variables no step tests:
      the process that held the opposite slot when this one marked itself working, and whether
      a reader left its loop because it read nothing. Dead processes are kept. */
  datatype Proc =
    | Reader(rpc: RPc, adj: Six, mate: Option<Pid>, file: seq<Byte>, pos: nat, eof: bool)
    | Writer(wpc: WPc, adj: Six, mate: Option<Pid>, out: seq<Byte>)

  /** `data` and `size` are the shared memory segment. */
  datatype State = State(vals: Six, procs: map<Pid, Proc>, data: seq<Byte>, size: nat)

  datatype Action =
    | Arrive(p: Pid, who: Proc)
    | Run(p: Pid, k: nat)                                        // k: what read() returns
    | Die(p: Pid, scrap: seq<Byte>, scrapSize: nat, k: nat)      // see Died

  ghost predicate Init(s: State) {
    s.vals == ZERO && s.procs == map[] && |s.data| == MAX && s.size <= MAX
  }

  // Who holds the slots.

  predicate ReaderHolds(q: Proc) {
    q.Reader? && q.rpc != REnter && q.rpc != RDead
  }

  predicate WriterHolds(q: Proc) {
    q.Writer? && q.wpc != WEnter && q.wpc != WDead
  }

  /** Past the semop that adds to RWORK, and still alive. */
  predicate ReaderWorks(q: Proc) {
    ReaderHolds(q) && q.rpc != RClear && q.rpc != RPair
  }

  predicate WriterWorks(q: Proc) {
    WriterHolds(q) && q.wpc != WPair
  }

  ghost function WriterHolder(s: State): Option<Pid> {
    if p :| p in s.procs && WriterHolds(s.procs[p]) then Some(p) else None
  }

  ghost function ReaderHolder(s: State): Option<Pid> {
    if p :| p in s.procs && ReaderHolds(s.procs[p]) then Some(p) else None
  }

  /** `read(fd, d->data, MAX)` returning k: nothing only at the end of the file. */
  predicate CanRead(q: Proc, k: nat)
    requires q.Reader?
  {
    q.pos + k <= |q.file| && k <= MAX && (k == 0 <==> q.pos == |q.file|)
  }

  function Filled(data: seq<Byte>, q: Proc, k: nat): seq<Byte>
    requires q.Reader? && CanRead(q, k) && |data| == MAX
  {
    q.file[q.pos..q.pos + k] + data[k..]
  }

  /** The next state when reader p makes its next call; None while the call waits. */
  ghost function ReaderNext(s: State, p: Pid, k: nat): Option<State>
    requires p in s.procs && s.procs[p].Reader? && |s.data| == MAX
  {
    var q := s.procs[p];
    match q.rpc
    case REnter =>
      (match Semop(READER_ENTER, s.vals, q.adj)
       case Done(v, a) => Some(s.(vals := v, procs := s.procs[p := q.(rpc := RClear, adj := a)]))
       case _ => None)
    case RClear =>
      Some(s.(data := seq(MAX, i => 0), size := 0, procs := s.procs[p := q.(rpc := RPair)]))
    case RPair =>
      (match Semop(READER_PAIR, s.vals, q.adj)
       case Done(v, a) =>
         Some(s.(vals := v, procs := s.procs[p := q.(rpc := ROpen, adj := a, mate := WriterHolder(s))]))
       case _ => None)
    case ROpen =>
      Some(s.(procs := s.procs[p := q.(rpc := RBalance)]))
    case RBalance =>
      (match Semop(BALANCE, s.vals, q.adj)
       case Done(v, a) => Some(s.(vals := v, procs := s.procs[p := q.(rpc := RFirst, adj := a)]))
       case _ => None)
    case RFirst =>
      if !CanRead(q, k) then None else
      Some(s.(data := Filled(s.data, q, k), size := k,
              procs := s.procs[p := q.(rpc := RPost, pos := q.pos + k)]))
    case RPost =>
      (match Semop(READER_POST, s.vals, q.adj)
       case Done(v, a) => Some(s.(vals := v, procs := s.procs[p := q.(rpc := RAwait, adj := a)]))
       case _ => None)
    case RAwait =>
      (match Semop(READER_AWAIT, s.vals, q.adj)
       case Done(v, a) => Some(s.(vals := v, procs := s.procs[p := q.(rpc := RNext, adj := a)]))
       case Again => Some(s.(procs := s.procs[p := q.(rpc := RLeave)]))
       case Blocks => None)
    case RNext =>
      if !CanRead(q, k) then None else
      Some(s.(data := Filled(s.data, q, k), size := k,
              procs := s.procs[p := if k != 0 then q.(rpc := RPost, pos := q.pos + k)
                                              else q.(rpc := RLeave, eof := true)]))
    case RLeave => None
    case RDead => None
  }

  /** The next state when writer p makes its next call; None while the call waits. */
  ghost function WriterNext(s: State, p: Pid): Option<State>
    requires p in s.procs && s.procs[p].Writer? && s.size <= |s.data|
  {
    var q := s.procs[p];
    match q.wpc
    case WEnter =>
      (match Semop(WRITER_ENTER, s.vals, q.adj)
       case Done(v, a) => Some(s.(vals := v, procs := s.procs[p := q.(wpc := WPair, adj := a)]))
       case _ => None)
    case WPair =>
      (match Semop(WRITER_PAIR, s.vals, q.adj)
       case Done(v, a) =>
         Some(s.(vals := v, procs := s.procs[p := q.(wpc := WBalance, adj := a, mate := ReaderHolder(s))]))
       case _ => None)
    case WBalance =>
      (match Semop(BALANCE, s.vals, q.adj)
       case Done(v, a) => Some(s.(vals := v, procs := s.procs[p := q.(wpc := WTake, adj := a)]))
       case _ => None)
    case WTake =>
      (match Semop(WRITER_TAKE, s.vals, q.adj)
       case Done(v, a) => Some(s.(vals := v, procs := s.procs[p := q.(wpc := WOut, adj := a)]))
       case Again => Some(s.(procs := s.procs[p := q.(wpc := WLeave)]))
       case Blocks => None)
    case WOut =>
      Some(s.(procs := s.procs[p := q.(wpc := WGive, out := q.out + s.data[..s.size])]))
    case WGive =>
      (match Semop(WRITER_GIVE, s.vals, q.adj)
       case Done(v, a) => Some(s.(vals := v, procs := s.procs[p := q.(wpc := WTake, adj := a)]))
       case _ => None)
    case WLeave => None
    case WDead => None
  }

  /** The statements during which a reader is writing the shared segment. */
  predicate Fills(q: Proc) {
    q.Reader? && (q.rpc == RClear || q.rpc == RFirst || q.rpc == RNext)
  }

  predicate Alive(q: Proc) {
    if q.Reader? then q.rpc != RDead else q.wpc != WDead
  }

  /** Process p is gone: by a signal at any statement, by exit(1), or by returning from main.
      Its adjustments are applied. A reader that dies while it fills the segment leaves anything
      there; a writer that dies while it prints has printed some first part of the buffer. */
  function Died(s: State, p: Pid, scrap: seq<Byte>, scrapSize: nat, k: nat): Option<State>
    requires p in s.procs && s.size <= |s.data|
  {
    var q := s.procs[p];
    if !Alive(q) then None
    else if Fills(q) then
      if |scrap| != MAX || scrapSize > MAX then None else
      Some(State(AtExit(s.vals, q.adj), s.procs[p := q.(rpc := RDead, adj := ZERO)], scrap, scrapSize))
    else if q.Reader? then
      Some(s.(vals := AtExit(s.vals, q.adj), procs := s.procs[p := q.(rpc := RDead, adj := ZERO)]))
    else if q.wpc == WOut then
      if k > s.size then None else
      Some(s.(vals := AtExit(s.vals, q.adj),
              procs := s.procs[p := q.(wpc := WDead, adj := ZERO, out := q.out + s.data[..k])]))
    else
      Some(s.(vals := AtExit(s.vals, q.adj), procs := s.procs[p := q.(wpc := WDead, adj := ZERO)]))
  }

  predicate Newcomer(q: Proc) {
    match q
    case Reader(rpc, adj, mate, file, pos, eof) => rpc == REnter && adj == ZERO && mate == None && pos == 0 && !eof
    case Writer(wpc, adj, mate, out) => wpc == WEnter && adj == ZERO && mate == None && out == []
  }

  /** The outcome of an action; None when it cannot happen in s. */
  ghost function Next(s: State, a: Action): Option<State>
    requires s.size <= |s.data| == MAX
  {
    match a
    case Arrive(p, who) =>
      if p in s.procs || !Newcomer(who) then None else Some(s.(procs := s.procs[p := who]))
    case Run(p, k) =>
      if p !in s.procs then None
      else if s.procs[p].Reader? then ReaderNext(s, p, k) else WriterNext(s, p)
    case Die(p, scrap, scrapSize, k) =>
      if p !in s.procs then None else Died(s, p, scrap, scrapSize, k)
  }

  ghost predicate Step(s: State, a: Action, t: State) {
    s.size <= |s.data| == MAX && Next(s, a) == Some(t)
  }

  /** A run: states joined by actions, from an unused semaphore set. */
  ghost predicate IsRun(ss: seq<State>, acts: seq<Action>) {
    && |ss| == |acts| + 1
    && Init(ss[0])
    && forall i :: 0 <= i < |acts| ==> Step(ss[i], acts[i], ss[i + 1])
  }

  ghost predicate Reachable(s: State) {
    exists ss, acts :: IsRun(ss, acts) && ss[|acts|] == s
  }
}
