/** transferSyncViaPIPELine: a parent with n + 1 buffers pumps a file through n child relays and
    2n pipes under select, and stops when `delta` is zero. */
module Pipeline {
  import opened Common
  import opened Hops

  const KILO := 1024
  const PIPE_BUF := 4096     // writes of at most this many bytes are atomic
  const PIPE_CAP := 65536    // what a pipe holds

  // Buffer sizes.

  function Pow3(k: nat): nat {
    if k == 0 then 1 else 3 * Pow3(k - 1)
  }

  lemma {:induction false} Pow3Grows(j: nat, k: nat)
    requires j <= k
    ensures 1 <= Pow3(j) <= Pow3(k)
  {
    if k == 0 {
    } else if j == k {
      Pow3Grows(j - 1, k - 1);
    } else {
      Pow3Grows(j, k - 1);
    }
  }

  /** What buffer i of n + 1 holds, if it is neither the first nor the last. */
  function Capacity(n: int, i: int): nat {
    var hops := if n - i - 1 > 0 then n - i - 1 else 0;
    KILO * (if Pow3(hops) <= 128 then Pow3(hops) else 128)
  }

  /** From one kilobyte at the output, each buffer holds three times what the next one holds, up to
      128 kilobytes. */
  lemma CapacityTriples(n: int, i: int)
    ensures i >= n - 1 ==> Capacity(n, i) == 1024
    ensures i < n - 1 && 3 * Capacity(n, i + 1) <= 131072 ==> Capacity(n, i) == 3 * Capacity(n, i + 1)
    ensures i < n - 1 && 3 * Capacity(n, i + 1) > 131072 ==> Capacity(n, i) == 131072
  {
    if i < n - 1 {
      assert Pow3(n - i - 1) == 3 * Pow3(n - i - 2);
    }
  }

  /** The capacity of buffer i: three times that of buffer i + 1, from one kilobyte up, and never
      more than 128 kilobytes. The loop gives up as soon as the bound is passed. */
  method Size(n: int, i: int) returns (r: nat)
    ensures r == Capacity(n, i) && KILO <= r <= 128 * KILO
  {
    var k := n - i - 1;
    ghost var hops: nat := if n - i - 1 > 0 then n - i - 1 else 0;
    var s := 1;
    Pow3Grows(0, hops);
    while k > 0
      invariant k <= hops && (k < 0 ==> hops == 0) && (k <= 0 || hops == n - i - 1)
      invariant s == Pow3(hops - (if k > 0 then k else 0)) && s <= 128
    {
      s := s * 3;
      k := k - 1;
      if s > 128 {
        break;
      }
    }
    Pow3Grows(hops - (if k > 0 then k else 0), hops);
    if s > 128 {
      return 128 * KILO;
    }
    return s * KILO;
  }

  // One buffer of the parent.

  class Connection {
    const data: array<Byte>
    const size: nat
    var begin: nat
    var end: nat

    ghost predicate Valid()
      reads this
    {
      && data.Length == size > 0
      && begin <= end <= size
      && (begin == end ==> begin == 0)
    }

    /** The bytes the buffer holds. */
    ghost function Slice(): (s: seq<Byte>)
      requires Valid()
      reads this, data
      ensures |s| == end - begin
    {
      data[begin..end]
    }

    constructor (size: nat)
      requires size > 0
      ensures Valid() && fresh(data) && this.size == size && begin == 0 && end == 0
    {
      data := new Byte[size](_ => 0);
      this.size := size;
      begin := 0;
      end := 0;
    }

    /** read into data + end */
    method Fill(src: seq<Byte>)
      requires Valid() && end + |src| <= size
      modifies this`end, data
      ensures Valid() && Slice() == old(Slice()) + src && end == old(end) + |src|
    {
      ghost var before := Slice();
      forall i | 0 <= i < |src| {
        data[end + i] := src[i];
      }
      end := end + |src|;
      assert data[begin..end] == before + src;
    }

    /** write of k bytes from data + begin; an emptied buffer starts again at the front */
    method Drain(k: nat) returns (sent: seq<Byte>)
      requires Valid() && 0 < k <= end - begin
      modifies this`begin, this`end
      ensures Valid() && sent == old(Slice())[..k] && Slice() == old(Slice())[k..]
      ensures k < old(end - begin) ==> begin == old(begin) + k && end == old(end)
      ensures k == old(end - begin) ==> begin == 0 && end == 0
    {
      ghost var before := Slice();
      sent := data[begin..begin + k];
      begin := begin + k;
      assert before[..k] == sent && before[k..] == data[begin..end];
      if begin == end {
        begin := 0;
        end := 0;
      }
    }
  }

  // The whole pipeline as a chain of stages: 4(n - i) is buffer i of the parent, the three stages
  // behind it up to buffer i - 1 are the pipe out of child i - 1, what that child holds, and the
  // pipe into it, and stage 4n + 1 is the rest of the file.

  /** Child steps: a read of what it can get when it holds nothing, a whole write when there is room. */
  predicate ChildCan(q: Chain, n: nat, j: nat, k: nat) {
    && j < 4 * n && j + 1 < |q| && 0 < k <= |q[j + 1]|
    && ((j % 4 == 2 && q[j] == [] && k <= MAX) ||
        (j % 4 == 1 && k == |q[j + 1]| && |q[j]| + k <= PIPE_CAP))
  }

  /** read on fin of the buffer at stage b would return something. */
  predicate Readable(q: Chain, n: nat, b: nat)
    requires |q| == 4 * n + 2 && b <= 4 * n
  {
    b == 4 * n || q[b + 1] != []
  }

  /** write on fout of the buffer at stage b would take something. Standard output always might. */
  predicate Writable(q: Chain, b: nat)
    requires b < |q|
  {
    b == 0 || |q[b - 1]| + PIPE_BUF <= PIPE_CAP
  }

  /** What the kernel and the children keep. */
  predicate Plumbing(q: Chain, n: nat) {
    && |q| == 4 * n + 2
    && forall j :: 0 <= j < 4 * n ==>
         (j % 4 == 2 ==> |q[j]| <= MAX) && (j % 4 == 1 || j % 4 == 3 ==> |q[j]| <= PIPE_CAP)
  }

  /** What the parent may see change while the children run from q to r. */
  ghost predicate ChildrenRan(q: Chain, r: Chain, n: nat)
  {
    && |q| == |r| == 4 * n + 2
    && Flat(r) == Flat(q) && Distance(r, 1) <= Distance(q, 1)
    && r[4 * n + 1] == q[4 * n + 1]
    && forall j :: 0 <= j <= 4 * n ==>
         (j % 4 == 0 ==> r[j] == q[j]) && (j % 4 == 1 ==> |q[j]| <= |r[j]|) && (j % 4 == 3 ==> |r[j]| <= |q[j]|)
  }

  lemma ChildStepRuns(q: Chain, n: nat, j: nat, k: nat)
    requires Plumbing(q, n) && ChildCan(q, n, j, k)
    ensures Plumbing(Move(q, j, k), n) && ChildrenRan(q, Move(q, j, k), n)
    ensures Distance(Move(q, j, k), 1) < Distance(q, 1)
  {
    MoveKeepsFlat(q, j, k);
    MoveLowersDistance(q, j, k, 1);
  }

  lemma {:induction false} FirstNonEmpty(q: Chain) returns (s: nat)
    requires Flat(q) != []
    ensures s < |q| && q[s] != [] && forall j :: 0 <= j < s ==> q[j] == []
  {
    if q[0] != [] {
      s := 0;
    } else {
      var s' := FirstNonEmpty(q[1..]);
      s := s' + 1;
      forall j | 0 <= j < s ensures q[j] == [] {
        assert j > 0 ==> q[1..][j - 1] == q[j];
      }
    }
  }

  /** A buffer the parent can drain, or fill from behind. */
  ghost predicate ParentCan(q: Chain, n: nat, b: nat)
    requires |q| == 4 * n + 2
  {
    b <= 4 * n && b % 4 == 0 &&
    ((q[b] != [] && Writable(q, b)) || (b < 4 * n && q[b] == [] && Readable(q, n, b)))
  }

  /** The pipeline never jams: as long as bytes are between the file and the output, the stage
      with bytes nearest to the output can pass some on. It is a buffer with room before it, a
      pipe before an empty buffer, or the business of a child. */
  lemma SomethingMoves(q: Chain, n: nat)
    requires Plumbing(q, n) && Flat(q[..4 * n + 1]) != []
    ensures (exists j, k :: ChildCan(q, n, j, k)) || (exists b :: ParentCan(q, n, b))
  {
    var s := FirstNonEmpty(q[..4 * n + 1]);
    assert q[s] == q[..4 * n + 1][s];
    if s > 0 {
      assert q[s - 1] == q[..4 * n + 1][s - 1] == [];
    }
    match s % 4
    case 0 => assert ParentCan(q, n, s);
    case 1 =>
      assert (s - 1) % 4 == 0;
      assert ParentCan(q, n, s - 1);
    case 2 =>
      assert (s - 1) % 4 == 1;
      assert ChildCan(q, n, s - 1, |q[s]|);
    case 3 =>
      assert (s - 1) % 4 == 2;
      assert ChildCan(q, n, s - 1, 1);
  }

  /** Some descriptor asked for is ready. */
  predicate Ready(q: Chain, n: nat, readfd: seq<bool>, writefd: seq<bool>)
    requires |readfd| == |writefd| == n + 1 && |q| == 4 * n + 2
  {
    exists i :: 0 <= i <= n && ReadyAt(q, n, readfd, writefd, i)
  }

  predicate ReadyAt(q: Chain, n: nat, readfd: seq<bool>, writefd: seq<bool>, i: nat)
    requires |readfd| == |writefd| == n + 1 && |q| == 4 * n + 2 && i <= n
  {
    (readfd[i] && Readable(q, n, 4 * (n - i))) || (writefd[i] && Writable(q, 4 * (n - i)))
  }

  /** An answer of select: some ready descriptors of those asked for, at least one, and always
      the input file if asked for. */
  predicate Answer(q: Chain, n: nat, readfd: seq<bool>, writefd: seq<bool>, rd: seq<bool>, wr: seq<bool>)
    requires |readfd| == |writefd| == n + 1 && |q| == 4 * n + 2
  {
    && |rd| == |wr| == n + 1
    && (forall i :: 0 <= i <= n ==> (rd[i] ==> readfd[i] && Readable(q, n, 4 * (n - i))))
    && (forall i :: 0 <= i <= n ==> (wr[i] ==> writefd[i] && Writable(q, 4 * (n - i))))
    && (readfd[0] ==> rd[0])
    && (exists i :: 0 <= i <= n && (rd[i] || wr[i]))
  }

  /** Any answer at all. */
  method Pick(q: Chain, n: nat, readfd: seq<bool>, writefd: seq<bool>) returns (rd: seq<bool>, wr: seq<bool>)
    requires |readfd| == |writefd| == n + 1 && |q| == 4 * n + 2
    requires Ready(q, n, readfd, writefd)
    ensures Answer(q, n, readfd, writefd, rd, wr)
  {
    var rd0 := seq(n + 1, i requires 0 <= i <= n => readfd[i] && Readable(q, n, 4 * (n - i)));
    var wr0 := seq(n + 1, i requires 0 <= i <= n => writefd[i] && Writable(q, 4 * (n - i)));
    var i :| 0 <= i <= n && ReadyAt(q, n, readfd, writefd, i);
    assert rd0[i] || wr0[i];
    assert Answer(q, n, readfd, writefd, rd0, wr0);
    rd, wr :| Answer(q, n, readfd, writefd, rd, wr);
  }

  /** The chain before the first read. */
  function StartChain(n: nat, file: seq<Byte>): (q: Chain)
    ensures |q| == 4 * n + 2
  {
    seq(4 * n + 2, j => if j == 4 * n + 1 then file else [])
  }

  lemma StartIsFile(n: nat, file: seq<Byte>)
    ensures Flat(StartChain(n, file)) == file && Plumbing(StartChain(n, file), n)
    ensures Distance(StartChain(n, file), 1) == (4 * n + 2) * |file|
  {
    DistanceOfLast(StartChain(n, file), 1);
    var q := StartChain(n, file);
    FlatLast(q);
    AllEmpty(q[..4 * n + 1]);
  }

  /** The buffers of the parent: the first and the last have room for MAX bytes. */
  method Allocate(n: nat) returns (all: seq<Connection>)
    requires n >= 1
    ensures |all| == n + 1
    ensures forall j :: 0 <= j <= n ==> fresh(all[j]) && fresh(all[j].data)
    ensures forall j :: 0 <= j <= n ==> all[j].Valid() && all[j].begin == 0 && all[j].end == 0
    ensures forall j :: 0 <= j <= n ==> all[j].size == if j == 0 || j == n then MAX else Capacity(n, j)
    ensures forall j, k :: 0 <= j < k <= n ==> all[j] != all[k] && all[j].data != all[k].data
  {
    all := [];
    var i := 0;
    while i <= n
      invariant 0 <= i <= n + 1 && |all| == i
      invariant forall j :: 0 <= j < i ==> fresh(all[j]) && fresh(all[j].data)
      invariant forall j :: 0 <= j < i ==> all[j].Valid() && all[j].begin == 0 && all[j].end == 0
      invariant forall j :: 0 <= j < i ==> all[j].size == if j == 0 || j == n then MAX else Capacity(n, j)
      invariant forall j, k :: 0 <= j < k < i ==> all[j] != all[k] && all[j].data != all[k].data
    {
      var size := MAX;
      if 0 < i < n {
        size := Size(n, i);
      }
      var c := new Connection(size);
      all := all + [c];
      i := i + 1;
    }
  }

  function InFlight(q: Chain, n: nat): int
    requires |q| == 4 * n + 2
  {
    |Flat(q)| - |q[4 * n + 1]|
  }

  /** The parent reads k bytes into the buffer at stage b. */
  lemma ReadKeeps(q: Chain, n: nat, b: nat, k: nat)
    requires Plumbing(q, n) && b <= 4 * n && b % 4 == 0 && k <= |q[b + 1]|
    ensures var r := Move(q, b, k);
            && Plumbing(r, n) && Flat(r) == Flat(q) && Distance(r, 1) == Distance(q, 1) - k
            && InFlight(r, n) == InFlight(q, n) + (if b == 4 * n then k else 0)
            && r[b] == q[b] + q[b + 1][..k]
            && forall j :: 0 <= j < 4 * n + 2 && j != b && j != b + 1 ==> r[j] == q[j]
  {
    MoveKeepsFlat(q, b, k);
    MoveLowersDistance(q, b, k, 1);
  }

  /** The parent writes k bytes from the buffer at stage b into the pipe before it. */
  lemma WriteKeeps(q: Chain, n: nat, b: nat, k: nat)
    requires Plumbing(q, n) && 0 < b <= 4 * n && b % 4 == 0 && k <= |q[b]| && |q[b - 1]| + k <= PIPE_CAP
    ensures var r := Move(q, b - 1, k);
            && Plumbing(r, n) && Flat(r) == Flat(q) && Distance(r, 1) == Distance(q, 1) - k
            && InFlight(r, n) == InFlight(q, n)
            && r[b] == q[b][k..]
            && forall j :: 0 <= j < 4 * n + 2 && j != b && j != b - 1 ==> r[j] == q[j]
  {
    MoveKeepsFlat(q, b - 1, k);
    MoveLowersDistance(q, b - 1, k, 1);
  }

  /** The parent writes k bytes from its last buffer to standard output. */
  lemma EmitKeeps(q: Chain, n: nat, k: nat)
    requires Plumbing(q, n) && k <= |q[0]|
    ensures var r := Emit(q, k);
            && Plumbing(r, n) && q[0][..k] + Flat(r) == Flat(q) && Distance(r, 1) == Distance(q, 1) - k
            && InFlight(r, n) == InFlight(q, n) - k
            && r[0] == q[0][k..]
            && forall j :: 0 < j < 4 * n + 2 ==> r[j] == q[j]
  {
    EmitFlat(q, k);
    EmitLowersDistance(q, k, 1);
    assert |q[0][..k] + Flat(Emit(q, k))| == k + |Flat(Emit(q, k))|;
  }
}
