/** The parent's loop of transferSyncViaPIPELine, with the children running whenever they like. */
module PipelineRun {
  import opened Common
  import opened Hops
  import opened Pipeline

  class Relay {
    const n: nat
    const buffer: seq<Connection>
    var q: Chain             // the stages; stage 4(n - i) always equals what buffer i holds
    var output: seq<Byte>
    var delta: int
    var eof: bool
    ghost const file: seq<Byte>

    /** No two buffers share anything. */
    ghost predicate Distinct()
    {
      forall i, j :: 0 <= i < |buffer| && 0 <= j < |buffer| && i != j ==>
        buffer[i] != buffer[j] && buffer[i].data != buffer[j].data
    }

    /** The stage of buffer i shows what the buffer holds. */
    ghost predicate Mirrors(i: nat)
      requires i < |buffer| == n + 1 && |q| == 4 * n + 2
      reads this`q, buffer[i], buffer[i].data
    {
      buffer[i].Valid() && buffer[i].Slice() == q[4 * (n - i)]
    }

    ghost predicate Buffers()
      reads this`q, buffer, set c | c in buffer :: c.data
    {
      && n >= 1 && |buffer| == n + 1 && |q| == 4 * n + 2 && Distinct()
      && (forall i {:trigger Mirrors(i)} :: 0 <= i <= n ==> Mirrors(i))
      && buffer[0].size == MAX && buffer[n].size == MAX && buffer[0].begin == 0
    }

    ghost predicate Valid()
      reads this, buffer, set c | c in buffer :: c.data
    {
      && Buffers()
      && Plumbing(q, n)
      && output + Flat(q) == file
      && delta == InFlight(q, n)
      && (eof ==> q[4 * n + 1] == [])
    }

    /** What is left to do: the moves of all bytes, and finding the end of the file. */
    ghost function Todo(): nat
      reads this
    {
      Distance(q, 1) + if eof then 0 else 1
    }

    ghost predicate CanFill(i: nat)
      requires |buffer| == n + 1 && |q| == 4 * n + 2 && i <= n
      reads this, buffer
    {
      buffer[i].end != buffer[i].size && (if i == 0 then !eof else Readable(q, n, 4 * (n - i)))
    }

    ghost predicate CanDrain(i: nat)
      requires |buffer| == n + 1 && |q| == 4 * n + 2 && i <= n
      reads this, buffer
    {
      buffer[i].end != buffer[i].begin && Writable(q, 4 * (n - i))
    }

    /** n children, n + 1 empty buffers, nothing moved yet. */
    constructor (n: nat, file: seq<Byte>)
      requires n >= 1
      ensures Valid() && this.n == n && this.file == file && output == [] && delta == 0 && !eof
      ensures Todo() == (4 * n + 2) * |file| + 1
      ensures forall c :: c in buffer ==> fresh(c) && fresh(c.data)
    {
      var all := Allocate(n);
      this.n := n;
      this.file := file;
      buffer := all;
      q := StartChain(n, file);
      output := [];
      delta := 0;
      eof := false;
      new;
      StartIsFile(n, file);
      forall i | 0 <= i <= n ensures Mirrors(i) {
        assert buffer[i].Slice() == [];
      }
    }

    /** The children run as long as they like. */
    method Children()
      requires Valid()
      modifies this`q
      ensures Valid() && ChildrenRan(old(q), q, n)
      ensures forall j :: 0 <= j <= n ==> (old(CanFill(j)) ==> CanFill(j)) && (old(CanDrain(j)) ==> CanDrain(j))
    {
      var more: bool := *;
      while more
        invariant Valid() && ChildrenRan(old(q), q, n)
        decreases Distance(q, 1), more
      {
        var j: nat, k: nat := *, *;
        if ChildCan(q, n, j, k) {
          ChildStep(j, k);
          more := *;
        } else {
          more := false;
        }
      }
    }

    method ChildStep(j: nat, k: nat)
      requires Valid() && ChildCan(q, n, j, k)
      modifies this`q
      ensures Valid() && ChildrenRan(old(q), q, n) && Distance(q, 1) < old(Distance(q, 1))
    {
      ChildStepRuns(q, n, j, k);
      q := Move(q, j, k);
      forall i | 0 <= i <= n ensures Mirrors(i) {
        assert old(Mirrors(i));
        assert 4 * (n - i) % 4 == 0;
      }
    }

    /** The loop that fills the two descriptor sets. */
    method FdSets() returns (readfd: seq<bool>, writefd: seq<bool>)
      requires Valid()
      ensures Asked(readfd, writefd)
    {
      readfd, writefd := [], [];
      for i := 0 to n + 1
        invariant |readfd| == |writefd| == i
        invariant forall j :: 0 <= j < i ==> (readfd[j] <==> buffer[j].size != buffer[j].end)
        invariant forall j :: 0 <= j < i ==> (writefd[j] <==> buffer[j].end != buffer[j].begin)
      {
        readfd := readfd + [buffer[i].size != buffer[i].end];
        writefd := writefd + [buffer[i].end != buffer[i].begin];
      }
      if eof {
        readfd := readfd[0 := false];
      }
    }

    /** What the parent asks select for. */
    ghost predicate Asked(readfd: seq<bool>, writefd: seq<bool>)
      requires |buffer| == n + 1
      reads this, buffer
    {
      && |readfd| == |writefd| == n + 1
      && (forall i :: 0 <= i <= n ==> (readfd[i] <==> buffer[i].size != buffer[i].end && !(i == 0 && eof)))
      && (forall i :: 0 <= i <= n ==> (writefd[i] <==> buffer[i].end != buffer[i].begin))
    }

    /** select: waits for the children until a descriptor is ready, which always comes to pass. */
    method Select(readfd: seq<bool>, writefd: seq<bool>) returns (rd: seq<bool>, wr: seq<bool>)
      requires Valid() && Asked(readfd, writefd)
      requires delta > 0 || !eof
      modifies this`q
      ensures Valid() && ChildrenRan(old(q), q, n)
      ensures Answer(q, n, readfd, writefd, rd, wr)
    {
      while !Ready(q, n, readfd, writefd)
        invariant Valid() && ChildrenRan(old(q), q, n)
        decreases Distance(q, 1)
      {
        ReadyOrChild(readfd, writefd);
        var j: nat, k: nat :| ChildCan(q, n, j, k);
        ChildStep(j, k);
      }
      rd, wr := Pick(q, n, readfd, writefd);
    }

    /** While there is anything left to do, select has something to report or a child can step. */
    lemma ReadyOrChild(readfd: seq<bool>, writefd: seq<bool>)
      requires Valid() && Asked(readfd, writefd)
      requires delta > 0 || !eof
      ensures Ready(q, n, readfd, writefd) || exists j: nat, k: nat :: ChildCan(q, n, j, k)
    {
      FlatLast(q);
      if Flat(q[..4 * n + 1]) == [] {
        AllEmpty(q[..4 * n + 1]);
        assert q[4 * n] == q[..4 * n + 1][4 * n];
        assert Mirrors(0) && buffer[0].Slice() == [];
        assert ReadyAt(q, n, readfd, writefd, 0);
      } else {
        SomethingMoves(q, n);
        if b: nat :| ParentCan(q, n, b) {
          var i := n - b / 4;
          assert 4 * (n - i) == b;
          assert Mirrors(i) && buffer[i].Slice() == q[b];
          assert ReadyAt(q, n, readfd, writefd, i);
        }
      }
    }

    /** Buffer i and the stages next to it have changed, and nothing else has. */
    twostate lemma OthersMirror(i: nat)
      requires old(Buffers()) && i <= n && |q| == 4 * n + 2
      requires forall c: Connection :: c in buffer && c != buffer[i] ==> unchanged(c)
      requires forall c: Connection :: c in buffer && c.data != buffer[i].data ==> unchanged(c.data)
      requires forall j :: 0 <= j < 4 * n + 2 && j % 4 == 0 && j != 4 * (n - i) ==> q[j] == old(q)[j]
      requires Mirrors(i)
      ensures forall j {:trigger Mirrors(j)} :: 0 <= j <= n ==> Mirrors(j)
      ensures i != 0 ==> buffer[0].begin == old(buffer[0].begin)
    {
      if i != 0 {
        assert buffer[0] in buffer && buffer[0] != buffer[i];
      }
      forall j | 0 <= j <= n ensures Mirrors(j) {
        if j != i {
          assert old(Mirrors(j));
          assert buffer[j] in buffer && buffer[j] != buffer[i] && buffer[j].data != buffer[i].data;
          assert 4 * (n - j) % 4 == 0;
        }
      }
    }

    /** k bytes come into buffer i from the stage behind it. */
    method Receive(i: nat, k: nat)
      requires Buffers() && Plumbing(q, n) && i <= n
      requires k <= |q[4 * (n - i) + 1]| && buffer[i].end + k <= buffer[i].size
      modifies this`q, buffer[i], buffer[i].data
      ensures Buffers() && q == Move(old(q), 4 * (n - i), k)
      ensures buffer[i].begin == old(buffer[i].begin) && buffer[i].end == old(buffer[i].end) + k
    {
      assert Mirrors(i);
      buffer[i].Fill(q[4 * (n - i) + 1][..k]);
      q := Move(q, 4 * (n - i), k);
      OthersMirror(i);
    }

    /** k bytes leave buffer i, for the output or the pipe before it. */
    method Send(i: nat, k: nat) returns (sent: seq<Byte>)
      requires Buffers() && Plumbing(q, n) && i <= n && 0 < k <= buffer[i].end - buffer[i].begin
      requires i == 0 ==> k == buffer[0].end
      modifies this`q, buffer[i]
      ensures Buffers() && k <= |old(q)[4 * (n - i)]| && sent == old(q)[4 * (n - i)][..k]
      ensures q == if i == n then Emit(old(q), k) else Move(old(q), 4 * (n - i) - 1, k)
    {
      assert Mirrors(i);
      sent := buffer[i].Drain(k);
      q := if i == n then Emit(q, k) else Move(q, 4 * (n - i) - 1, k);
      OthersMirror(i);
    }

    /** read(buffer[0].fin, ...): the file gives all it is asked for, or all it has left. */
    method ReadFile()
      requires Valid() && CanFill(0)
      modifies this`q, this`delta, this`eof, buffer[0], buffer[0].data
      ensures Valid() && Todo() < old(Todo())
      ensures buffer[0].end >= old(buffer[0].end) && buffer[0].begin == old(buffer[0].begin)
      ensures forall j :: 0 <= j < 4 * n ==> q[j] == old(q)[j]
      ensures q[4 * n + 1] != [] ==> |q[4 * n]| == MAX
      ensures eof <==> old(q)[4 * n + 1] == []
    {
      assert Mirrors(0);
      var room: nat := buffer[0].size - buffer[0].end;
      var k: nat := if |q[4 * n + 1]| < room then |q[4 * n + 1]| else room;
      ReadKeeps(q, n, 4 * n, k);
      Receive(0, k);
      if k == 0 {
        eof := true;
      }
      delta := delta + k;
    }

    /** read(buffer[i].fin, ...) from the pipe out of child i - 1, which gives what it likes of what
        it holds */
    method ReadPipe(i: nat)
      requires Valid() && 0 < i <= n && CanFill(i)
      modifies this`q, buffer[i], buffer[i].data
      ensures Valid() && Todo() < old(Todo())
      ensures buffer[i].end >= old(buffer[i].end) && buffer[i].begin == old(buffer[i].begin)
      ensures forall j :: 0 <= j < 4 * n + 2 && j != 4 * (n - i) && j != 4 * (n - i) + 1 ==> q[j] == old(q)[j]
    {
      assert Mirrors(i);
      var room: nat := buffer[i].size - buffer[i].end;
      var most: nat := if |q[4 * (n - i) + 1]| < room then |q[4 * (n - i) + 1]| else room;
      var k: nat :| 1 <= k <= most;
      ReadKeeps(q, n, 4 * (n - i), k);
      Receive(i, k);
    }

    /** How much a write of buffer i takes: a pipe with room takes up to PIPE_BUF bytes whole, and
        some of anything longer; standard output takes what it likes. */
    method Accepted(i: nat) returns (k: nat)
      requires Valid() && i <= n && CanDrain(i)
      ensures 1 <= k <= buffer[i].end - buffer[i].begin
      ensures i < n ==> |q[4 * (n - i) - 1]| + k <= PIPE_CAP
      ensures i == 0 ==> k == buffer[0].end
    {
      assert Mirrors(i);
      k := buffer[i].end - buffer[i].begin;
      if i == n || k > PIPE_BUF {
        var most := if i == n || k <= PIPE_CAP - |q[4 * (n - i) - 1]| then k else PIPE_CAP - |q[4 * (n - i) - 1]|;
        k :| 1 <= k <= most;
      }
    }

    /** write(buffer[i].fout, ...) into the pipe to child i */
    method WritePipe(i: nat)
      requires Valid() && i < n && CanDrain(i)
      modifies this`q, buffer[i]
      ensures Valid() && Todo() < old(Todo())
      ensures forall j :: 0 <= j < 4 * n + 2 && j != 4 * (n - i) && j != 4 * (n - i) - 1 ==> q[j] == old(q)[j]
    {
      var k := Accepted(i);
      assert Mirrors(i);
      WriteKeeps(q, n, 4 * (n - i), k);
      var _ := Send(i, k);
    }

    /** write(buffer[n].fout, ...) to standard output */
    method WriteOutput()
      requires Valid() && CanDrain(n)
      modifies this`q, this`delta, this`output, buffer[n]
      ensures Valid() && Todo() < old(Todo())
      ensures forall j :: 0 < j < 4 * n + 2 ==> q[j] == old(q)[j]
      ensures delta >= old(delta) - MAX
    {
      var k := Accepted(n);
      assert Mirrors(n);
      EmitKeeps(q, n, k);
      var sent := Send(n, k);
      delta := delta - k;
      output := output + sent;
    }

    /** What select has reported for the buffers from i on still holds. */
    ghost predicate Pending(i: nat, rd: seq<bool>, wr: seq<bool>)
      requires |buffer| == n + 1 && |q| == 4 * n + 2 && |rd| == |wr| == n + 1
      reads this, buffer
    {
      forall j :: i <= j <= n ==> (rd[j] ==> CanFill(j)) && (wr[j] ==> CanDrain(j))
    }

    /** The first half of the loop body of the parent. */
    method ServeRead(i: nat, rd: seq<bool>, wr: seq<bool>)
      requires Valid() && |rd| == |wr| == n + 1 && i <= n && Pending(i, rd, wr)
      requires i == 0 ==> rd[0] || buffer[0].end == buffer[0].size || eof
      modifies this`q, this`delta, this`eof, buffer[i], buffer[i].data
      ensures Valid() && Todo() <= old(Todo()) && (rd[i] ==> Todo() < old(Todo()))
      ensures Pending(i + 1, rd, wr) && (wr[i] ==> CanDrain(i))
      ensures i == 0 && q[4 * n + 1] != [] ==> |q[4 * n]| == MAX
      ensures i != 0 ==> delta == old(delta) && q[4 * n + 1] == old(q)[4 * n + 1]
      ensures q[0] == old(q)[0] || i == n
    {
      Children();
      assert Mirrors(i);
      if rd[i] {
        if i == 0 {
          ReadFile();
        } else {
          ReadPipe(i);
        }
      }
    }

    /** The second half of the loop body of the parent. */
    method ServeWrite(i: nat, rd: seq<bool>, wr: seq<bool>)
      requires Valid() && |rd| == |wr| == n + 1 && i <= n && Pending(i + 1, rd, wr)
      requires wr[i] ==> CanDrain(i)
      modifies this`q, this`delta, this`output, buffer[i]
      ensures Valid() && Todo() <= old(Todo()) && (wr[i] ==> Todo() < old(Todo()))
      ensures Pending(i + 1, rd, wr) && eof == old(eof)
      ensures delta >= old(delta) - (if i == n && wr[n] then MAX else 0)
      ensures q[4 * n + 1] == old(q)[4 * n + 1] && (i < n ==> q[0] == old(q)[0])
    {
      Children();
      if wr[i] {
        if i < n {
          WritePipe(i);
        } else {
          WriteOutput();
        }
      }
    }

    /** Both halves for the first buffer: if the file is not exhausted, the buffer came to hold
        MAX bytes, and all of them are in flight beside what the last buffer holds. */
    method ServeFirst(rd: seq<bool>, wr: seq<bool>)
      requires Valid() && |rd| == |wr| == n + 1 && Pending(0, rd, wr)
      requires rd[0] || buffer[0].end == buffer[0].size || eof
      modifies this`q, this`delta, this`eof, this`output, buffer[0], buffer[0].data
      ensures Valid() && Todo() <= old(Todo()) && (rd[0] || wr[0] ==> Todo() < old(Todo()))
      ensures Pending(1, rd, wr)
      ensures q[4 * n + 1] != [] ==> delta >= MAX + |old(q)[0]|
    {
      ServeRead(0, rd, wr);
      FlatLast(q);
      FlatLength(q[..4 * n + 1]);
      ServeWrite(0, rd, wr);
    }

    /** The loop body for the other buffers. */
    method ServeRest(rd: seq<bool>, wr: seq<bool>)
      requires Valid() && |rd| == |wr| == n + 1 && Pending(1, rd, wr)
      requires q[4 * n + 1] != [] ==> delta >= MAX + (if wr[n] then 1 else 0)
      modifies this`q, this`delta, this`eof, this`output, buffer, set c | c in buffer :: c.data
      ensures Valid() && Todo() <= old(Todo())
      ensures (exists j :: 1 <= j <= n && (rd[j] || wr[j])) ==> Todo() < old(Todo())
      ensures q[4 * n + 1] != [] ==> delta >= 1
    {
      var i := 1;
      while i <= n
        invariant 1 <= i <= n + 1 && Valid() && Pending(i, rd, wr)
        invariant q[4 * n + 1] != [] ==> delta >= (if i <= n then MAX + (if wr[n] then 1 else 0) else 1)
        invariant Todo() <= old(Todo())
        invariant (exists j :: 1 <= j < i && (rd[j] || wr[j])) ==> Todo() < old(Todo())
      {
        ServeRead(i, rd, wr);
        ServeWrite(i, rd, wr);
        i := i + 1;
      }
    }

    /** One pass of the parent's loop. If it ends with delta zero, the file is exhausted: with
        bytes of the file left, MAX bytes came to stand in the first buffer beside at least one in
        the last, and the last buffer alone, of capacity MAX, cannot have carried all that out. */
    method Iteration()
      requires Valid() && (delta > 0 || !eof)
      modifies this`q, this`delta, this`eof, this`output, buffer, set c | c in buffer :: c.data
      ensures Valid() && Todo() < old(Todo())
      ensures delta == 0 ==> q[4 * n + 1] == []
    {
      var readfd, writefd := FdSets();
      var rd, wr := Select(readfd, writefd);
      assert wr[n] ==> |q[0]| >= 1 by { assert Mirrors(n); }
      ServeFirst(rd, wr);
      ServeRest(rd, wr);
    }

    /** The parent's main loop, for every file, every answer of select, every partial transfer and
        every pace of the children: it stops, and then the output is the whole file. */
    method Run() returns (passes: nat)
      requires Valid() && delta == 0 && !eof
      modifies this`q, this`delta, this`eof, this`output, buffer, set c | c in buffer :: c.data
      ensures output == file && passes <= old(Todo())
    {
      Iteration();
      passes := 1;
      while delta != 0
        invariant Valid() && (delta == 0 ==> q[4 * n + 1] == [])
        invariant passes + Todo() <= old(Todo())
        decreases Todo()
      {
        FlatLast(q);
        Iteration();
        passes := passes + 1;
      }
      FlatLast(q);
    }
  }

  /** The program: allocate, then pump. Every byte makes 4n + 2 moves, and every pass makes at
      least one move or finds the end of the file. */
  method Transfer(n: nat, file: seq<Byte>) returns (output: seq<Byte>, passes: nat)
    requires n >= 1
    ensures output == file && passes <= (4 * n + 2) * |file| + 1
  {
    var relay := new Relay(n, file);
    passes := relay.Run();
    output := relay.output;
  }
}
