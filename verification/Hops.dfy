/** Bytes on their way through a chain of stages. Stage 0 is the one nearest to the output; within
    a stage the oldest byte comes first. */
module Hops {
  import opened Common

  type Chain = seq<seq<Byte>>

  /** All bytes of the chain, oldest first. */
  function Flat(q: Chain): seq<Byte> {
    if q == [] then [] else q[0] + Flat(q[1..])
  }

  /** The oldest k bytes of stage j + 1 move on to stage j. */
  function Move(q: Chain, j: nat, k: nat): (r: Chain)
    requires j + 1 < |q| && k <= |q[j + 1]|
    ensures |r| == |q|
  {
    q[j := q[j] + q[j + 1][..k]][j + 1 := q[j + 1][k..]]
  }

  /** The oldest k bytes of stage 0 leave the chain. */
  function Emit(q: Chain, k: nat): (r: Chain)
    requires q != [] && k <= |q[0]|
    ensures |r| == |q|
  {
    q[0 := q[0][k..]]
  }

  /** The number of moves the bytes still have to make, with stage 0 at distance d from the output. */
  function Distance(q: Chain, d: nat): nat {
    if q == [] then 0 else d * |q[0]| + Distance(q[1..], d + 1)
  }

  lemma {:induction false} MoveKeepsFlat(q: Chain, j: nat, k: nat)
    requires j + 1 < |q| && k <= |q[j + 1]|
    ensures Flat(Move(q, j, k)) == Flat(q)
  {
    var r := Move(q, j, k);
    if j == 0 {
      var rest := q[2..];
      assert q[1..][1..] == rest && r[1..][1..] == rest;
      assert Flat(q) == q[0] + (q[1] + Flat(rest));
      assert Flat(r) == (q[0] + q[1][..k]) + (q[1][k..] + Flat(rest));
      assert q[1] == q[1][..k] + q[1][k..];
    } else {
      assert r[1..] == Move(q[1..], j - 1, k);
      MoveKeepsFlat(q[1..], j - 1, k);
    }
  }

  lemma EmitFlat(q: Chain, k: nat)
    requires q != [] && k <= |q[0]|
    ensures q[0][..k] + Flat(Emit(q, k)) == Flat(q)
  {
    var r := Emit(q, k);
    assert r[1..] == q[1..] && r[0] == q[0][k..];
    assert Flat(r) == q[0][k..] + Flat(q[1..]);
    assert q[0] == q[0][..k] + q[0][k..];
  }

  lemma {:induction false} MoveLowersDistance(q: Chain, j: nat, k: nat, d: nat)
    requires j + 1 < |q| && k <= |q[j + 1]|
    ensures Distance(Move(q, j, k), d) == Distance(q, d) - k
  {
    var r := Move(q, j, k);
    if j == 0 {
      var rest := q[2..];
      assert q[1..][1..] == rest && r[1..][1..] == rest;
      assert Distance(q, d) == d * |q[0]| + ((d + 1) * |q[1]| + Distance(rest, d + 2));
      assert Distance(r, d) == d * (|q[0]| + k) + ((d + 1) * (|q[1]| - k) + Distance(rest, d + 2));
      assert d * (|q[0]| + k) == d * |q[0]| + d * k;
      assert (d + 1) * (|q[1]| - k) == (d + 1) * |q[1]| - d * k - k;
    } else {
      assert r[1..] == Move(q[1..], j - 1, k);
      MoveLowersDistance(q[1..], j - 1, k, d + 1);
    }
  }

  lemma EmitLowersDistance(q: Chain, k: nat, d: nat)
    requires q != [] && k <= |q[0]|
    ensures Distance(Emit(q, k), d) == Distance(q, d) - d * k
  {
    assert Emit(q, k)[1..] == q[1..];
    assert d * (|q[0]| - k) == d * |q[0]| - d * k;
  }

  lemma {:induction false} FlatSplit(q: Chain, i: nat)
    requires i <= |q|
    ensures Flat(q) == Flat(q[..i]) + Flat(q[i..])
  {
    if i > 0 {
      FlatSplit(q[1..], i - 1);
      assert q[..i][1..] == q[1..][..i - 1] && q[i..] == q[1..][i - 1..];
    }
  }

  lemma {:induction false} AllEmpty(q: Chain)
    ensures (forall j :: 0 <= j < |q| ==> q[j] == []) <==> Flat(q) == []
  {
    if q != [] {
      AllEmpty(q[1..]);
      assert forall j :: 1 <= j < |q| ==> q[j] == q[1..][j - 1];
      if Flat(q) == [] {
        assert q[0] == [] && Flat(q[1..]) == [];
      }
    }
  }

  /** The first and the last stage together hold no more than the whole. */
  lemma FlatLength(q: Chain)
    requires |q| >= 2
    ensures |Flat(q)| >= |q[0]| + |q[|q| - 1]|
  {
    FlatSplit(q, |q| - 1);
    assert q[|q| - 1..] == [q[|q| - 1]];
    assert Flat([q[|q| - 1]]) == q[|q| - 1];
    assert q[..|q| - 1][0] == q[0];
  }

  lemma FlatLast(q: Chain)
    requires q != []
    ensures Flat(q) == Flat(q[..|q| - 1]) + q[|q| - 1]
  {
    FlatSplit(q, |q| - 1);
    assert q[|q| - 1..] == [q[|q| - 1]];
    assert Flat([q[|q| - 1]]) == q[|q| - 1] + [];
  }

  lemma {:induction false} DistanceOfLast(q: Chain, d: nat)
    requires q != [] && forall j :: 0 <= j < |q| - 1 ==> q[j] == []
    ensures Distance(q, d) == (d + |q| - 1) * |q[|q| - 1]|
  {
    if |q| == 1 {
      assert Distance(q[1..], d + 1) == 0;
    } else {
      assert q[1..][|q| - 2] == q[|q| - 1];
      forall j | 0 <= j < |q| - 2 ensures q[1..][j] == [] {
        assert q[1..][j] == q[j + 1];
      }
      DistanceOfLast(q[1..], d + 1);
    }
  }
}
