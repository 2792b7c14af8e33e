/** A char as the set of the numbers of its bits that are one, and what C's operators on chars do
    to that set. */
module CharBits {
  import opened Common

  type Bits = b: set<nat> | forall i :: i in b ==> i < 8

  /** (char) (1 << bit) */
  function Mask(bit: nat): Byte {
    match bit
    case 0 => 1
    case 1 => 2
    case 2 => 4
    case 3 => 8
    case 4 => 16
    case 5 => 32
    case 6 => 64
    case 7 => 128
    case _ => 0
  }

  /** 1 << k doubles with every k, and from 8 on nothing of it is left in a char. */
  lemma MaskDoubles(k: nat)
    ensures Mask(0) == 1 && (k >= 8 ==> Mask(k) == 0)
    ensures k < 7 ==> Mask(k + 1) == Mask(k) + Mask(k)
  {
  }

  function BitsOf(c: Byte): Bits {
    set i: nat | i < 8 && c & Mask(i) != 0
  }

  lemma SingleBit(c: Byte, d: Byte, m: Byte)
    requires m != 0 && m & (m - 1) == 0 && (c & m != 0 <==> d & m != 0)
    ensures c & m == d & m
  {
  }

  lemma BitAgrees(c: Byte, d: Byte, k: nat)
    requires k < 8 && BitsOf(c) == BitsOf(d)
    ensures c & Mask(k) == d & Mask(k)
  {
    assert k in BitsOf(c) <==> k in BitsOf(d);
    SingleBit(c, d, Mask(k));
  }

  lemma AllMasks(c: Byte)
    ensures c == (c & 1) | (c & 2) | (c & 4) | (c & 8) | (c & 16) | (c & 32) | (c & 64) | (c & 128)
  {
  }

  /** A char is its bits. */
  lemma BitsDetermine(c: Byte, d: Byte)
    requires BitsOf(c) == BitsOf(d)
    ensures c == d
  {
    BitAgrees(c, d, 0);
    BitAgrees(c, d, 1);
    BitAgrees(c, d, 2);
    BitAgrees(c, d, 3);
    BitAgrees(c, d, 4);
    BitAgrees(c, d, 5);
    BitAgrees(c, d, 6);
    BitAgrees(c, d, 7);
    AllMasks(c);
    AllMasks(d);
  }

  /** c & (1 << bit) tests a bit. */
  lemma AndTestsBit(c: Byte, bit: nat)
    ensures c & Mask(bit) != 0 <==> bit in BitsOf(c)
  {
  }

  lemma OrThenAnd(c: Byte, m: Byte, n: Byte)
    ensures (c | m) & n == (c & n) | (m & n)
    ensures (c & n) | (m & n) != 0 <==> c & n != 0 || m & n != 0
  {
  }

  lemma MasksApart(i: nat, k: nat)
    requires k < 8
    ensures Mask(i) & Mask(k) != 0 <==> i == k
  {
  }

  lemma OrAt(c: Byte, bit: nat, k: nat)
    requires k < 8
    ensures k in BitsOf(c | Mask(bit)) <==> k in BitsOf(c) || k == bit
  {
    AndTestsBit(c | Mask(bit), k);
    AndTestsBit(c, k);
    OrThenAnd(c, Mask(bit), Mask(k));
    MasksApart(bit, k);
  }

  /** c |= 1 << bit sets that bit and no other; from bit 8 on, nothing of it is left in a char. */
  lemma OrSetsBit(c: Byte, bit: nat)
    ensures BitsOf(c | Mask(bit)) == if bit < 8 then BitsOf(c) + {bit} else BitsOf(c)
  {
    var after, before := BitsOf(c | Mask(bit)), BitsOf(c);
    forall k: nat | k < 8 ensures k in after <==> k in before || k == bit {
      OrAt(c, bit, k);
    }
  }
}
