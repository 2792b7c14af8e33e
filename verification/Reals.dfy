/** Arithmetic over the reals that the numeric models share. */
module Reals {

  function Abs(x: real): real {
    if x < 0.0 then -x else x
  }

  /** x added up k times. */
  function Times(k: nat, x: real): real {
    if k == 0 then 0.0 else Times(k - 1, x) + x
  }

  lemma {:induction false} TimesIsProduct(k: nat, x: real)
    ensures Times(k, x) == k as real * x
  {
    if k > 0 {
      TimesIsProduct(k - 1, x);
      assert k as real == (k - 1) as real + 1.0;
      assert ((k - 1) as real + 1.0) * x == (k - 1) as real * x + x;
    }
  }

  lemma OneMore(i: nat, x: real)
    ensures (i + 1) as real * x == i as real * x + x
  {
    assert (i + 1) as real == i as real + 1.0;
  }

  lemma ProductOrder(x: real, y: real, d: real)
    requires x <= y && d >= 0.0
    ensures x * d <= y * d
  {
  }

  lemma ProductsCompare(x: real, y: real, d: real, p: real, q: real)
    requires d > 0.0 && p == x * d && q == y * d
    ensures p <= q <==> x <= y
  {
    assert q - p == (y - x) * d;
    if x <= y {
      assert (y - x) * d >= 0.0;
    } else {
      assert (x - y) * d > 0.0;
      assert p - q == (x - y) * d;
    }
  }

  lemma ProductSign(x: real, y: real)
    requires x >= 0.0 && y >= 0.0
    ensures x * y >= 0.0
  {
  }

  lemma FactorSign(x: real, n: real)
    requires n > 0.0 && x * n >= 0.0
    ensures x >= 0.0
  {
    ProductsCompare(0.0, x, n, 0.0, x * n);
  }
}
