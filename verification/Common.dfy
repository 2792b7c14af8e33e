/** Vocabulary shared by the component models. */
module Common {

  datatype Option<+T> = None | Some(value: T)

  /** One octet of a file, a pipe or a shared buffer. */
  type Byte = bv8

  /** Capacity of the transfer buffers of the shared-memory and the pipeline programs. */
  const MAX := 100

  /** What several threads together still have to do. */
  function Work(todo: seq<nat>): nat {
    if todo == [] then 0 else Work(todo[..|todo| - 1]) + todo[|todo| - 1]
  }

  lemma {:induction false} WorkDrops(todo: seq<nat>, j: nat, k: nat)
    requires j < |todo| && k < todo[j]
    ensures Work(todo[j := k]) < Work(todo)
  {
    var n := |todo| - 1;
    if j == n {
      assert todo[j := k][..n] == todo[..n];
    } else {
      assert todo[j := k][..n] == todo[..n][j := k];
      WorkDrops(todo[..n], j, k);
    }
  }

  lemma MulOrder(a: int, b: int, d: nat)
    requires a <= b
    ensures a * d <= b * d
  {
  }

  /** What is left of x after q times d is the remainder, if it is one. */
  lemma ModOf(x: int, q: int, r: nat, d: nat)
    requires d >= 1 && r < d && x == q * d + r
    ensures x % d == r
  {
    var q', r' := x / d, x % d;
    assert x == q' * d + r';
    if q' < q {
      MulOrder(q' + 1, q, d);
    } else if q < q' {
      MulOrder(q + 1, q', d);
    }
  }
}
