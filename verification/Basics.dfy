/** Octets, optional values and sums in unsigned machine arithmetic. */
module Basics {

  type byte = x: int | 0 <= x < 256

  datatype Option<+T> = None | Some(value: T)

  const UINT32: nat := 0x1_0000_0000
  const UINT64: nat := 0x1_0000_0000_0000_0000

  /** Adding a digit at its place in arithmetic modulo `m`: product and sum may both wrap. */
  function AddAt(value: nat, d: nat, place: nat, m: nat): nat
    requires m > 0
  {
    (value + d * place % m) % m
  }

  lemma SmallRemainder(x: nat, m: nat)
    requires x < m
    ensures x % m == x
  {
  }

  /** Neither wraps when the sum is small enough. */
  lemma AddWithoutWrap(value: nat, d: nat, place: nat, m: nat, total: nat)
    requires total == value + d * place && total < m
    ensures AddAt(value, d, place, m) == total
  {
    SmallRemainder(d * place, m);
    SmallRemainder(total, m);
  }

  lemma Commute(a: nat, b: nat)
    ensures a * b == b * a && a * b >= 0
  {
  }

  lemma ScaledBelow(x: nat, p: nat, q: nat)
    requires x < q
    ensures x * p + p <= q * p
  {
    assert (x + 1) * p <= q * p;
  }

  function Pow(b: nat, k: nat): (p: nat)
    requires b > 0
    ensures p > 0
  {
    if k == 0 then 1 else b * Pow(b, k - 1)
  }

  lemma {:induction false} PowMonotone(b: nat, j: nat, k: nat)
    requires b > 0 && j <= k
    ensures Pow(b, j) <= Pow(b, k)
  {
    if j < k {
      PowMonotone(b, j, k - 1);
    }
  }

  lemma {:induction false} PowSum(b: nat, j: nat, k: nat)
    requires b > 0
    ensures Pow(b, j + k) == Pow(b, j) * Pow(b, k)
  {
    if j > 0 {
      PowSum(b, j - 1, k);
    }
  }

  lemma Associative(a: seq<byte>, b: seq<byte>, c: seq<byte>)
    ensures a + (b + c) == a + b + c
  {
  }
}
