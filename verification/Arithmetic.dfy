/** The widths of Go's integers, and products as repeated sums. */
module Arithmetic {

  const TWO_64 := 0x1_0000_0000_0000_0000
  const TWO_63 := 0x8000_0000_0000_0000

  type Int64 = i: int | -TWO_63 <= i < TWO_63

  type UInt64 = n: int | 0 <= n < TWO_64

  /** Two's complement wrap-around. */
  function Wrap64(x: int): Int64 {
    (x + TWO_63) % TWO_64 - TWO_63
  }

  lemma SameRemainder(a: int, q: int)
    ensures (a - TWO_64 * q) % TWO_64 == a % TWO_64
  {
    assert a == TWO_64 * (a / TWO_64) + a % TWO_64;
    assert a - TWO_64 * q == TWO_64 * (a / TWO_64 - q) + a % TWO_64;
  }

  /** Wrapping before a doubling makes no difference after it. */
  lemma WrapDouble(x: int)
    ensures Wrap64(Wrap64(x) * 2) == Wrap64(x * 2)
  {
    var q := (x + TWO_63) / TWO_64;
    assert Wrap64(x) == x - TWO_64 * q;
    SameRemainder(x * 2 + TWO_63, 2 * q);
  }

  function Min(a: int, b: int): int {
    if a <= b then a else b
  }

  /** `n` times `k`. */
  function Times(n: nat, k: nat): nat {
    if n == 0 then 0 else k + Times(n - 1, k)
  }

  lemma {:induction false} TimesMonotone(n: nat, m: nat, k: nat)
    requires n <= m
    ensures Times(n, k) <= Times(m, k)
  {
    if n == 0 {
    } else {
      TimesMonotone(n - 1, m - 1, k);
    }
  }

  lemma {:induction false} TimesIsProduct(n: nat, k: nat)
    ensures Times(n, k) == n * k
  {
    if n == 0 {
    } else {
      TimesIsProduct(n - 1, k);
      assert n * k == (n - 1) * k + k;
    }
  }
}
