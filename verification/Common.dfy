/**
  Definitions and arithmetic facts that several of the models share.
 */
module Common {
  type byte = x: int | 0 <= x < 256
  type u64 = x: int | 0 <= x < 0x1_0000_0000_0000_0000

  const TOP := 0x1_0000_0000_0000_0000

  datatype Option<+T> = None | Some(value: T)

  function Pow2(n: nat): (p: nat)
    ensures p > 0
  {
    if n == 0 then 1 else 2 * Pow2(n - 1)
  }

  function Pow256(n: nat): (p: nat)
    ensures p > 0
  {
    if n == 0 then 1 else 256 * Pow256(n - 1)
  }

  lemma Times(a: nat, b: nat, m: nat)
    requires a <= b
    ensures a * m <= b * m
  {}

  lemma Distribute(a: int, b: int, c: int)
    ensures (a + b) * c == a * c + b * c
  {}

  lemma SmallModulo(x: nat, n: nat)
    requires x < n
    ensures x % n == x
  {}

  /** Multiples of n are at least n apart. */
  lemma Ahead(n: nat, a: nat, b: nat)
    requires a < b
    ensures n * a + n <= n * b
  {
    Distribute(a, b - a, n);
    Times(1, b - a, n);
  }

  /** Quotient and remainder are unique. */
  lemma Remainder(x: nat, n: nat, q: nat, r: nat)
    requires r < n && x == n * q + r
    ensures x % n == r && x / n == q
  {
    var p, t := x / n, x % n;
    assert x == n * p + t;
    if p < q { Ahead(n, p, q); }
    if q < p { Ahead(n, q, p); }
  }
}
