/** Powers of two, and facts about division that the solver needs spelt out. */
module Arithmetic {

  const TWO_64: nat := 0x1_0000_0000_0000_0000

  function Pow2(n: nat): (p: nat)
    ensures p >= 1
  {
    if n == 0 then 1 else 2 * Pow2(n - 1)
  }

  /** The exponent of the largest power of two in `m`. */
  function Log2(m: nat): (e: nat)
    ensures m > 0 ==> Pow2(e) <= m < 2 * Pow2(e)
  {
    if m <= 1 then 0 else 1 + Log2(m / 2)
  }

  lemma Log2Half(m: nat)
    ensures Log2(m) == if m <= 1 then 0 else 1 + Log2(m / 2)
  {
  }

  lemma DivUnique(b: int, n: int, q: int, r: int)
    requires 0 <= r < b && n == b * q + r
    ensures n / b == q && n % b == r
  {
    var k := q - n / b;
    assert n == b * (n / b) + n % b;
    assert b * k == b * q - b * (n / b);
    assert k >= 1 ==> b * k >= b;
    assert k <= -1 ==> b * k + b <= 0;
  }

  lemma DivOfSum(b: int, q: int, x: int)
    requires b > 0
    ensures (b * q + x) / b == q + x / b && (b * q + x) % b == x % b
  {
    assert b * (q + x / b) == b * q + b * (x / b);
    DivUnique(b, b * q + x, q + x / b, x % b);
  }

  lemma Multiple(n: nat, k: int)
    ensures k >= 1 ==> n * k >= n
    ensures k <= 0 ==> n * k <= 0
  {
  }

  lemma RemaindersApart(i: nat, j: nat, n: nat)
    requires i < j < i + n
    ensures i % n != j % n
  {
    var k := j / n - i / n;
    Multiple(n, k);
    assert n * k == n * (j / n) - n * (i / n);
    assert i == n * (i / n) + i % n && j == n * (j / n) + j % n;
  }
}
