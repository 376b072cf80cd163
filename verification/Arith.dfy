/** Division facts that the other modules share. */
module Arith {

  const U32 := 0x1_0000_0000
  const U64 := 0x1_0000_0000_0000_0000

  function Pow2(k: nat): nat {
    if k == 0 then 1 else 2 * Pow2(k - 1)
  }

  lemma MulLess(a: int, b: int, n: nat)
    ensures a <= b ==> a * n <= b * n
  {
  }

  /** Distinct multiples of n are n apart. */
  lemma MultiplesApart(x: nat, y: nat, n: nat)
    requires n > 0 && x % n == 0 && y % n == 0 && x < y
    ensures x + n <= y
  {
    var i, j := x / n, y / n;
    assert x == i * n && y == j * n;
    MulLess(j, i, n);
    MulLess(i + 1, j, n);
  }

  lemma Multiple(j: nat, n: nat, m: nat)
    requires n > 0 && m % n == 0 && j < m / n
    ensures 0 <= j * n < m && j * n % n == 0 && j * n / n == j
  {
    assert m == m / n * n;
    MulLess(j + 1, m / n, n);
    DivMul(j, n);
  }

  lemma DivMul(j: nat, n: nat)
    requires n > 0
    ensures j * n % n == 0 && j * n / n == j
  {
    if j > 0 {
      DivMul(j - 1, n);
      assert j * n == (j - 1) * n + n;
      AddOne((j - 1) * n, n);
    }
  }

  lemma AddOne(x: nat, n: nat)
    requires n > 0
    ensures (x + n) / n == x / n + 1 && (x + n) % n == x % n
  {
    var q, r := x / n, x % n;
    assert x + n == (q + 1) * n + r;
    DivUnique(x + n, n, q + 1, r);
  }

  lemma DivUnique(x: nat, n: nat, q: nat, r: nat)
    requires n > 0 && r < n && x == q * n + r
    ensures x / n == q && x % n == r
  {
    var a, b := x / n, x % n;
    assert x == a * n + b;
    MulLess(a + 1, q, n);
    MulLess(q + 1, a, n);
  }

  lemma DivRoom(x: nat, n: nat, m: nat)
    requires n > 0 && m % n == 0 && x % n == 0 && x < m
    ensures x / n < m / n && x / n * n == x && x + n <= m
  {
    MultiplesApart(x, m, n);
    assert x == x / n * n && m == m / n * n;
    MulLess(m / n, x / n, n);
  }
}
