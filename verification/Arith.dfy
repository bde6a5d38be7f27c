/** Multiplication, division and remainder facts used by the iteration arithmetic. */
module Arith {

  lemma MulMono(a: nat, b: nat, c: nat)
    requires a <= b
    ensures c * a <= c * b
  {
  }

  /** Quotient and remainder are unique. */
  lemma DivModUnique(m: nat, a: int, r: nat, b: int, s: nat)
    requires m > 0 && r < m && s < m
    requires m * a + r == m * b + s
    ensures a == b && r == s
  {
    MulSum(m, b, a - b);
    MulSum(m, a, b - a);
    if a > b { MulMono(1, a - b, m); }
    if b > a { MulMono(1, b - a, m); }
  }

  lemma DivMod(x: nat, m: nat)
    requires m > 0
    ensures x == m * (x / m) + x % m && x % m <= x
  {
    MulMono(0, x / m, m);
  }

  lemma DivModIs(x: nat, m: nat, a: nat, r: nat)
    requires m > 0 && r < m && x == m * a + r
    ensures x / m == a && x % m == r
  {
    DivModUnique(m, a, r, x / m, x % m);
  }

  lemma ModMultiple(a: nat, m: nat)
    requires m > 0
    ensures (m * a) % m == 0 && (m * a) / m == a
  {
    DivModIs(m * a, m, a, 0);
  }

  lemma DivExact(x: nat, m: nat)
    requires m > 0 && x % m == 0
    ensures m * (x / m) == x
  {
  }

  lemma MulSum(m: int, a: int, b: int)
    ensures m * (a + b) == m * a + m * b
  {
  }

  lemma MulPos(a: nat, b: nat)
    requires a > 0 && b > 0
    ensures a * b > 0
  {
  }
}
