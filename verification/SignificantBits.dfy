/** Truncating to, and counting, significant bits. */
module SignificantBits {
  import opened Arith
  import opened PotIterations

  /** The number of binary digits of `x`; 0 has none. */
  function BitLength(x: nat): (r: nat)
    ensures x < Pow2(r)
    ensures x > 0 ==> r > 0 && Pow2(r - 1) <= x
  {
    if x == 0 then 0 else BitLength(x / 2) + 1
  }

  /** Keep the top `n` bits, clear the rest. */
  function Truncate(x: nat, n: nat): nat
  {
    if n > BitLength(x) then x
    else
      DivMod(x, Pow2(BitLength(x) - n));
      x - x % Pow2(BitLength(x) - n)
  }

  /** Bits from the highest set one down to the lowest set one. */
  function BitSpan(x: nat): nat
  {
    if x == 0 then 0 else if x % 2 == 1 then BitLength(x) else BitSpan(x / 2)
  }

  /** The same, found by scanning upwards for the lowest set bit. */
  method CountSignificantBits(x: nat) returns (count: nat)
    ensures count == BitSpan(x)
    ensures forall n :: Fits(x, n) ==> count <= n
  {
    var length := BitLength(x);
    count := 0;
    for i := 0 to length
      invariant x % Pow2(i) == 0 && count == 0
    {
      if (x / Pow2(i)) % 2 == 1 {
        count := length - i;
        SpanIs(x, i);
        break;
      }
      NextBitClear(x, i);
    }
    if x > 0 && count == 0 { DivisibleIsLarge(x, length); }
    forall n | Fits(x, n) ensures count <= n { FitsSpan(x, n); }
  }

  lemma HalfOf(x: nat, i: nat)
    requires x % Pow2(i + 1) == 0
    ensures x % 2 == 0 && (x / 2) % Pow2(i) == 0 && (x / 2) / Pow2(i) == x / Pow2(i + 1)
  {
    DivExact(x, Pow2(i + 1));
    var q := x / Pow2(i + 1);
    assert x == 2 * (Pow2(i) * q);
    ModMultiple(Pow2(i) * q, 2);
    ModMultiple(q, Pow2(i));
  }

  lemma {:induction false} SpanIs(x: nat, i: nat)
    requires x > 0 && x % Pow2(i) == 0 && (x / Pow2(i)) % 2 == 1
    ensures i < BitLength(x) && BitSpan(x) == BitLength(x) - i
  {
    if i == 0 {
      assert x % 2 == 1;
    } else {
      HalfOf(x, i - 1);
      SpanIs(x / 2, i - 1);
    }
  }

  /** Every positive number has a lowest set bit. */
  lemma {:induction false} LowestSetBit(x: nat) returns (i: nat)
    requires x > 0
    ensures x % Pow2(i) == 0 && (x / Pow2(i)) % 2 == 1
  {
    if x % 2 == 1 {
      i := 0;
    } else {
      var j := LowestSetBit(x / 2);
      i := j + 1;
      Doubled(x, j);
    }
  }

  lemma Doubled(x: nat, j: nat)
    requires x % 2 == 0 && (x / 2) % Pow2(j) == 0
    ensures x % Pow2(j + 1) == 0 && x / Pow2(j + 1) == (x / 2) / Pow2(j)
  {
    DivExact(x / 2, Pow2(j));
    var q := (x / 2) / Pow2(j);
    assert x == 2 * (Pow2(j) * q) == Pow2(j + 1) * q;
    ModMultiple(q, Pow2(j + 1));
  }

  /** A number fits in `n` bits exactly when its significant bits are at most `n`. */
  lemma FitsSpan(x: nat, n: nat)
    ensures Fits(x, n) <==> BitSpan(x) <= n
  {
    if x == 0 {
      assert Pow2(0) == 1 && Pow2(n) >= 1;
      assert FitsAt(0, n, 0);
    } else {
      var i := LowestSetBit(x);
      SpanIs(x, i);
      hide BitSpan, BitLength, Pow2;
      if BitLength(x) - i <= n {
        Pow2Mono(BitLength(x), i + n);
        assert FitsAt(x, n, i);
      }
      if Fits(x, n) { FitsCounts(x, n, i); }
    }
  }

  lemma NextBitClear(x: nat, i: nat)
    requires x % Pow2(i) == 0 && (x / Pow2(i)) % 2 == 0
    ensures x % Pow2(i + 1) == 0
  {
    var q := x / Pow2(i);
    DivExact(x, Pow2(i));
    DivExact(q, 2);
    assert x == Pow2(i) * (2 * (q / 2)) == Pow2(i + 1) * (q / 2);
    ModMultiple(q / 2, Pow2(i + 1));
  }

  lemma DivisibleIsLarge(x: nat, i: nat)
    requires x > 0 && x % Pow2(i) == 0
    ensures x >= Pow2(i)
  {
    DivExact(x, Pow2(i));
    MulMono(1, x / Pow2(i), Pow2(i));
  }

  /** `x` is a multiple of a power of two and, divided by it, fits in `n` bits. */
  ghost predicate Fits(x: nat, n: nat)
  {
    exists k: nat :: FitsAt(x, n, k)
  }

  ghost predicate FitsAt(x: nat, n: nat, k: nat)
  {
    x % Pow2(k) == 0 && x < Pow2(k + n)
  }

  lemma {:induction false} Pow2Mono(a: nat, b: nat)
    requires a <= b
    ensures Pow2(a) <= Pow2(b)
  {
    if a < b { Pow2Mono(a, b - 1); }
  }

  lemma {:induction false} Pow2Sum(a: nat, b: nat)
    ensures Pow2(a + b) == Pow2(a) * Pow2(b)
  {
    if b > 0 {
      Pow2Sum(a, b - 1);
      assert Pow2(a + b) == 2 * Pow2(a + (b - 1));
      assert Pow2(a) * Pow2(b) == 2 * (Pow2(a) * Pow2(b - 1));
    }
  }

  lemma DivisibleDown(x: nat, a: nat, b: nat)
    requires a <= b && x % Pow2(b) == 0
    ensures x % Pow2(a) == 0
  {
    Pow2Sum(a, b - a);
    DivExact(x, Pow2(b));
    var q := x / Pow2(b);
    assert x == Pow2(a) * (Pow2(b - a) * q) by {
      MulAssoc(Pow2(a), Pow2(b - a), q);
    }
    ModMultiple(Pow2(b - a) * q, Pow2(a));
  }

  lemma MulAssoc(a: int, b: int, c: int)
    ensures (a * b) * c == a * (b * c)
  {
  }

  /** Clearing low bits leaves a number that fits the remaining ones. */
  lemma TruncateFits(x: nat, n: nat)
    ensures Fits(Truncate(x, n), n)
  {
    hide BitLength;
    var l := BitLength(x);
    if n > l {
      Pow2Mono(l, n);
      assert Pow2(0) == 1;
      assert FitsAt(x, n, 0);
    } else {
      hide Pow2, FitsAt;
      ClearedFits(x, n, l - n);
      assert FitsAt(Truncate(x, n), n, l - n);
    }
  }

  lemma ClearedFits(x: nat, n: nat, k: nat)
    requires x < Pow2(k + n)
    ensures x - x % Pow2(k) >= 0 && FitsAt(x - x % Pow2(k), n, k)
  {
    ClearLow(x, k);
  }

  lemma ClearLow(x: nat, k: nat)
    ensures (x - x % Pow2(k)) % Pow2(k) == 0 && x - x % Pow2(k) >= 0
  {
    var m := Pow2(k);
    hide Pow2;
    DivMod(x, m);
    ModMultiple(x / m, m);
  }

  lemma RoundDownFitsAt(x: nat, n: nat, j: nat, k: nat)
    requires FitsAt(x, n, k)
    ensures x - x % Pow2(j) >= 0 && FitsAt(x - x % Pow2(j), n, k)
  {
    ClearLow(x, j);
    var y := x - x % Pow2(j);
    if j <= k {
      DivisibleDown(x, j, k);
    } else {
      DivisibleDown(y, k, j);
    }
    hide Pow2;
    assert y <= x;
  }

  /** Rounding down to a multiple of a power of two keeps fitting. */
  lemma RoundDownFits(x: nat, n: nat, j: nat)
    requires Fits(x, n)
    ensures x - x % Pow2(j) >= 0 && Fits(x - x % Pow2(j), n)
  {
    hide FitsAt, Pow2;
    var k: nat :| FitsAt(x, n, k);
    RoundDownFitsAt(x, n, j, k);
  }

  /** A number that fits in `n` bits has at most `n` significant ones, so the checks after a
      retarget cannot fail. */
  lemma FitsCounts(x: nat, n: nat, i: nat)
    requires x > 0 && Fits(x, n)
    requires x % Pow2(i) == 0 && (x / Pow2(i)) % 2 == 1
    ensures BitLength(x) - i <= n
  {
    var k: nat :| FitsAt(x, n, k);
    LowestBit(x, i, k);
    LengthAtMost(x, k + n);
  }

  lemma EvenQuotient(x: nat, i: nat)
    requires x % Pow2(i + 1) == 0
    ensures (x / Pow2(i)) % 2 == 0
  {
    DivExact(x, Pow2(i + 1));
    var q := x / Pow2(i + 1);
    assert Pow2(i + 1) == Pow2(i) * 2;
    MulAssoc(Pow2(i), 2, q);
    ModMultiple(2 * q, Pow2(i));
  }

  lemma LowestBit(x: nat, i: nat, k: nat)
    requires x % Pow2(i) == 0 && (x / Pow2(i)) % 2 == 1 && x % Pow2(k) == 0
    ensures k <= i
  {
    if i < k {
      DivisibleDown(x, i + 1, k);
      EvenQuotient(x, i);
    }
  }

  lemma LengthAtMost(x: nat, n: nat)
    requires x < Pow2(n)
    ensures BitLength(x) <= n
  {
    if x > 0 && BitLength(x) > n { Pow2Mono(n, BitLength(x) - 1); }
  }

  /** Truncation keeps the top bit: it never drops below a power of two it started above. */
  lemma TruncateKeepsTop(x: nat, n: nat, j: nat)
    requires n >= 1 && x >= Pow2(j)
    ensures Pow2(j) <= Truncate(x, n) <= x
  {
    var l := BitLength(x);
    if l <= j { Pow2Mono(l, j); }
    if n <= l {
      var m := Pow2(l - n);
      Pow2Sum(l - n, n - 1);
      Pow2Mono(j, l - 1);
      DivMono(x, m, Pow2(n - 1));
    }
  }

  /** The truncated number is the greatest up to the original that fits the bits kept. */
  lemma TruncateIsGreatest(x: nat, n: nat, y: nat)
    requires n >= 1 && y <= x && Fits(y, n)
    ensures y <= Truncate(x, n)
  {
    var l := BitLength(x);
    hide BitLength;
    if n <= l && x > 0 {
      var j: nat :| FitsAt(y, n, j);
      if j >= l - n {
        DivisibleDown(y, l - n, j);
        DivExact(y, Pow2(l - n));
        hide Pow2;
        DivMono(x, Pow2(l - n), y / Pow2(l - n));
      } else {
        Pow2Mono(j + n, l - 1);
        hide Pow2, FitsAt;
        TruncateKeepsTop(x, n, l - 1);
      }
    }
  }

  /** Truncation to `n` bits loses less than one part in `2^(n-1)`. */
  lemma TruncateIsClose(x: nat, n: nat)
    requires n >= 1 && x > 0
    ensures Truncate(x, n) <= x && (x - Truncate(x, n)) * Pow2(n - 1) < Truncate(x, n)
  {
    var l := BitLength(x);
    hide BitLength;
    if n <= l {
      Pow2Sum(l - n, n - 1);
      hide Pow2;
      LossIsSmall(x, Pow2(l - n), Pow2(n - 1));
    }
  }

  lemma LossIsSmall(x: nat, m: nat, p: nat)
    requires m > 0 && p > 0 && m * p <= x
    ensures (x % m) * p < x - x % m <= x
  {
    DivMono(x, m, p);
    MulMono(x % m, m - 1, p);
    MulSum(p, m - 1, 1);
  }

  lemma DivMono(x: nat, m: nat, a: nat)
    requires m > 0 && m * a <= x
    ensures m * a <= x - x % m <= x
  {
    var q := x / m;
    assert x == m * q + x % m;
    if q < a {
      MulMono(q + 1, a, m);
      MulSum(m, q, 1);
    } else {
      MulMono(a, q, m);
    }
  }

  lemma RoundDownKeeps(x: nat, m: nat)
    requires m > 0 && x >= m
    ensures m <= x - x % m <= x && (x - x % m) % m == 0
  {
    DivMono(x, m, 1);
    assert x - x % m == m * (x / m);
    ModMultiple(x / m, m);
  }
}
