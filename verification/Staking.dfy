/** The staking coefficient of a farmer and the iterations it leads to, over exact reals. */
module Staking {
  import opened Arith

  /** Share of the network's space that a farmer's recent blocks stand for. */
  function Space(network: nat, blocks: nat, range: nat): nat
    requires range > 0
  {
    network * blocks / range
  }

  predicate EnoughStake(network: nat, range: nat, stake: nat)
    requires range > 0
  {
    network > 0 && stake as real >= network as real / (range * 100) as real
  }

  function Coefficient(height: nat, network: nat, blocks: nat, range: nat, stake: nat): real
    requires range > 0
  {
    if height == 0 || !EnoughStake(network, range, stake) then 20.0
    else if blocks == 0 || Space(network, blocks, range) == 0 then 1.0
    else Curve(stake, Space(network, blocks, range))
  }

  /** Falls from just below 20.05 to 0.5 as the stake grows against the space. */
  function Curve(stake: nat, space: nat): real
    requires space > 0
  {
    var ratio := stake as real / space as real;
    if stake >= space then 0.5 + 1.0 / (ratio + 1.0) else 0.05 + 1.0 / (ratio + 0.05)
  }

  /** The coefficient in each case, without divisions: 20 without enough stake, 1 without recent space, and
      else what is left above 0.5, or above 0.05 for a stake below the space, falls with the stake. */
  lemma CoefficientIs(height: nat, network: nat, blocks: nat, range: nat, stake: nat)
    requires range > 0
    ensures var d, space := Coefficient(height, network, blocks, range, stake), Space(network, blocks, range);
      && range * space <= network * blocks < range * (space + 1)
      && (EnoughStake(network, range, stake) <==> 0 < network <= stake * range * 100)
      && (height == 0 || !EnoughStake(network, range, stake) ==> d == 20.0)
      && (height > 0 && EnoughStake(network, range, stake) && space == 0 ==> d == 1.0)
      && (height > 0 && EnoughStake(network, range, stake) && 0 < space <= stake ==>
            (d - 0.5) * (stake + space) as real == space as real)
      && (height > 0 && EnoughStake(network, range, stake) && stake < space ==>
            (d - 0.05) * (20 * stake + space) as real == 20.0 * space as real)
  {
    DivMod(network * blocks, range);
    MulSum(range, Space(network, blocks, range), 1);
    EnoughIff(network, range, stake);
    hide EnoughStake;
    var space := Space(network, blocks, range);
    if space > 0 {
      CurveIs(stake, space);
      hide Curve;
      if blocks == 0 { assert network * blocks == 0; }
    }
  }

  lemma EnoughIff(network: nat, range: nat, stake: nat)
    requires range > 0
    ensures EnoughStake(network, range, stake) <==> 0 < network <= stake * range * 100
  {
    var m := range * 100;
    var q := network as real / m as real;
    assert q * m as real == network as real;
    assert (stake * m) as real == stake as real * m as real;
    if stake as real >= q {
      assert (stake as real - q) * m as real >= 0.0;
    } else {
      assert (q - stake as real) * m as real > 0.0;
    }
    assert stake * range * 100 == stake * m;
  }

  lemma CurveIs(stake: nat, space: nat)
    requires space > 0
    ensures stake >= space ==> (Curve(stake, space) - 0.5) * (stake + space) as real == space as real
    ensures stake < space ==> (Curve(stake, space) - 0.05) * (20 * stake + space) as real == 20.0 * space as real
  {
    var s, p := stake as real, space as real;
    var x := s / p;
    assert x * p == s && x >= 0.0;
    if stake >= space {
      InverseTimes(x + 1.0, p);
      assert (x + 1.0) * p == s + p;
    } else {
      InverseTimes(x + 0.05, p);
      assert 20.0 * ((x + 0.05) * p) == 20.0 * s + p;
    }
  }

  lemma InverseTimes(y: real, p: real)
    requires y > 0.0
    ensures 1.0 / y * (y * p) == p
  {
    assert 1.0 / y * y == 1.0;
  }

  lemma RatioMono(a: real, b: real, m: real)
    requires m > 0.0 && a <= b
    ensures a / m <= b / m
  {
    assert (b - a) / m >= 0.0;
    assert b / m == a / m + (b - a) / m;
  }

  lemma ReciprocalMono(x: real, y: real)
    requires 0.0 < x <= y
    ensures 0.0 < 1.0 / y <= 1.0 / x
  {
    var p, q := 1.0 / x, 1.0 / y;
    assert p * x == 1.0 && q * y == 1.0;
    assert q > p ==> q * x > p * x;
    assert q * y >= q * x;
  }

  lemma ReciprocalBelow(x: real, y: real)
    requires 0.0 < x < y
    ensures 1.0 / y < 1.0 / x
  {
    var p, q := 1.0 / x, 1.0 / y;
    assert p * x == 1.0 && q * y == 1.0;
    assert q >= p ==> q * x >= p * x;
    assert q > 0.0;
    assert q * y > q * x;
  }

  lemma RatioSign(a: real, m: real)
    requires m > 0.0
    ensures (a >= m <==> a / m >= 1.0) && (a > 0.0 <==> a / m > 0.0)
  {
    assert a / m * m == a;
  }

  lemma CurveBounds(stake: nat, space: nat)
    requires space > 0 && stake > 0
    ensures 0.5 < Curve(stake, space) < 20.05
    ensures stake >= space ==> Curve(stake, space) <= 1.0
    ensures stake < space ==> Curve(stake, space) > 1.0
  {
    var x := stake as real / space as real;
    RatioSign(stake as real, space as real);
    if stake >= space {
      ReciprocalMono(2.0, x + 1.0);
    } else {
      ReciprocalBelow(0.05, x + 0.05);
      ReciprocalBelow(x + 0.05, 1.05);
      assert 1.0 / 0.05 == 20.0;
      assert 1.0 / 1.05 > 0.95;
    }
  }

  lemma CurveFalls(a: nat, b: nat, space: nat)
    requires space > 0 && 0 < a <= b
    ensures Curve(a, space) >= Curve(b, space)
  {
    var m := space as real;
    RatioMono(a as real, b as real, m);
    CurveBounds(a, space);
    CurveBounds(b, space);
    RatioSign(a as real, m);
    RatioSign(b as real, m);
    if a >= space {
      ReciprocalMono(a as real / m + 1.0, b as real / m + 1.0);
    } else if b < space {
      ReciprocalMono(a as real / m + 0.05, b as real / m + 0.05);
    }
  }

  lemma StakeIsPositive(network: nat, range: nat, stake: nat)
    requires range > 0 && EnoughStake(network, range, stake)
    ensures stake > 0
  {
    RatioSign(network as real, (range * 100) as real);
  }

  /** Once the stake is enough, more of it never raises the coefficient, which stays strictly between
      0.5 and 20.05. */
  lemma CoefficientFalls(height: nat, network: nat, blocks: nat, range: nat, a: nat, b: nat)
    requires range > 0 && height > 0 && EnoughStake(network, range, a) && a <= b
    ensures EnoughStake(network, range, b)
    ensures 0.5 < Coefficient(height, network, blocks, range, b)
    ensures Coefficient(height, network, blocks, range, b) <= Coefficient(height, network, blocks, range, a) < 20.05
  {
    StakeIsPositive(network, range, a);
    var space := Space(network, blocks, range);
    if space > 0 {
      CurveFalls(a, b, space);
      CurveBounds(a, space);
      CurveBounds(b, space);
    }
  }

  /** Across the cutoff it is not monotone: a stake that is just enough gives a coefficient above the
      20 of no stake at all exactly when it is below the 7980th part of the farmer's space. */
  lemma CutoffCanRaise(height: nat, network: nat, blocks: nat, range: nat, stake: nat)
    requires range > 0 && height > 0 && EnoughStake(network, range, stake)
    ensures Coefficient(height, network, blocks, range, stake) > 20.0 <==>
            blocks > 0 && 7980 * stake < Space(network, blocks, range)
  {
    StakeIsPositive(network, range, stake);
    var space := Space(network, blocks, range);
    if blocks > 0 && space > 0 {
      CurveBounds(stake, space);
      if stake < space { CurveAboveTwenty(stake, space); }
    }
  }

  lemma RatioBelow(a: real, m: real)
    requires m > 0.0
    ensures 7980.0 * a < m <==> a / m < 1.0 / 7980.0
  {
    RatioSign(7980.0 * a, m);
    assert 7980.0 * a / m == 7980.0 * (a / m);
  }

  /** A stake that is enough and gives more than 20. */
  lemma CutoffRaises()
    ensures EnoughStake(1382400, 13824, 1) && !EnoughStake(1382400, 13824, 0)
    ensures Coefficient(1, 1382400, 80, 13824, 1) > Coefficient(1, 1382400, 80, 13824, 0) == 20.0
  {
    assert Space(1382400, 80, 13824) == 8000;
    CutoffCanRaise(1, 1382400, 80, 13824, 1);
  }

  lemma CurveAboveTwenty(stake: nat, space: nat)
    requires 0 < stake < space
    ensures Curve(stake, space) > 20.0 <==> 7980 * stake < space
  {
    var x := stake as real / space as real;
    RatioSign(stake as real, space as real);
    RatioBelow(stake as real, space as real);
    AboveTwenty(x);
  }

  lemma AboveTwenty(x: real)
    requires x > 0.0
    ensures 0.05 + 1.0 / (x + 0.05) > 20.0 <==> x < 1.0 / 7980.0
  {
    var limit := 20.0 / 399.0;
    assert 1.0 / limit == 19.95 && limit - 0.05 == 1.0 / 7980.0;
    if x < 1.0 / 7980.0 {
      ReciprocalBelow(x + 0.05, limit);
    } else {
      ReciprocalMono(limit, x + 0.05);
    }
  }

  // ---- Required iterations --------------------------------------------------------------------------------

  /** Iterations for a proof: the scaled difficulty times the constant factor and the quality over the
      quality's range times the plot size, at least 1. */
  function RequiredIters(difficulty: nat, coefficient: real, factor: nat, quality: nat, divisor: nat): nat
    requires coefficient >= 0.0 && divisor > 0
  {
    var scaled := Scaled(difficulty, coefficient);
    var iters := scaled * (factor * quality) / divisor;
    if iters >= 1 then iters else 1
  }

  function Scaled(difficulty: nat, coefficient: real): nat
    requires coefficient >= 0.0
  {
    assert difficulty as real * coefficient >= 0.0;
    (difficulty as real * coefficient).Floor
  }

  /** The iterations are the whole part of the product over the divisor, with the difficulty scaled by the
      coefficient to a whole number first, and never less than 1. */
  lemma ItersAre(difficulty: nat, coefficient: real, factor: nat, quality: nat, divisor: nat)
    requires coefficient >= 0.0 && divisor > 0
    ensures var s := Scaled(difficulty, coefficient);
      var n := RequiredIters(difficulty, coefficient, factor, quality, divisor);
      && s as real <= difficulty as real * coefficient < (s + 1) as real
      && n >= 1 && s * (factor * quality) < divisor * (n + 1) && (n > 1 ==> divisor * n <= s * (factor * quality))
  {
    var s := Scaled(difficulty, coefficient);
    var x := s * (factor * quality);
    DivMod(x, divisor);
    MulSum(divisor, x / divisor, 1);
    MulMono(x / divisor + 1, RequiredIters(difficulty, coefficient, factor, quality, divisor) + 1, divisor);
  }

  lemma QuotientMono(a: nat, b: nat, m: nat, d: nat)
    requires a <= b && d > 0
    ensures a * m / d <= b * m / d
  {
    MulMono(a, b, m);
    var x, y := a * m, b * m;
    assert x <= y;
    DivisionMono(x, y, d);
  }

  lemma DivisionMono(x: nat, y: nat, d: nat)
    requires x <= y && d > 0
    ensures x / d <= y / d
  {
    if y / d < x / d {
      MulMono(y / d + 1, x / d, d);
      MulSum(d, y / d, 1);
    }
  }

  /** A larger enough stake never raises the iterations a proof needs, and they are at least 1. */
  lemma StakeNeverRaisesIters(height: nat, network: nat, blocks: nat, range: nat, a: nat, b: nat,
                              difficulty: nat, factor: nat, quality: nat, divisor: nat)
    requires range > 0 && height > 0 && divisor > 0 && EnoughStake(network, range, a) && a <= b
    ensures Coefficient(height, network, blocks, range, a) > 0.0 && Coefficient(height, network, blocks, range, b) > 0.0
    ensures 1 <= RequiredIters(difficulty, Coefficient(height, network, blocks, range, b), factor, quality, divisor)
              <= RequiredIters(difficulty, Coefficient(height, network, blocks, range, a), factor, quality, divisor)
  {
    CoefficientFalls(height, network, blocks, range, a, b);
    var p, q := Coefficient(height, network, blocks, range, a), Coefficient(height, network, blocks, range, b);
    hide Coefficient, EnoughStake;
    assert Scaled(difficulty, q) <= Scaled(difficulty, p) by { ScaledMono(difficulty, q, p); }
    hide Scaled;
    QuotientMono(Scaled(difficulty, q), Scaled(difficulty, p), factor * quality, divisor);
  }

  lemma ScaledMono(difficulty: nat, q: real, p: real)
    requires 0.0 <= q <= p
    ensures Scaled(difficulty, q) <= Scaled(difficulty, p)
  {
    FloorMono(difficulty as real * q, difficulty as real * p);
  }

  lemma FloorMono(x: real, y: real)
    requires x <= y
    ensures x.Floor <= y.Floor
  {
    assert x.Floor as real <= x && y < y.Floor as real + 1.0;
  }
}
