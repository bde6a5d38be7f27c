/** The parameters of a new epoch, written out over the blocks its predecessor is measured by. */
module MeasuredParams {
  import opened Coins
  import opened Arith
  import opened PotIterations
  import opened SignificantBits
  import opened Headers
  import opened TxBlocks
  import opened Retargets

  // ---- The measuring blocks ------------------------------------------------------------------------------------

  /** Exactly one transaction block follows the one at `e`. */
  predicate OneTxAfter(c: seq<Rec>, e: int, u: int)
  {
    && 0 <= e < u < |c| && c[e].IsTx() && c[u].IsTx()
    && forall i :: e < i < |c| && i != u ==> !c[i].IsTx()
  }

  lemma SecondLastTxIs(c: seq<Rec>)
    requires SecondLastTx(c) >= 0
    ensures OneTxAfter(c, SecondLastTx(c), LastTxHeight(c))
  {
    var u, e := LastTxHeight(c), SecondLastTx(c);
    assert forall i :: 0 <= i < u ==> c[..u][i] == c[i];
  }

  /** The epoch that ends was surpassed at height `w`; the block at `s` opened it. */
  predicate OpensEnding(k: Constants, c: seq<Rec>, w: int, s: int)
    requires k.epochBlocks > 0
  {
    && w % k.epochBlocks == 0 && w <= |c| < w + k.subEpochBlocks
    && w - k.epochBlocks <= s && 0 <= s < |c| && c[s].summary
    && forall i :: 0 <= i < |c| && w - k.epochBlocks <= i < s ==> !c[i].summary
  }

  /** `t` is where the measurement starts: at genesis in the first epoch, else at the second-to-last
      transaction block before the block that opened the epoch now ending. */
  ghost predicate MeasuredFrom(k: Constants, c: seq<Rec>, t: int)
    requires k.epochBlocks > 0
  {
    if |c| < k.epochBlocks + k.subEpochBlocks then t == 0
    else exists w, s, u :: OpensEnding(k, c, w, s) && OneTxAfter(c[..s], t, u)
  }

  lemma {:induction false} MeasureStartIs(k: Constants, c: seq<Rec>)
    requires k.Ok() && ValidHeaders(k, c) && c != [] && CanFinishEpoch(k, c)
    ensures MeasureStart(k, c).Some? && MeasuredFrom(k, c, MeasureStart(k, c).value)
  {
    var w := WindowStart(k, |c|);
    FinishesSoon(k, c);
    if w == k.epochBlocks {
      FirstMeasureStart(k, c);
    } else {
      var s := EpochOpening(k, c);
      var t := MeasureStart(k, c);
      LaterStartIs(k, c, s);
      hide ValidHeaders, IsPow2, MeasureStart, CanFinishEpoch, EpochSurpass, HeightInNextEpoch, FetchEnd, SecondLastTx;
      assert OpensEnding(k, c, w, s);
      SecondLastTxIs(c[..s]);
    }
  }

  lemma {:induction false} LaterStartIs(k: Constants, c: seq<Rec>, s: nat)
    requires k.Ok() && ValidHeaders(k, c) && c != [] && CanFinishEpoch(k, c)
    requires var w := WindowStart(k, |c|);
      && w > k.epochBlocks && w - k.epochBlocks <= s < |c| && c[s].summary
      && forall i :: w - k.epochBlocks <= i < s ==> !c[i].summary
    ensures MeasureStart(k, c) == AsOption(SecondLastTx(c[..s])) && SecondLastTx(c[..s]) >= 0
  {
    var r := EpochOpening(k, c);
    var d, w := c[..|c| - 1], WindowStart(k, |c|);
    assert r == s;
    hide ValidHeaders, IsPow2, WindowStart, CanFinishEpoch, EpochSurpass, SecondLastTx, StartOn, HeightInNextEpoch;
    SearchFinds(k, |c|, d, w, s);
    assert d[..s] == c[..s];
    HeadersPrefix(k, c, s);
    TwoTxAfter(k, c[..s], 0);
  }

  // ---- The values ------------------------------------------------------------------------------------------------

  /** `q` is the whole part of `x / y`. */
  predicate WholePart(q: int, x: int, y: int) { y * q <= x < y * (q + 1) }

  /** `m` is `q`, kept within the factor of the reference and, when it falls, at least `least`. */
  predicate Limited(m: int, q: int, reference: int, factor: int, least: int)
    requires factor > 0
  {
    if q >= reference then m <= q && m <= factor * reference && m in {q, factor * reference}
    else m >= q && m >= least && m >= reference / factor && m in {q, least, reference / factor}
  }

  /** `d` is the greatest number up to `m` with at most `n` significant bits. */
  ghost predicate Shortened(d: nat, m: nat, n: nat)
  {
    d <= m && BitSpan(d) <= n && forall y: nat :: y <= m && BitSpan(y) <= n ==> y <= d
  }

  lemma TruncateShortens(m: nat, n: nat)
    requires n >= 1
    ensures Shortened(Truncate(m, n), m, n)
  {
    hide BitSpan, Truncate, Fits;
    TruncatedSpan(m, n);
    if m > 0 { TruncateIsClose(m, n); } else { TruncateFits(m, n); TruncateAtMost(m, n); }
    forall y: nat | y <= m && BitSpan(y) <= n ensures y <= Truncate(m, n) {
      FitsSpan(y, n);
      TruncateIsGreatest(m, n, y);
    }
  }

  lemma TruncateAtMost(m: nat, n: nat)
    ensures Truncate(m, n) <= m
  {
  }

  lemma ClampLimits(q: nat, reference: nat, factor: nat, least: nat)
    requires factor > 0
    ensures Limited(Clamp(q, reference, factor, least), q, reference, factor, least)
  {
  }

  /** The difficulty of the new epoch: the weight gained per target number of blocks and target time of a
      sub-slot, between the blocks `t` and `e`, limited by the old difficulty and shortened. */
  ghost predicate DifficultyFollows(k: Constants, c: seq<Rec>, t: int, e: int, d: int, q: int, m: int)
    requires 0 <= t < |c| && 0 <= e < |c| && |c| > 1 && k.maxFactor > 0
  {
    && d >= 0 && m >= 0
    && WholePart(q, (c[e].weight - c[t].weight) * k.timeTarget, k.slotBlocksTarget * (c[e].Time() - c[t].Time()))
    && Limited(m, q, c[|c| - 2].weight - (if |c| == 2 then 0 else c[|c| - 3].weight), k.maxFactor, 1)
    && Shortened(d, m, k.significantBits)
  }

  /** Its sub-slot iterations: the iterations gained per target time, limited by those of `e`, shortened to
      `r` and then rounded down to a multiple of the signage points. */
  ghost predicate SsiFollows(k: Constants, c: seq<Rec>, t: int, e: int, ssi: int, q: int, m: int, r: int)
    requires 0 <= t < |c| && 0 <= e < |c| && k.maxFactor > 0 && k.numSps > 0
  {
    && m >= 0 && r >= 0
    && WholePart(q, k.timeTarget * (c[e].totalIters - c[t].totalIters), c[e].Time() - c[t].Time())
    && Limited(m, q, c[e].ssi, k.maxFactor, k.numSps) && Shortened(r, m, k.significantBits)
    && ssi % k.numSps == 0 && ssi <= r < ssi + k.numSps
  }

  lemma DifficultyValue(k: Constants, a: Rec, b: Rec, reference: nat)
    requires k.Ok() && RetargetedDifficulty(k, a, b, reference).Some?
    ensures var q := PreciseDifficulty(k, a, b);
      var m := Clamp(q, reference, k.maxFactor, 1);
      && WholePart(q, (b.weight - a.weight) * k.timeTarget, k.slotBlocksTarget * (b.Time() - a.Time()))
      && Limited(m, q, reference, k.maxFactor, 1)
      && Shortened(RetargetedDifficulty(k, a, b, reference).value, m, k.significantBits)
  {
    hide Clamp, Truncate, Shortened, Quotient, IsPow2, Limited;
    QuotientIs((b.weight - a.weight) * k.timeTarget, k.slotBlocksTarget, b.Time() - a.Time());
    var q := PreciseDifficulty(k, a, b);
    ClampLimits(q, reference, k.maxFactor, 1);
    TruncateShortens(Clamp(q, reference, k.maxFactor, 1), k.significantBits);
  }

  lemma SsiValue(k: Constants, a: Rec, b: Rec)
    requires k.Ok() && RetargetedSsi(k, a, b).Some?
    ensures var q, ssi := PreciseSsi(k, a, b), RetargetedSsi(k, a, b).value;
      var m := Clamp(q, b.ssi, k.maxFactor, k.numSps);
      var r := Truncate(m, k.significantBits);
      && WholePart(q, k.timeTarget * (b.totalIters - a.totalIters), b.Time() - a.Time())
      && Limited(m, q, b.ssi, k.maxFactor, k.numSps) && Shortened(r, m, k.significantBits)
      && ssi % k.numSps == 0 && ssi <= r < ssi + k.numSps
  {
    hide Clamp, Truncate, Shortened, Quotient, IsPow2, Limited, RoundDown;
    QuotientIs(k.timeTarget * (b.totalIters - a.totalIters), 1, b.Time() - a.Time());
    var q := PreciseSsi(k, a, b);
    ClampLimits(q, b.ssi, k.maxFactor, k.numSps);
    var m := Clamp(q, b.ssi, k.maxFactor, k.numSps);
    TruncateShortens(m, k.significantBits);
    RoundsDown(Truncate(m, k.significantBits), k.numSps);
    RoundedIsMultiple(Truncate(m, k.significantBits), k.numSps);
  }

  lemma RoundedIsMultiple(x: nat, m: nat)
    requires m > 0
    ensures RoundDown(x, m) % m == 0
  {
    DivMod(x, m);
    ModMultiple(x / m, m);
  }

  /** Where a new epoch opens, its parameters are those measured between the second-to-last transaction
      blocks of the epoch before and of the one that ends. */
  lemma {:induction false} ParamsAreMeasured(k: Constants, c: seq<Rec>) returns (t: nat, e: nat)
    requires k.Ok() && ValidHeaders(k, c) && c != [] && CanFinishEpoch(k, c)
    ensures 1 < |c| && t < e < |c| && MeasuredFrom(k, c, t) && (exists u :: OneTxAfter(c, e, u))
    ensures c[t].Time() < c[e].Time() && NextParams(k, c, true).Some?
    ensures exists q, m :: DifficultyFollows(k, c, t, e, NextParams(k, c, true).value.difficulty, q, m)
    ensures exists q, m, r :: SsiFollows(k, c, t, e, NextParams(k, c, true).value.ssi, q, m, r)
  {
    MeasuredStretch(k, c);
    MeasureStartIs(k, c);
    WalkEndsAtSecondLastTx(k, c);
    RetargetsExist(k, c);
    t, e := MeasureStart(k, c).value, MeasureEnd(k, c).value;
    SecondLastTxIs(c);
    hide ValidHeaders, CanFinishEpoch, IsPow2, MeasureStart, MeasureEnd, MeasuredFrom, OneTxAfter, SecondLastTx,
      RetargetedSsi, RetargetedDifficulty, DifficultyFollows, SsiFollows, NextParams;
    NextIsRetargeted(k, c, t, e);
    DifficultyRetargeted(k, c, t, e);
    SsiRetargeted(k, c, t, e);
  }

  lemma {:induction false} DifficultyRetargeted(k: Constants, c: seq<Rec>, t: nat, e: nat)
    requires k.Ok() && |c| > 1 && t < |c| && e < |c| && Difficulty(c, |c| - 2) >= 0
    requires RetargetedDifficulty(k, c[t], c[e], Difficulty(c, |c| - 2)).Some?
    ensures var d := RetargetedDifficulty(k, c[t], c[e], Difficulty(c, |c| - 2)).value;
      exists q, m :: DifficultyFollows(k, c, t, e, d, q, m)
  {
    var reference := Difficulty(c, |c| - 2);
    DifficultyValue(k, c[t], c[e], reference);
    var q := PreciseDifficulty(k, c[t], c[e]);
    var m := Clamp(q, reference, k.maxFactor, 1);
    hide Clamp, PreciseDifficulty, Shortened, Limited, WholePart, IsPow2, Truncate;
    assert DifficultyFollows(k, c, t, e, RetargetedDifficulty(k, c[t], c[e], reference).value, q, m);
  }

  lemma {:induction false} SsiRetargeted(k: Constants, c: seq<Rec>, t: nat, e: nat)
    requires k.Ok() && t < |c| && e < |c| && RetargetedSsi(k, c[t], c[e]).Some?
    ensures exists q, m, r :: SsiFollows(k, c, t, e, RetargetedSsi(k, c[t], c[e]).value, q, m, r)
  {
    SsiValue(k, c[t], c[e]);
    var q := PreciseSsi(k, c[t], c[e]);
    var m := Clamp(q, c[e].ssi, k.maxFactor, k.numSps);
    hide Clamp, PreciseSsi, Shortened, Limited, WholePart, IsPow2, Truncate;
    assert SsiFollows(k, c, t, e, RetargetedSsi(k, c[t], c[e]).value, q, m, Truncate(m, k.significantBits));
  }

  lemma {:induction false} NextIsRetargeted(k: Constants, c: seq<Rec>, t: nat, e: nat)
    requires k.Ok() && |c| > 1 && CanFinishEpoch(k, c) && |c| >= k.epochBlocks && !c[|c| - 1].summary
    requires Difficulty(c, |c| - 1) >= 1 && Difficulty(c, |c| - 2) >= 1
    requires MeasureStart(k, c) == Some(t) && MeasureEnd(k, c) == Some(e)
    requires RetargetedSsi(k, c[t], c[e]).Some?
    requires RetargetedDifficulty(k, c[t], c[e], Difficulty(c, |c| - 2)).Some?
    ensures NextParams(k, c, true) ==
      Some(Params(RetargetedSsi(k, c[t], c[e]).value,
                  RetargetedDifficulty(k, c[t], c[e], Difficulty(c, |c| - 2)).value))
  {
    hide CanFinishEpoch, IsPow2, MeasureStart, MeasureEnd, RetargetedSsi, RetargetedDifficulty;
  }
}
