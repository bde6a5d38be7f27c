/** Sub-slot iterations and difficulty along a valid chain. */
module Retargets {
  import opened Coins
  import opened Arith
  import opened PotIterations
  import opened SignificantBits
  import opened Headers
  import opened SignagePoints
  import opened TxBlocks
  import opened SubEpochs

  // ---- The clamped, truncated values ------------------------------------------------------------------------

  lemma ClampBounds(precise: nat, reference: nat, factor: nat, least: nat)
    requires factor >= 1 && 1 <= least <= reference
    ensures least <= Clamp(precise, reference, factor, least) <= factor * reference
  {
    MulMono(1, factor, reference);
    DivDown(reference, factor);
  }

  lemma DivDown(x: nat, m: nat)
    requires m >= 1
    ensures x / m <= x
  {
    MulMono(1, m, x / m);
  }

  lemma TruncatedSpan(x: nat, n: nat)
    requires n >= 1
    ensures BitSpan(Truncate(x, n)) <= n
  {
    hide Truncate, Fits, BitSpan;
    TruncateFits(x, n);
    FitsSpan(Truncate(x, n), n);
  }

  lemma RoundedSpan(x: nat, n: nat, m: nat)
    requires n >= 1 && IsPow2(m) && m > 0
    ensures BitSpan(RoundDown(Truncate(x, n), m)) <= n
  {
    var j: nat :| j <= m && Pow2(j) == m;
    hide Truncate, Fits, IsPow2, Pow2, BitSpan;
    TruncateFits(x, n);
    RoundDownFits(Truncate(x, n), n, j);
    FitsSpan(RoundDown(Truncate(x, n), m), n);
  }

  /** Both retargeted values pass the significant-bits assertion, whatever was measured. */
  lemma DifficultyFits(k: Constants, start: Rec, end: Rec, reference: nat)
    requires k.Ok() && RetargetedDifficulty(k, start, end, reference).Some?
    ensures BitSpan(RetargetedDifficulty(k, start, end, reference).value) <= k.significantBits
  {
    hide PreciseDifficulty, Clamp, Truncate, BitSpan, IsPow2;
    TruncatedSpan(Clamp(PreciseDifficulty(k, start, end), reference, k.maxFactor, 1), k.significantBits);
  }

  lemma SsiFits(k: Constants, start: Rec, end: Rec)
    requires k.Ok() && RetargetedSsi(k, start, end).Some?
    ensures BitSpan(RetargetedSsi(k, start, end).value) <= k.significantBits
  {
    hide PreciseSsi, Clamp, Truncate, RoundDown, BitSpan, IsPow2;
    RoundedSpan(Clamp(PreciseSsi(k, start, end), end.ssi, k.maxFactor, k.numSps), k.significantBits, k.numSps);
  }

  /** A retargeted difficulty is at least 1, at most the factor above its reference, and passes the
      significant-bits assertion. */
  lemma DifficultyBounds(k: Constants, start: Rec, end: Rec, reference: nat)
    requires k.Ok() && reference >= 1 && RetargetedDifficulty(k, start, end, reference).Some?
    ensures 1 <= RetargetedDifficulty(k, start, end, reference).value <= k.maxFactor * reference
    ensures BitSpan(RetargetedDifficulty(k, start, end, reference).value) <= k.significantBits
  {
    hide PreciseDifficulty, Clamp, IsPow2, Truncate, Fits, BitSpan;
    var clamped := Clamp(PreciseDifficulty(k, start, end), reference, k.maxFactor, 1);
    ClampBounds(PreciseDifficulty(k, start, end), reference, k.maxFactor, 1);
    assert Pow2(0) == 1;
    TruncateKeepsTop(clamped, k.significantBits, 0);
    DifficultyFits(k, start, end, reference);
  }

  /** Retargeted sub-slot iterations are a positive multiple of the number of signage points, at most
      the factor above the reference, and pass the significant-bits assertion. */
  lemma SsiBounds(k: Constants, start: Rec, end: Rec)
    requires k.Ok() && end.ssi >= k.numSps && RetargetedSsi(k, start, end).Some?
    ensures k.numSps <= RetargetedSsi(k, start, end).value <= k.maxFactor * end.ssi
    ensures RetargetedSsi(k, start, end).value % k.numSps == 0
    ensures BitSpan(RetargetedSsi(k, start, end).value) <= k.significantBits
  {
    hide PreciseSsi, Clamp, Truncate, Fits, RoundDown, IsPow2, BitSpan;
    var clamped := Clamp(PreciseSsi(k, start, end), end.ssi, k.maxFactor, k.numSps);
    ClampBounds(PreciseSsi(k, start, end), end.ssi, k.maxFactor, k.numSps);
    RoundedBounds(clamped, k.significantBits, k.numSps);
    SsiFits(k, start, end);
  }

  lemma RoundedBounds(x: nat, n: nat, m: nat)
    requires n >= 1 && IsPow2(m) && x >= m > 0
    ensures m <= RoundDown(Truncate(x, n), m) <= x
    ensures RoundDown(Truncate(x, n), m) % m == 0 && Fits(RoundDown(Truncate(x, n), m), n)
  {
    var j: nat :| j <= m && Pow2(j) == m;
    hide Truncate, Fits, IsPow2, Pow2;
    TruncateKeepsTop(x, n, j);
    TruncateFits(x, n);
    RoundDownFits(Truncate(x, n), n, j);
    RoundDownKeeps(Truncate(x, n), m);
  }

  lemma QuotientIs(x: nat, a: nat, b: nat)
    requires a > 0 && b > 0
    ensures (a * b) * Quotient(x, a, b) <= x < (a * b) * (Quotient(x, a, b) + 1)
  {
    MulPos(a, b);
    DivMod(x, a * b);
    MulSum(a * b, Quotient(x, a, b), 1);
  }

  /** Within the clamp the difficulty is, up to its significant bits, the weight per target number of
      blocks that the measured stretch gained in the target time of a sub-slot. */
  lemma DifficultyIsMeasured(k: Constants, start: Rec, end: Rec, reference: nat)
    requires k.Ok() && end.Time() > start.Time() && end.weight >= start.weight
    requires 1 <= PreciseDifficulty(k, start, end)
    requires reference / k.maxFactor <= PreciseDifficulty(k, start, end) <= k.maxFactor * reference
    ensures var t, p := k.slotBlocksTarget * (end.Time() - start.Time()), PreciseDifficulty(k, start, end);
      t * p <= (end.weight - start.weight) * k.timeTarget < t * (p + 1)
    ensures RetargetedDifficulty(k, start, end, reference).Some?
    ensures var p, d := PreciseDifficulty(k, start, end), RetargetedDifficulty(k, start, end, reference).value;
      d <= p && (p - d) * Pow2(k.significantBits - 1) < d
  {
    hide IsPow2, Truncate, Quotient, Pow2;
    QuotientIs((end.weight - start.weight) * k.timeTarget, k.slotBlocksTarget, end.Time() - start.Time());
    var p := PreciseDifficulty(k, start, end);
    hide PreciseDifficulty;
    WithinClamp(p, reference, k.maxFactor, 1);
    hide Clamp;
    TruncateIsClose(p, k.significantBits);
  }

  lemma WithinClamp(precise: nat, reference: nat, factor: nat, least: nat)
    requires factor > 0 && least <= precise && reference / factor <= precise <= factor * reference
    ensures Clamp(precise, reference, factor, least) == precise
  {
  }

  /** Within the clamp the sub-slot iterations are, up to significant bits and rounding to a multiple,
      the measured iterations per second times the target time of a sub-slot. */
  lemma SsiIsMeasured(k: Constants, start: Rec, end: Rec)
    requires k.Ok() && end.Time() > start.Time() && end.totalIters >= start.totalIters
    requires k.numSps <= PreciseSsi(k, start, end)
    requires end.ssi / k.maxFactor <= PreciseSsi(k, start, end) <= k.maxFactor * end.ssi
    ensures var p := PreciseSsi(k, start, end);
      && (end.Time() - start.Time()) * p <= k.timeTarget * (end.totalIters - start.totalIters)
      && k.timeTarget * (end.totalIters - start.totalIters) < (end.Time() - start.Time()) * (p + 1)
    ensures RetargetedSsi(k, start, end).Some?
    ensures var p, v := PreciseSsi(k, start, end), RetargetedSsi(k, start, end).value;
      var t := Truncate(p, k.significantBits);
      v <= t < v + k.numSps && t <= p && (p - t) * Pow2(k.significantBits - 1) < t
  {
    hide IsPow2, Truncate, Quotient, Pow2, RoundDown;
    QuotientIs(k.timeTarget * (end.totalIters - start.totalIters), 1, end.Time() - start.Time());
    var p := PreciseSsi(k, start, end);
    hide PreciseSsi;
    WithinClamp(p, end.ssi, k.maxFactor, k.numSps);
    hide Clamp;
    TruncateIsClose(p, k.significantBits);
    RoundsDown(Truncate(p, k.significantBits), k.numSps);
  }

  lemma RoundsDown(x: nat, m: nat)
    requires m > 0
    ensures RoundDown(x, m) <= x < RoundDown(x, m) + m
  {
  }

  // ---- The measured stretch -----------------------------------------------------------------------------------

  /** An epoch is finished within a bounded number of blocks after it is surpassed. */
  lemma FinishesSoon(k: Constants, c: seq<Rec>)
    requires k.Ok() && ValidHeaders(k, c) && c != [] && CanFinishEpoch(k, c)
    ensures k.epochBlocks <= WindowStart(k, |c|) <= |c| <= LastSummaryHeight(k, WindowStart(k, |c|))
    ensures WindowStart(k, |c|) % k.subEpochBlocks == 0 && WindowStart(k, |c|) % k.epochBlocks == 0
  {
    var w := WindowStart(k, |c|);
    AlignedWindow(|c|, k.subEpochBlocks, k.epochBlocks);
    hide ValidHeaders, WindowStart, IsPow2;
    if LastSummaryHeight(k, w) < |c| { SummaryIsForced(k, c, w); }
  }

  lemma AlignedWindow(x: nat, m: nat, e: nat)
    requires 0 < m <= x && e > 0 && (x - x % m) % e == 0
    ensures x - x % m >= e && (x - x % m) % m == 0
  {
    RoundDownKeeps(x, m);
    var w := x - x % m;
    DivExact(w, e);
    MulMono(1, w / e, e);
  }

  lemma SurpassIs(k: Constants, c: seq<Rec>, w: nat)
    requires k.Ok() && w % k.epochBlocks == 0 && w <= |c| <= LastSummaryHeight(k, w)
    ensures EpochSurpass(k, |c|) == w && HeightInNextEpoch(k, |c|) - w < 5 * k.maxSlotBlocks
  {
    var x, e := HeightInNextEpoch(k, |c|), k.epochBlocks;
    DivExact(w, e);
    DivModIs(x, e, w / e, x - w);
  }

  lemma MultipleDown(w: nat, e: nat, m: nat)
    requires m > 0 && e > 0 && e % m == 0 && w % e == 0 && w >= e
    ensures (w - e) % e == 0 && (w - e) % m == 0
  {
    DivExact(w, e);
    DivExact(e, m);
    var q, r := w / e, e / m;
    assert q >= 1;
    assert w - e == e * (q - 1);
    ModMultiple(q - 1, e);
    assert e * (q - 1) == m * (r * (q - 1));
    ModMultiple(r * (q - 1), m);
  }

  /** The block that opened the epoch starting at `w`. */
  lemma EpochOpens(k: Constants, c: seq<Rec>, w: nat) returns (s: nat)
    requires k.Ok() && ValidHeaders(k, c) && w > 0 && w % k.epochBlocks == 0 && w % k.subEpochBlocks == 0
    requires LastSummaryHeight(k, w) < |c|
    ensures w <= s <= LastSummaryHeight(k, w) && c[s].summary
    ensures forall i :: w <= i < s ==> !c[i].summary
    ensures CanFinishEpoch(k, c[..s])
  {
    SummaryIsForced(k, c, w);
    s := FirstSummaryFrom(c, w, LastSummaryHeight(k, w) + 1);
    SummaryAt(k, c, s);
    InWindow(k, w, s);
  }

  lemma {:induction false} TwoTxAfter(k: Constants, c: seq<Rec>, a: nat)
    requires k.Ok() && ValidHeaders(k, c) && a + 4 * k.maxSlotBlocks < |c|
    ensures SecondLastTx(c) > a
  {
    TxWithin(k, c, a);
    TxWithin(k, c, a + 2 * k.maxSlotBlocks);
    hide ValidHeaders;
    var x :| 0 <= x < |c| && a < x <= a + 2 * k.maxSlotBlocks && c[x].IsTx();
    var t := LastTxHeight(c);
    assert t > x;
    assert c[..t][x].IsTx();
  }

  lemma PrevEpoch(k: Constants, w: nat)
    requires k.Ok() && w % k.epochBlocks == 0 && w > k.epochBlocks
    ensures w - k.epochBlocks >= k.epochBlocks
    ensures (w - k.epochBlocks) % k.epochBlocks == 0 && (w - k.epochBlocks) % k.subEpochBlocks == 0
  {
    MultipleDown(w, k.epochBlocks, k.subEpochBlocks);
    DivExact(w - k.epochBlocks, k.epochBlocks);
    MulMono(1, (w - k.epochBlocks) / k.epochBlocks, k.epochBlocks);
  }

  /** In the first epoch the stretch starts at genesis. */
  lemma FirstMeasureStart(k: Constants, c: seq<Rec>)
    requires k.Ok() && ValidHeaders(k, c) && c != [] && CanFinishEpoch(k, c)
    requires WindowStart(k, |c|) == k.epochBlocks
    ensures MeasureStart(k, c) == Some(0)
  {
    FinishesSoon(k, c);
    SurpassIs(k, c, WindowStart(k, |c|));
    hide ValidHeaders, IsPow2, FirstSummaryFrom, SecondLastTx, EpochSurpass;
  }

  lemma {:induction false} EpochOpening(k: Constants, c: seq<Rec>) returns (s: nat)
    requires k.Ok() && ValidHeaders(k, c) && c != [] && CanFinishEpoch(k, c)
    requires WindowStart(k, |c|) > k.epochBlocks
    ensures var w := WindowStart(k, |c|);
      && EpochSurpass(k, |c|) == w && HeightInNextEpoch(k, |c|) - w < 5 * k.maxSlotBlocks && 2 * k.epochBlocks <= w
      && w - k.epochBlocks <= s <= LastSummaryHeight(k, w - k.epochBlocks) && s < |c| && c[s].summary
      && (forall i :: w - k.epochBlocks <= i < s ==> !c[i].summary)
      && WindowStart(k, s) == w - k.epochBlocks && CanFinishEpoch(k, c[..s]) && FetchEnd(k, |c|) < |c|
  {
    var w := WindowStart(k, |c|);
    FinishesSoon(k, c);
    SurpassIs(k, c, w);
    PrevEpoch(k, w);
    hide ValidHeaders, IsPow2, WindowStart, CanFinishEpoch, EpochSurpass, HeightInNextEpoch;
    s := EpochOpens(k, c, w - k.epochBlocks);
    InWindow(k, w - k.epochBlocks, s);
  }

  /** The fetched stretch always holds the block that opened the epoch, so the search for it neither
      runs past the end nor fails a sanity check, and stops at that block's parent. */
  lemma {:induction false} LaterMeasureStart(k: Constants, c: seq<Rec>) returns (s: nat)
    requires k.Ok() && ValidHeaders(k, c) && c != [] && CanFinishEpoch(k, c)
    requires WindowStart(k, |c|) > k.epochBlocks
    ensures 0 < s && s + 2 * k.maxSlotBlocks < |c| && c[s].summary && CanFinishEpoch(k, c[..s])
    ensures WindowStart(k, |c|) == WindowStart(k, s) + k.epochBlocks
    ensures MeasureStart(k, c) == AsOption(SecondLastTx(c[..s])) && SecondLastTx(c[..s]) >= 0
  {
    s := EpochOpening(k, c);
    var w, d := WindowStart(k, |c|), c[..|c| - 1];
    hide ValidHeaders, IsPow2, WindowStart, CanFinishEpoch, EpochSurpass, SecondLastTx, StartOn, HeightInNextEpoch;
    SearchFinds(k, |c|, d, w, s);
    assert d[..s] == c[..s];
    HeadersPrefix(k, c, s);
    TwoTxAfter(k, c[..s], 0);
  }

  lemma SearchFinds(k: Constants, n: nat, e: seq<Rec>, w: nat, s: nat)
    requires k.Ok() && EpochSurpass(k, n) == w && HeightInNextEpoch(k, n) - w < 5 * k.maxSlotBlocks
    requires 2 * k.epochBlocks <= w && FetchEnd(k, n) <= |e|
    requires w - k.epochBlocks <= s <= LastSummaryHeight(k, w - k.epochBlocks) && s < |e|
    requires e[s].summary && forall i :: w - k.epochBlocks <= i < s ==> !e[i].summary
    ensures StartOn(k, n, e) == AsOption(SecondLastTx(e[..s]))
  {
    var v := w - k.epochBlocks;
    hide IsPow2, EpochSurpass, HeightInNextEpoch, SecondLastTx, FirstSummaryFrom;
    FirstSummaryIs(e, v, v + 2 * k.maxSlotBlocks + k.minBlocks + 2, s);
  }

  lemma FirstSummaryIs(c: seq<Rec>, h: nat, limit: nat, s: nat)
    requires h <= s < limit <= |c| && c[s].summary && forall i :: h <= i < s ==> !c[i].summary
    ensures FirstSummaryFrom(c, h, limit) == s
  {
  }

  /** Stretches measured by consecutive retargets tile the chain: each starts at the very block where
      the one before it ended. */
  lemma MeasurementsTile(k: Constants, c: seq<Rec>) returns (s: nat)
    requires k.Ok() && ValidHeaders(k, c) && c != [] && CanFinishEpoch(k, c) && WindowStart(k, |c|) > k.epochBlocks
    ensures 0 < s < |c| && c[s].summary && CanFinishEpoch(k, c[..s])
    ensures WindowStart(k, |c|) == WindowStart(k, s) + k.epochBlocks
    ensures MeasureStart(k, c) == MeasureEnd(k, c[..s]) && MeasureStart(k, c).Some?
  {
    hide ValidHeaders, MeasureStart, MeasureEnd, WindowStart;
    s := LaterMeasureStart(k, c);
    HeadersPrefix(k, c, s);
    WalkEndsAtSecondLastTx(k, c[..s]);
  }

  /** The last transaction block below a height at which another one follows is no longer the last. */
  lemma TxMovesOn(c: seq<Rec>, s: nat, x: nat)
    requires s <= x < |c| && c[x].IsTx() && SecondLastTx(c[..s]) >= 0
    ensures SecondLastTx(c[..s]) < SecondLastTx(c)
  {
    var u, t := LastTxHeight(c[..s]), LastTxHeight(c);
    assert u < x <= t;
    assert c[..t][u] == c[u];
  }

  /** The stretch a retarget measures exists, runs between two transaction blocks and takes time. */
  lemma MeasuredStretch(k: Constants, c: seq<Rec>)
    requires k.Ok() && ValidHeaders(k, c) && c != [] && CanFinishEpoch(k, c)
    ensures MeasureStart(k, c).Some? && MeasureEnd(k, c).Some?
    ensures MeasureStart(k, c).value < MeasureEnd(k, c).value < |c|
    ensures c[MeasureStart(k, c).value].Time() < c[MeasureEnd(k, c).value].Time()
  {
    WalkEndsAtSecondLastTx(k, c);
    FinishesSoon(k, c);
    TxAt(k, c, 0);
    hide ValidHeaders, IsPow2, MeasureStart, MeasureEnd, WindowStart, CanFinishEpoch, SecondLastTx;
    if WindowStart(k, |c|) == k.epochBlocks {
      FirstMeasureStart(k, c);
      TwoTxAfter(k, c, 0);
    } else {
      var s := LaterMeasureStart(k, c);
      TxWithin(k, c, s - 1);
      var x :| 0 <= x < |c| && s - 1 < x && c[x].IsTx();
      TxMovesOn(c, s, x);
    }
    TimesIncrease(k, c, MeasureStart(k, c).value, SecondLastTx(c));
  }

  // ---- Parameters along a chain ---------------------------------------------------------------------------------

  lemma ParamsAt(k: Constants, c: seq<Rec>, j: nat)
    requires k.Ok() && ValidHeaders(k, c) && j < |c|
    ensures ValidHeaders(k, c[..j]) && ParamsOk(k, c[..j], c[j])
  {
    HeaderAt(k, c, j);
    hide ValidHeaders, ParamsOk, ItersOk, SummaryOk, OverflowOk, TxOk, SlotSizeOk, DeficitOk;
  }

  /** Every block adds a difficulty of at least 1. */
  lemma {:induction false} DifficultyIsPositive(k: Constants, c: seq<Rec>, j: nat)
    requires k.Ok() && ValidHeaders(k, c) && j < |c|
    ensures Difficulty(c, j) >= 1
    decreases j
  {
    hide ValidHeaders, NextDifficultyFrom, NextSsiFrom, IsPow2;
    ParamsAt(k, c, j);
    var d := c[..j];
    if j > 0 {
      DifficultyIsPositive(k, c, j - 1);
      assert Difficulty(c, j - 1) == Difficulty(d, j - 1);
      if j > 1 {
        DifficultyIsPositive(k, c, j - 2);
        assert Difficulty(c, j - 2) == Difficulty(d, j - 2);
      }
      NextDifficultyIsPositive(k, d, Walked, c[j].finished != []);
    }
  }

  lemma NextDifficultyIsPositive(k: Constants, c: seq<Rec>, via: Fetch, newSlot: bool)
    requires k.Ok() && c != [] && Difficulty(c, |c| - 1) >= 1 && (|c| > 1 ==> Difficulty(c, |c| - 2) >= 1)
    ensures var next := NextDifficultyFrom(k, c, via, newSlot);
      next.Some? ==> next.value >= 1
  {
    hide IsPow2, RetargetedDifficulty, StartVia, MeasureEnd, CanFinishEpoch, BitSpan;
    if StartVia(k, c, via).Some? && MeasureEnd(k, c).Some? && |c| > 1 {
      var a, b := StartVia(k, c, via).value, c[MeasureEnd(k, c).value];
      if RetargetedDifficulty(k, a, b, Difficulty(c, |c| - 2)).Some? {
        DifficultyBounds(k, a, b, Difficulty(c, |c| - 2));
      }
    }
  }

  /** Weight strictly increases along every valid chain. */
  lemma {:induction false} WeightIncreases(k: Constants, c: seq<Rec>, i: nat, j: nat)
    requires k.Ok() && ValidHeaders(k, c) && i < j < |c|
    ensures c[i].weight < c[j].weight
    decreases j
  {
    hide ValidHeaders;
    DifficultyIsPositive(k, c, j);
    if i < j - 1 { WeightIncreases(k, c, i, j - 1); }
  }

  lemma {:induction false} FirstEpochDifficulty(k: Constants, c: seq<Rec>)
    requires k.Ok() && ValidHeaders(k, c) && 0 < |c| <= k.epochBlocks - 3 * k.maxSlotBlocks
    ensures Difficulty(c, |c| - 1) == k.difficultyStarting
  {
    if |c| > 1 {
      FirstEpochDifficulty(k, c[..|c| - 1]);
      ParamsAt(k, c, |c| - 1);
      hide ValidHeaders, MeasureStart, MeasureEnd, RetargetedDifficulty, StartsEpoch, NextSsiFrom, IsPow2;
    }
  }

  /** Within an epoch the next block has the parameters of the last one. */
  lemma ParamsStay(k: Constants, c: seq<Rec>, newSlot: bool)
    requires k.Ok() && ValidHeaders(k, c) && c != [] && !StartsEpoch(k, c, newSlot)
    ensures NextParams(k, c, newSlot).Some?
    ensures NextParams(k, c, newSlot).value.ssi == c[|c| - 1].ssi
    ensures NextParams(k, c, newSlot).value.difficulty == Difficulty(c, |c| - 1)
  {
    hide ValidHeaders, MeasureStart, MeasureEnd, RetargetedDifficulty, RetargetedSsi, StartsEpoch, IsPow2;
    if |c| <= k.epochBlocks { FirstEpochSsi(k, c); }
    if |c| <= k.epochBlocks - 3 * k.maxSlotBlocks { FirstEpochDifficulty(k, c); }
    DifficultyIsPositive(k, c, |c| - 1);
  }

  lemma RetargetsExist(k: Constants, c: seq<Rec>)
    requires k.Ok() && ValidHeaders(k, c) && c != [] && CanFinishEpoch(k, c)
    ensures |c| > 1 && |c| >= k.epochBlocks && !c[|c| - 1].summary && Difficulty(c, |c| - 1) >= 1
    ensures MeasureStart(k, c).Some? && MeasureEnd(k, c).Some? && MeasureStart(k, c).value < |c| - 1
    ensures var a, b := c[MeasureStart(k, c).value], c[MeasureEnd(k, c).value];
      && RetargetedSsi(k, a, b).Some? && b.ssi >= k.numSps
      && Difficulty(c, |c| - 2) >= 1 && RetargetedDifficulty(k, a, b, Difficulty(c, |c| - 2)).Some?
  {
    FinishesSoon(k, c);
    MeasuredStretch(k, c);
    DifficultyIsPositive(k, c, |c| - 1);
    DifficultyIsPositive(k, c, |c| - 2);
    var a, b := MeasureStart(k, c).value, MeasureEnd(k, c).value;
    ValidFlows(k, c);
    TotalsNeverGoBack(k, c, a, b);
    WeightIncreases(k, c, a, b);
    hide ValidHeaders, IsPow2, MeasureStart, MeasureEnd, Truncate, Clamp, RoundDown, PreciseSsi, PreciseDifficulty,
      Flows;
  }

  /** Where a new epoch starts, the retarget succeeds and its results are bounded. */
  lemma ParamsRetarget(k: Constants, c: seq<Rec>)
    requires k.Ok() && ValidHeaders(k, c) && c != [] && CanFinishEpoch(k, c)
    ensures |c| > 1 && MeasureEnd(k, c).Some? && NextParams(k, c, true).Some?
    ensures var p := NextParams(k, c, true).value;
      && k.numSps <= p.ssi <= k.maxFactor * c[MeasureEnd(k, c).value].ssi && p.ssi % k.numSps == 0
      && 1 <= p.difficulty <= k.maxFactor * Difficulty(c, |c| - 2)
      && BitSpan(p.ssi) <= k.significantBits && BitSpan(p.difficulty) <= k.significantBits
  {
    RetargetsExist(k, c);
    hide ValidHeaders, IsPow2, BitSpan, MeasureStart, MeasureEnd, RetargetedSsi, RetargetedDifficulty, CanFinishEpoch;
    var a, b := MeasureStart(k, c).value, MeasureEnd(k, c).value;
    SsiBounds(k, c[a], c[b]);
    DifficultyBounds(k, c[a], c[b], Difficulty(c, |c| - 2));
  }

  /** On every valid chain the next parameters exist, the sub-slot iterations a positive multiple of
      the number of signage points and the difficulty at least 1. */
  lemma ParamsAreSane(k: Constants, c: seq<Rec>, newSlot: bool)
    requires k.Ok() && ValidHeaders(k, c)
    ensures NextParams(k, c, newSlot).Some?
    ensures NextParams(k, c, newSlot).value.ssi >= k.numSps && NextParams(k, c, newSlot).value.ssi % k.numSps == 0
    ensures NextParams(k, c, newSlot).value.difficulty >= 1
  {
    if c != [] {
      ValidFlows(k, c);
      assert Sized(k, c[|c| - 1]);
      DifficultyIsPositive(k, c, |c| - 1);
      hide ValidHeaders, IsPow2, NextParams, CanFinishEpoch, Flows;
      if StartsEpoch(k, c, newSlot) {
        ParamsRetarget(k, c);
      } else {
        ParamsStay(k, c, newSlot);
      }
    }
  }

  // ---- Fetching through the index -------------------------------------------------------------------------------

  lemma {:induction false} FirstSummaryUnique(c: seq<Rec>, e: seq<Rec>, h: nat, limit: nat)
    requires h <= limit <= |c| && limit <= |e| && forall i :: h <= i < limit ==> c[i] == e[i]
    ensures FirstSummaryFrom(c, h, limit) == FirstSummaryFrom(e, h, limit)
    decreases limit - h
  {
    if h < limit && !c[h].summary { FirstSummaryUnique(c, e, h + 1, limit); }
  }

  /** Where an epoch ends the search reads ancestors well below the last block. */
  lemma FetchEndsBelow(k: Constants, c: seq<Rec>)
    requires k.Ok() && ValidHeaders(k, c) && c != [] && CanFinishEpoch(k, c)
    ensures 0 <= FetchBegin(k, |c|) < FetchEnd(k, |c|) < |c| && SurpassOk(k, |c|)
    ensures EpochSurpass(k, |c|) - k.epochBlocks == 0 || EpochSurpass(k, |c|) - k.epochBlocks >= k.epochBlocks
  {
    var w := WindowStart(k, |c|);
    FinishesSoon(k, c);
    SurpassIs(k, c, w);
    if w > k.epochBlocks { PrevEpoch(k, w); }
    hide ValidHeaders, IsPow2, WindowStart, CanFinishEpoch, EpochSurpass, HeightInNextEpoch;
  }

  /** An index that reaches the last block's parent reaches every height the search fetches. */
  lemma FetchReaches(k: Constants, c: seq<Rec>, e: Paths)
    requires k.Ok() && ValidHeaders(k, c) && c != [] && CanFinishEpoch(k, c) && |c| - 1 <= |e|
    ensures FetchEnd(k, |c|) <= |e|
  {
    hide ValidHeaders, IsPow2, CanFinishEpoch, FetchEnd, FetchBegin;
    FetchEndsBelow(k, c);
  }

  /** Searching a chain by walking back is searching the list of its records. */
  lemma StartOnPaths(k: Constants, n: nat, d: seq<Rec>)
    requires k.epochBlocks > 0
    ensures StartFrom(k, n, PathsOf(d), true) ==
            (if StartOn(k, n, d).None? then None else Some(d[StartOn(k, n, d).value]))
  {
    hide EpochSurpass, HeightInNextEpoch, SecondLastTx, FirstSummaryFrom;
    assert Tips(PathsOf(d)) == d;
    var previous := EpochSurpass(k, n) - k.epochBlocks;
    if SurpassOk(k, n) && k.maxSlotBlocks + 1 <= previous < |d| {
      var s := FirstSummaryFrom(d, previous, Min(FetchEnd(k, n), |d|));
      if s < Min(FetchEnd(k, n), |d|) { assert PathsOf(d)[s - 1] == d[..s]; }
    }
  }

  lemma {:induction false} SearchShared(c: seq<Rec>, d: seq<Rec>, e: Paths, previous: nat, end: nat)
    requires 0 < previous < end < |c| && d == c[..|c| - 1] && NamesOwn(c, e, previous - 1, end) && end <= |e|
    ensures FirstSummaryFrom(Tips(e), previous, end) == FirstSummaryFrom(d, previous, end)
    ensures var s := FirstSummaryFrom(d, previous, end);
      e[s - 1] == d[..s]
  {
    forall h | previous <= h < end ensures Tips(e)[h] == d[h] { assert e[h] == c[..h + 1]; }
    FirstSummaryUnique(Tips(e), d, previous, end);
    hide FirstSummaryFrom;
    var s := FirstSummaryFrom(d, previous, end);
    assert e[s - 1] == c[..s] == d[..s];
  }

  lemma {:induction false} StartsAgree(k: Constants, c: seq<Rec>, d: seq<Rec>, e: Paths, s: nat)
    requires k.epochBlocks > 0 && c != [] && d == c[..|c| - 1] && SurpassOk(k, |c|)
    requires k.maxSlotBlocks < EpochSurpass(k, |c|) - k.epochBlocks < FetchEnd(k, |c|) < |c|
    requires EpochSurpass(k, |c|) > k.epochBlocks && FetchEnd(k, |c|) <= |e|
    requires s == FirstSummaryFrom(Tips(e), EpochSurpass(k, |c|) - k.epochBlocks, FetchEnd(k, |c|))
    requires s == FirstSummaryFrom(d, EpochSurpass(k, |c|) - k.epochBlocks, FetchEnd(k, |c|)) && e[s - 1] == d[..s]
    ensures StartVia(k, c, Indexed(e)) == StartVia(k, c, Walked)
  {
    hide EpochSurpass, SecondLastTx, FirstSummaryFrom, SurpassOk, FetchEnd, Tips;
  }

  lemma {:induction false} FirstStartShared(k: Constants, c: seq<Rec>, e: Paths)
    requires k.epochBlocks > 0 && |c| > 1 && SurpassOk(k, |c|) && EpochSurpass(k, |c|) == k.epochBlocks
    requires NamesOwn(c, e, 0, 1)
    ensures StartVia(k, c, Indexed(e)) == StartVia(k, c, Walked)
  {
    hide EpochSurpass, SurpassOk;
    assert e[0] == c[..1];
  }

  lemma {:induction false} LaterStartShared(k: Constants, c: seq<Rec>, e: Paths, previous: nat, end: nat)
    requires k.epochBlocks > 0 && c != [] && SurpassOk(k, |c|) && EpochSurpass(k, |c|) == previous + k.epochBlocks
    requires k.maxSlotBlocks < previous < end < |c| && end == FetchEnd(k, |c|)
    requires NamesOwn(c, e, previous - 1, end)
    ensures StartVia(k, c, Indexed(e)) == StartVia(k, c, Walked)
  {
    hide EpochSurpass, FirstSummaryFrom, SurpassOk, Tips, FetchEnd, StartVia;
    var d := c[..|c| - 1];
    SearchShared(c, d, e, previous, end);
    StartsAgree(k, c, d, e, FirstSummaryFrom(d, previous, end));
  }

  lemma NamesOwnPart(c: seq<Rec>, e: Paths, begin: int, end: int, from: int)
    requires NamesOwn(c, e, begin, end) && begin <= from
    ensures NamesOwn(c, e, from, end)
  {
  }

  /** An indexed fetch gives the start of the measured stretch, when what it reads is shared. */
  lemma {:induction false} SharedStart(k: Constants, c: seq<Rec>, e: Paths)
    requires k.Ok() && ValidHeaders(k, c) && c != [] && CanFinishEpoch(k, c) && FetchesOwn(k, c, Indexed(e))
    ensures StartVia(k, c, Indexed(e)) == StartVia(k, c, Walked)
  {
    FetchEndsBelow(k, c);
    hide ValidHeaders, IsPow2, CanFinishEpoch, EpochSurpass, SurpassOk, NamesOwn, StartVia;
    var previous, end := EpochSurpass(k, |c|) - k.epochBlocks, FetchEnd(k, |c|);
    if previous == 0 {
      FirstStartShared(k, c, e);
    } else {
      NamesOwnPart(c, e, FetchBegin(k, |c|), end, previous - 1);
      LaterStartShared(k, c, e, previous, end);
    }
  }

  /** Whether the blocks around the previous epoch's end are fetched by walking back or through the index,
      the parameters are those the block's own ancestors prescribe, as long as what is read is shared. */
  lemma FetchAgrees(k: Constants, c: seq<Rec>, via: Fetch, newSlot: bool)
    requires k.Ok() && ValidHeaders(k, c) && c != []
    requires CanFinishEpoch(k, c) ==> FetchesOwn(k, c, via)
    ensures NextParamsFrom(k, c, via, newSlot) == NextParams(k, c, newSlot)
  {
    hide ValidHeaders, IsPow2, CanFinishEpoch, StartVia, MeasureEnd, RetargetedSsi, RetargetedDifficulty;
    if StartsEpoch(k, c, newSlot) && via.Indexed? { SharedStart(k, c, via.paths); }
  }

  /** `f` is the height of the last record two chains share, -1 if they share none. */
  ghost predicate SharesUpTo(c: seq<Rec>, e: seq<Rec>, f: int)
  {
    && -1 <= f < |c| && f < |e|
    && (forall i :: 0 <= i <= f ==> c[i] == e[i])
    && (forall i :: f < i < |c| && i < |e| ==> c[i] != e[i])
  }

  /** The index `e` names the peak's chain `d` as far as that goes; above it, whatever earlier peaks left. */
  predicate IndexOver(d: seq<Rec>, e: Paths)
  {
    |d| <= |e| && forall h :: 0 <= h < |d| ==> e[h] == d[..h + 1]
  }

  lemma {:induction false} NamesOwnIff(c: seq<Rec>, d: seq<Rec>, e: Paths, f: int, begin: nat, end: nat)
    requires begin < end <= |c| && end <= |e| && IndexOver(d, e) && SharesUpTo(c, d, f)
    ensures NamesOwn(c, e, begin, end) <==>
            (Min(end, |d|) <= begin || Min(end, |d|) - 1 <= f) && NamesOwn(c, e, Max(begin, |d|), end)
  {
    forall h | 0 <= h < |d| && h < |c| ensures e[h] == c[..h + 1] <==> h <= f {
      assert e[h] == d[..h + 1] && d[..h + 1][h] == d[h] && c[..h + 1][h] == c[h];
    }
    var top := Min(end, |d|) - 1;
    if NamesOwn(c, e, begin, end) && begin <= top { assert e[top] == c[..top + 1]; }
  }

  /** What an indexed fetch reads is the block's own ancestors exactly when the part of it up to the peak is
      at or below the fork with the peak's chain, and the entries it reads above the peak are own ancestors. */
  lemma {:induction false} FetchesOwnIff(k: Constants, c: seq<Rec>, d: seq<Rec>, e: Paths, f: int)
    requires k.Ok() && ValidHeaders(k, c) && c != [] && CanFinishEpoch(k, c)
    requires IndexOver(d, e) && SharesUpTo(c, d, f) && |c| - 1 <= |e|
    ensures var begin, end := FetchBegin(k, |c|), FetchEnd(k, |c|);
      FetchesOwn(k, c, Indexed(e)) <==>
      (Min(end, |d|) <= begin || Min(end, |d|) - 1 <= f) && NamesOwn(c, e, Max(begin, |d|), end)
  {
    FetchEndsBelow(k, c);
    hide ValidHeaders, CanFinishEpoch, IsPow2, FetchEnd, FetchBegin, SurpassOk, EpochSurpass, NamesOwn, IndexOver,
      SharesUpTo;
    NamesOwnIff(c, d, e, f, FetchBegin(k, |c|), FetchEnd(k, |c|));
  }
}
