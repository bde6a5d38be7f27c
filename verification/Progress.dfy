/** Valid chains can be extended, and epochs do end. */
module Progress {
  import opened Coins
  import opened Arith
  import opened PotIterations
  import opened Headers
  import opened SignagePoints
  import opened Deficits
  import opened SubEpochs
  import opened Retargets
  import opened HeaderValidation

  /** Where the next sub-slot starts. */
  function NextStart(k: Constants, c: seq<Rec>, ssi: nat): int
    requires k.numSps > 0
  {
    if c == [] then ssi else SlotStart(k, c[|c| - 1]) + c[|c| - 1].ssi
  }

  function DeficitInNewSlot(k: Constants, c: seq<Rec>): nat
    requires k.minBlocks >= 1
  {
    if c == [] then k.minBlocks - 1 else NextDeficit(k, c[|c| - 1].deficit, false, 1)
  }

  function Later(k: Constants, start: nat, ssi: nat): nat
    requires k.numSps > 0
  {
    start + k.extra * Interval(k, ssi) + 1
  }

  /** A transaction block at the first signage point of the next sub-slot. */
  function NextBlock(k: Constants, c: seq<Rec>, params: Params, start: nat): Rec
    requires k.numSps > 0 && k.minBlocks >= 1 && k.subEpochBlocks > 0
  {
    Rec(params.difficulty + (if c == [] then 0 else c[|c| - 1].weight), Later(k, start, params.ssi),
        0, 1, params.ssi, DeficitInNewSlot(k, c),
        Some(if LastTxHeight(c) < 0 then 0 else c[LastTxHeight(c)].Time() + 1),
        [Slot(0, 0, 0, 0, SlotDeficit(k, c))],
        c != [] && CanFinishSubEpoch(k, c))
  }

  /** It starts its sub-slot with its signage point. */
  lemma NextBlockIters(k: Constants, c: seq<Rec>, params: Params, start: nat)
    requires k.Ok() && params.ssi >= 2 * k.numSps && params.ssi % k.numSps == 0
    ensures var b := NextBlock(k, c, params, start);
      SlotStart(k, b) == start && SpTotal(k, b) == start && !Overflow(k, b) && Sized(k, b)
  {
    hide NextDeficit, CanFinishSubEpoch, LastTxHeight, IsPow2;
    ManyIntervals(params.ssi, k.numSps);
  }

  lemma NextStartIsLater(k: Constants, c: seq<Rec>, ssi: nat)
    requires k.Ok() && ValidHeaders(k, c)
    ensures NextStart(k, c, ssi) >= 0 && (c != [] ==> NextStart(k, c, ssi) > c[|c| - 1].totalIters)
  {
    hide ValidHeaders;
    if c != [] {
      ValidFlows(k, c);
      InfusedAfterSp(k, c[|c| - 1]);
    }
  }

  lemma ManyIntervals(ssi: nat, n: nat)
    requires n > 0 && ssi % n == 0
    ensures ssi / n >= 2 <==> ssi >= 2 * n
  {
    DivExact(ssi, n);
    if ssi / n >= 2 {
      MulMono(2, ssi / n, n);
    } else {
      MulMono(ssi / n, 1, n);
    }
  }

  lemma NextBlockIsTx(k: Constants, c: seq<Rec>, b: Rec)
    requires k.Ok() && ValidHeaders(k, c) && c != [] && SpTotal(k, b) > c[|c| - 1].totalIters
    requires b.timestamp == Some(if LastTxHeight(c) < 0 then 0 else c[LastTxHeight(c)].Time() + 1)
    ensures TxOk(k, c, b)
  {
    hide ValidHeaders, SpTotal;
    ValidFlows(k, c);
    FactsOfChain(k, c);
    TotalsNeverGoBack(k, c, LastTxHeight(c), |c| - 1);
  }

  /** Every valid chain can be extended by a block in a new sub-slot, exactly when an interval of the
      prescribed sub-slot iterations has room for a proof: sub-slot iterations equal to the number of
      signage points would stop the chain. */
  lemma CanBeExtended(k: Constants, c: seq<Rec>)
    requires k.Ok() && ValidHeaders(k, c)
    ensures NextParams(k, c, true).Some?
    ensures (exists b :: ValidNext(k, c, b) && b.finished != []) <==> NextParams(k, c, true).value.ssi >= 2 * k.numSps
  {
    ParamsAreSane(k, c, true);
    var ssi := NextParams(k, c, true).value.ssi;
    if ssi >= 2 * k.numSps {
      NextBlockIsValid(k, c);
    } else {
      forall b | ValidNext(k, c, b) && b.finished != [] ensures false { NoRoom(k, c, b); }
    }
  }

  lemma NoRoom(k: Constants, c: seq<Rec>, b: Rec)
    requires k.Ok() && ValidNext(k, c, b)
    ensures NextParams(k, c, b.finished != []).value.ssi >= 2 * k.numSps
  {
    hide NextParams, IsPow2, ItersOk, SummaryOk, SlotSizeOk, OverflowOk, TxOk, DeficitOk;
    ManyIntervals(b.ssi, k.numSps);
  }

  lemma NextBlockIsValid(k: Constants, c: seq<Rec>)
    requires k.Ok() && ValidHeaders(k, c) && NextParams(k, c, true).Some?
    requires NextParams(k, c, true).value.ssi >= 2 * k.numSps && NextParams(k, c, true).value.ssi % k.numSps == 0
    ensures var params := NextParams(k, c, true).value;
      && NextStart(k, c, params.ssi) >= 0
      && ValidNext(k, c, NextBlock(k, c, params, NextStart(k, c, params.ssi)))
  {
    hide ValidHeaders, IsPow2, NextDeficit, CanFinishSubEpoch, LastTxHeight, SlotStart, SpTotal, Sized, NextParams,
      TxOk, Overflow, Later;
    var params := NextParams(k, c, true).value;
    NextStartIsLater(k, c, params.ssi);
    var start := NextStart(k, c, params.ssi);
    NextBlockIters(k, c, params, start);
    var b := NextBlock(k, c, params, start);
    if c != [] {
      NextBlockIsTx(k, c, b);
    } else {
      FirstHeaderIsTx(k, b);
    }
  }

  lemma FirstHeaderIsTx(k: Constants, b: Rec)
    requires k.numSps > 0 && b.IsTx()
    ensures TxOk(k, [], b)
  {
  }

  // ---- A whole first epoch -----------------------------------------------------------------------------------

  lemma FirstEpochParams(k: Constants, c: seq<Rec>)
    requires k.Ok() && ValidHeaders(k, c) && (c == [] || !CanFinishEpoch(k, c))
    requires |c| <= k.epochBlocks || c[|c| - 1].ssi == k.ssiStarting
    ensures NextParams(k, c, true).Some? && NextParams(k, c, true).value.ssi == k.ssiStarting
  {
    if c != [] {
      hide ValidHeaders, NextParams, IsPow2, CanFinishEpoch;
      ParamsStay(k, c, true);
      if |c| <= k.epochBlocks { FirstEpochSsi(k, c); }
    }
  }

  lemma ExtendBy(k: Constants, c: seq<Rec>) returns (d: seq<Rec>)
    requires k.Ok() && ValidHeaders(k, c) && k.ssiStarting >= 2 * k.numSps && (c == [] || !CanFinishEpoch(k, c))
    requires |c| <= k.epochBlocks || c[|c| - 1].ssi == k.ssiStarting
    ensures ValidHeaders(k, d) && |d| == |c| + 1 && d[..|c|] == c
    ensures d[|c|].ssi == k.ssiStarting && d[|c|].finished != [] && !Overflow(k, d[|c|])
  {
    hide ValidHeaders, NextParams, IsPow2, CanFinishEpoch, ValidNext;
    FirstEpochParams(k, c);
    NextBlockIsValid(k, c);
    var params := NextParams(k, c, true).value;
    var b := NextBlock(k, c, params, NextStart(k, c, params.ssi));
    NextBlockIters(k, c, params, NextStart(k, c, params.ssi));
    Extend(k, c, b);
    d := c + [b];
  }

  lemma TooShort(k: Constants, c: seq<Rec>)
    requires k.Ok() && ValidHeaders(k, c) && c != [] && |c| < k.epochBlocks
    ensures !CanFinishEpoch(k, c)
  {
    hide ValidHeaders, IsPow2;
    if CanFinishEpoch(k, c) { FinishesSoon(k, c); }
  }

  lemma {:induction false} ChainOfLength(k: Constants, n: nat) returns (c: seq<Rec>)
    requires k.Ok() && k.ssiStarting >= 2 * k.numSps && n <= k.epochBlocks
    ensures ValidHeaders(k, c) && |c| == n
  {
    hide IsPow2, CanFinishEpoch;
    if n == 0 {
      c := [];
    } else {
      hide ValidHeaders;
      var d := ChainOfLength(k, n - 1);
      if d != [] { TooShort(k, d); }
      c := ExtendBy(k, d);
    }
  }

  predicate NearlyDone(k: Constants, c: seq<Rec>)
    requires k.Ok()
  {
    && k.epochBlocks <= |c| && |c| + c[|c| - 1].deficit <= k.epochBlocks + k.minBlocks
    && ValidHeaders(k, c) && c[|c| - 1].ssi == k.ssiStarting
    && forall j :: k.epochBlocks - 1 <= j < |c| ==> !c[j].summary
  }

  lemma DoneAtZero(k: Constants, c: seq<Rec>)
    requires k.Ok() && NearlyDone(k, c)
    ensures CanFinishEpoch(k, c) <==> c[|c| - 1].deficit == 0
  {
    hide ValidHeaders, IsPow2;
    ModMultiple(1, k.epochBlocks);
    InWindow(k, k.epochBlocks, |c|);
    hide WindowStart;
  }

  /** One more block takes one off the deficit and brings no summary. */
  lemma OneCloser(k: Constants, c: seq<Rec>) returns (d: seq<Rec>)
    requires k.Ok() && k.ssiStarting >= 2 * k.numSps && NearlyDone(k, c) && c[|c| - 1].deficit > 0
    ensures NearlyDone(k, d) && |d| == |c| + 1 && d[|d| - 1].deficit < c[|c| - 1].deficit
  {
    hide ValidHeaders, IsPow2, Overflow;
    assert !CanFinishSubEpoch(k, c);
    d := ExtendBy(k, c);
    DeficitAt(k, d, |c|);
    DeficitRange(k, d, |c| - 1);
    SummaryAt(k, d, |c|);
    hide CanFinishSubEpoch;
    assert d[|c| - 1] == c[|c| - 1];
    forall j | k.epochBlocks - 1 <= j < |d| ensures !d[j].summary { assert j < |c| ==> d[j] == c[j]; }
  }

  lemma {:induction false} WorkOffDeficit(k: Constants, c: seq<Rec>) returns (d: seq<Rec>)
    requires k.Ok() && k.ssiStarting >= 2 * k.numSps && NearlyDone(k, c)
    ensures k.epochBlocks <= |d| <= k.epochBlocks + k.minBlocks && ValidHeaders(k, d) && CanFinishEpoch(k, d)
    decreases c[|c| - 1].deficit
  {
    hide IsPow2, CanFinishEpoch, ValidHeaders;
    DoneAtZero(k, c);
    d := c;
    if c[|c| - 1].deficit > 0 {
      var e := OneCloser(k, c);
      d := WorkOffDeficit(k, e);
    }
  }

  /** A first epoch can be completed: there are valid chains after which the next sub-slot opens a new
      epoch, so retargets do happen. */
  lemma EpochCanEnd(k: Constants) returns (c: seq<Rec>)
    requires k.Ok() && k.ssiStarting >= 2 * k.numSps
    ensures k.epochBlocks <= |c| <= k.epochBlocks + k.minBlocks && ValidHeaders(k, c) && CanFinishEpoch(k, c)
  {
    hide IsPow2, ValidHeaders, CanFinishEpoch;
    c := ChainOfLength(k, k.epochBlocks);
    FirstEpochSsi(k, c);
    DeficitRange(k, c, |c| - 1);
    NoSummaryAtWindowEnd(k, c, k.epochBlocks);
    c := WorkOffDeficit(k, c);
  }

  // ---- Fetching the wrong blocks ------------------------------------------------------------------------------

  lemma LateGenesis(k: Constants, time: nat) returns (g: Rec)
    requires k.Ok() && k.ssiStarting >= 2 * k.numSps
    ensures ValidHeaders(k, [g]) && g.Time() == time
  {
    hide IsPow2;
    var params := Params(k.ssiStarting, k.difficultyStarting);
    NextBlockIsValid(k, []);
    var b := NextBlock(k, [], params, k.ssiStarting);
    assert ValidNext(k, [], b);
    g := b.(timestamp := Some(time));
    assert SpTotal(k, g) == SpTotal(k, b) && SlotStart(k, g) == SlotStart(k, b);
    hide SpTotal, SlotStart, NextParams;
    assert ValidNext(k, [], g);
    assert [g][..0] == [];
  }

  /** The height index after a reorganisation from the chain `c` to the lower `d`. */
  function IndexAfter(d: seq<Rec>, c: seq<Rec>): (e: Paths)
    requires |d| <= |c|
    ensures |e| == |c| && IndexOver(d, e)
  {
    seq(|c|, h requires 0 <= h < |c| => if h < |d| then d[..h + 1] else c[..h + 1])
  }

  /** A retarget whose search reads another chain's blocks can go wrong: there is a valid chain about to
      open an epoch and another valid chain, the peak's after a reorganisation, such that through the index
      the retarget raises, while the first chain's own blocks prescribe parameters. */
  lemma ForeignFetchFails(k: Constants) returns (c: seq<Rec>, d: seq<Rec>)
    requires k.Ok() && k.ssiStarting >= 2 * k.numSps
    ensures ValidHeaders(k, c) && c != [] && CanFinishEpoch(k, c) && ValidHeaders(k, d) && |d| == 2 < |c|
    ensures NextParams(k, c, true).Some? && NextParamsFrom(k, c, Indexed(IndexAfter(d, c[..|c| - 1])), true).None?
  {
    hide IsPow2, ValidHeaders;
    c := EpochCanEnd(k);
    ParamsAreSane(k, c, true);
    MeasuredStretch(k, c);
    var g := LateGenesis(k, c[MeasureEnd(k, c).value].Time());
    assert !CanFinishEpoch(k, [g]);
    d := ExtendBy(k, [g]);
    assert d[..1][0] == d[0];
    var e := IndexAfter(d, c[..|c| - 1]);
    FirstSearch(k, c, e);
    hide CanFinishEpoch, StartFrom, MeasureEnd, MeasureStart, NextSsiFrom;
    assert StartVia(k, c, Indexed(e)) == Some(g);
    assert !c[|c| - 1].summary && StartsEpoch(k, c, true);
  }

  lemma {:induction false} FirstSearch(k: Constants, c: seq<Rec>, e: Paths)
    requires k.Ok() && k.epochBlocks <= |c| <= k.epochBlocks + k.minBlocks
    requires ValidHeaders(k, c) && CanFinishEpoch(k, c) && e != []
    ensures StartFrom(k, |c|, e, false) == Some(e[0][0]) && !c[|c| - 1].summary
  {
    ModMultiple(1, k.epochBlocks);
    InWindow(k, k.epochBlocks, |c|);
    SurpassIs(k, c, k.epochBlocks);
    hide ValidHeaders, IsPow2, EpochSurpass, WindowStart;
  }
}
