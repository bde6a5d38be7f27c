/** The searches behind sub-epoch boundaries and retargets, as the node runs them. Walks follow the chain
    `c`, whose last block is the one at `height`. The records around the previous epoch's end are fetched by
    height, walking back or through the index. */
module DifficultyAdjustment {
  import opened Coins
  import opened Arith
  import opened PotIterations
  import opened SignificantBits
  import opened Headers
  import opened Retargets

  lemma OffsetInWindow(k: Constants, x: nat, w: nat)
    requires k.subEpochBlocks > 0 && w % k.subEpochBlocks == 0 && w <= x < w + k.subEpochBlocks
    ensures x % k.subEpochBlocks == x - w
  {
    var m := k.subEpochBlocks;
    DivExact(w, m);
    DivModIs(x, m, w / m, x - w);
  }

  lemma WindowIsAligned(k: Constants, x: nat)
    requires k.subEpochBlocks > 0
    ensures WindowStart(k, x) % k.subEpochBlocks == 0
  {
    var m := k.subEpochBlocks;
    assert WindowStart(k, x) == m * (x / m);
    ModMultiple(x / m, m);
  }

  /** Whether the sub-slot after the last block starts a new sub-epoch, and a new epoch. */
  method CanFinishSubAndFullEpoch(k: Constants, c: seq<Rec>) returns (subEpoch: bool, epoch: bool)
    requires k.subEpochBlocks > 1 && k.epochBlocks > 0 && c != []
    ensures subEpoch == CanFinishSubEpoch(k, c) && epoch == CanFinishEpoch(k, c)
  {
    var height := |c| - 1;
    if height < k.subEpochBlocks - 1 { return false, false; }
    if c[height].deficit > 0 { return false, false; }
    if c[height].summary { return false, false; }
    ghost var w := WindowStart(k, height + 1);
    WindowIsAligned(k, height + 1);
    OffsetInWindow(k, height + 1, w);
    if (height + 1) % k.subEpochBlocks > 1 {
      var curr := height - 1;
      OffsetInWindow(k, curr, w);
      while curr % k.subEpochBlocks > 0
        invariant w <= curr < height && curr % k.subEpochBlocks == curr - w
        invariant forall j :: curr < j < |c| ==> !c[j].summary
        decreases curr
      {
        if c[curr].summary { return false, false; }
        curr := curr - 1;
        OffsetInWindow(k, curr, w);
      }
      if c[curr].summary { return false, false; }
    }
    return true, (height + 1 - (height + 1) % k.subEpochBlocks) % k.epochBlocks == 0;
  }

  /** Walk back from the block at height `from` to the second-to-last transaction block. */
  method BacktrackToSecondTx(c: seq<Rec>, from: nat) returns (r: Option<nat>)
    requires from < |c|
    ensures r == AsOption(SecondLastTx(c[..from + 1]))
  {
    ghost var d := c[..from + 1];
    var curr, found := from, if c[from].IsTx() then 1 else 0;
    while found < 2
      invariant 0 <= curr <= from && found <= 2
      invariant found == 0 ==> LastTxHeight(d) < curr
      invariant found == 1 ==> LastTxHeight(d) >= curr > SecondLastTx(d)
      invariant found == 2 ==> SecondLastTx(d) == curr
      decreases curr, 2 - found
    {
      if curr == 0 { return None; }
      curr := curr - 1;
      assert c[curr] == d[curr];
      if LastTxHeight(d) > curr { assert d[..LastTxHeight(d)][curr] == c[curr]; }
      if c[curr].IsTx() { found := found + 1; }
    }
    return Some(curr);
  }

  /** The start of the measured stretch: find the block that opened the epoch now ending, in a fetched
      stretch around the height where it could open first, then backtrack. */
  method SecondToLastTxInPreviousEpoch(k: Constants, c: seq<Rec>, via: Fetch) returns (r: Option<Rec>)
    requires k.Ok() && c != []
    ensures r == StartVia(k, c, via)
  {
    hide IsPow2, StartFrom, StartOn, PathsOf;
    match via
    case Walked =>
      StartOnPaths(k, |c|, c[..|c| - 1]);
      r := SearchFetched(k, |c|, PathsOf(c[..|c| - 1]), true);
    case Indexed(e) =>
      r := SearchFetched(k, |c|, e, false);
  }

  method SearchFetched(k: Constants, n: nat, e: Paths, clipped: bool) returns (r: Option<Rec>)
    requires k.Ok()
    ensures r == StartFrom(k, n, e, clipped)
  {
    hide IsPow2, FirstSummaryFrom, SecondLastTx, HeightInNextEpoch, Tips;
    var inNext := HeightInNextEpoch(k, n);
    var surpass := inNext - inNext % k.epochBlocks;
    var previous := surpass - k.epochBlocks;
    if previous < 0 || inNext - surpass >= 5 * k.maxSlotBlocks { return None; }
    if previous == 0 {
      return if e == [] then None else Some(e[0][0]);
    }
    var start := previous - k.maxSlotBlocks - 1;
    var limit := start + 3 * k.maxSlotBlocks + k.minBlocks + 3;
    assert start == FetchBegin(k, n) && limit == FetchEnd(k, n);
    if start < 0 || (!clipped && limit > |e|) { return None; }
    if limit > |e| { limit := |e|; }
    if previous >= |e| { return None; }
    var opens := FindOpening(k, e, e[start..limit], start, limit);
    if opens.None? { return None; }
    var path := e[opens.value - 1];
    var t := BacktrackToSecondTx(path, |path| - 1);
    assert path[..|path|] == path;
    r := if t.None? then None else Some(path[t.value]);
  }

  /** The first block from the surpassed height on with a summary. The loop looks at the first of
      them twice before it moves on. */
  method FindOpening(k: Constants, e: Paths, fetched: seq<seq<Rec>>, start: nat, limit: nat) returns (r: Option<nat>)
    requires k.Ok() && start + k.maxSlotBlocks + 1 < limit <= |e| && fetched == e[start..limit]
    ensures var s := FirstSummaryFrom(Tips(e), start + k.maxSlotBlocks + 1, limit);
      r == if s == limit then None else Some(s)
  {
    ghost var first := start + k.maxSlotBlocks + 1;
    var index := k.maxSlotBlocks;
    var curr := start + index;
    index := index + 1;
    var next := start + index;
    while !fetched[next - start][next].summary
      invariant first <= next < limit && k.maxSlotBlocks < index <= |fetched|
      invariant if index == k.maxSlotBlocks + 1 then next == first && curr == next - 1
                else next == start + index - 1 && curr == if next == first then first else next - 1
      invariant index > k.maxSlotBlocks + 1 ==> !Tips(e)[first].summary
      invariant forall i :: first <= i < next ==> !Tips(e)[i].summary
      decreases |fetched| - index
    {
      curr := next;
      if index == |fetched| {
        assert forall i :: first <= i < limit ==> !Tips(e)[i].summary;
        return None;
      }
      next := start + index;
      index := index + 1;
    }
    assert Tips(e)[next].summary && curr == next - 1;
    return Some(curr + 1);
  }

  /** The end of the measured stretch. */
  method LastTxBeforeSignagePoint(k: Constants, c: seq<Rec>) returns (r: Option<nat>)
    requires k.Ok() && c != []
    ensures r == MeasureEnd(k, c)
  {
    var sp := SpTotal(k, c[|c| - 1]);
    if |c| == 1 { return None; }
    var last := |c| - 2;
    while c[last].totalIters > sp || !c[last].IsTx()
      invariant 0 <= last < |c| - 1 && LastTxNotAfter(c, |c| - 1, sp) <= last
      decreases last
    {
      if last == 0 { return None; }
      last := last - 1;
    }
    return Some(last);
  }

  method NextDifficultyAfter(k: Constants, c: seq<Rec>, via: Fetch, newSlot: bool, current: nat)
    returns (r: Option<nat>)
    requires k.Ok() && c != [] && !c[|c| - 1].summary && current == Difficulty(c, |c| - 1)
    ensures r == NextDifficultyFrom(k, c, via, newSlot)
  {
    if |c| < k.epochBlocks - 3 * k.maxSlotBlocks { return Some(k.difficultyStarting); }
    var _, epoch := CanFinishSubAndFullEpoch(k, c);
    if !newSlot || !epoch { return Some(current); }
    hide CanFinishEpoch, StartVia, MeasureEnd, RetargetedDifficulty;
    var start := SecondToLastTxInPreviousEpoch(k, c, via);
    var end := LastTxBeforeSignagePoint(k, c);
    if start.None? || end.None? || Difficulty(c, |c| - 2) < 0 { return None; }
    r := RetargetDifficulty(k, start.value, c[end.value], Difficulty(c, |c| - 2));
  }

  method NextSsiAfter(k: Constants, c: seq<Rec>, via: Fetch, newSlot: bool) returns (r: Option<nat>)
    requires k.Ok() && c != [] && !c[|c| - 1].summary
    ensures r == NextSsiFrom(k, c, via, newSlot)
  {
    if |c| < k.epochBlocks { return Some(k.ssiStarting); }
    var _, epoch := CanFinishSubAndFullEpoch(k, c);
    if !newSlot || !epoch { return Some(c[|c| - 1].ssi); }
    hide CanFinishEpoch, StartVia, MeasureEnd, RetargetedSsi;
    var start := SecondToLastTxInPreviousEpoch(k, c, via);
    var end := LastTxBeforeSignagePoint(k, c);
    if start.None? || end.None? { return None; }
    r := RetargetSsi(k, start.value, c[end.value]);
  }

  /** The retarget arithmetic with its closing assertion, which never fails. */
  method RetargetDifficulty(k: Constants, start: Rec, end: Rec, reference: nat) returns (r: Option<nat>)
    requires k.Ok()
    ensures r == RetargetedDifficulty(k, start, end, reference)
    ensures r.Some? ==> BitSpan(r.value) <= k.significantBits
  {
    r := RetargetedDifficulty(k, start, end, reference);
    if r.Some? {
      DifficultyFits(k, start, end, reference);
      var count := CountSignificantBits(r.value);
      assert count <= k.significantBits;
    }
  }

  method RetargetSsi(k: Constants, start: Rec, end: Rec) returns (r: Option<nat>)
    requires k.Ok()
    ensures r == RetargetedSsi(k, start, end)
    ensures r.Some? ==> BitSpan(r.value) <= k.significantBits
  {
    r := RetargetedSsi(k, start, end);
    if r.Some? {
      SsiFits(k, start, end);
      var count := CountSignificantBits(r.value);
      assert count <= k.significantBits;
    }
  }

  /** Sub-slot iterations and difficulty of the next block. */
  method NextSubSlotItersAndDifficulty(k: Constants, c: seq<Rec>, via: Fetch, newSlot: bool)
    returns (r: Option<Params>)
    requires k.Ok()
    ensures r == NextParamsFrom(k, c, via, newSlot)
  {
    if c == [] { return Some(Params(k.ssiStarting, k.difficultyStarting)); }
    hide NextSsiFrom, NextDifficultyFrom, SpTotal;
    var prev := c[|c| - 1];
    var current := Difficulty(c, |c| - 1);
    NextAfterSummary(k, c, via, newSlot);
    if current < 0 { return None; }
    if prev.summary { return Some(Params(prev.ssi, current)); }
    var difficulty := NextDifficultyAfter(k, c, via, newSlot, current);
    var ssi := NextSsiAfter(k, c, via, newSlot);
    if difficulty.None? || ssi.None? { return None; }
    return Some(Params(ssi.value, difficulty.value));
  }

  lemma NextAfterSummary(k: Constants, c: seq<Rec>, via: Fetch, newSlot: bool)
    requires k.Ok() && c != []
    ensures Difficulty(c, |c| - 1) < 0 ==> NextDifficultyFrom(k, c, via, newSlot).None?
    ensures Difficulty(c, |c| - 1) >= 0 && c[|c| - 1].summary ==>
      && NextDifficultyFrom(k, c, via, newSlot) == Some(Difficulty(c, |c| - 1))
      && NextSsiFrom(k, c, via, newSlot) == Some(c[|c| - 1].ssi)
  {
  }
}
