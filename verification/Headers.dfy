/** The chain rules of header validation, over a block's records: a chain is the sequence of the
    records of a block's ancestors and of the block, indexed by height. */
module Headers {
  import opened Coins
  import opened Arith
  import opened PotIterations
  import opened SignificantBits

  /** A finished sub-slot: the challenges of its challenge-chain and reward-chain VDFs, the hashes of
      the two chains at its end, and the deficit its reward chain carries. */
  datatype Slot = Slot(ccChallenge: nat, rcChallenge: nat, cc: nat, rc: nat, deficit: nat)

  datatype Rec = Rec(
    weight: nat,
    totalIters: nat,
    spIndex: nat,
    requiredIters: nat,
    ssi: nat,                     // sub_slot_iters
    deficit: nat,
    timestamp: Option<nat>,       // present exactly in transaction blocks
    finished: seq<Slot>,          // sub-slots finished since the previous block
    summary: bool)                // a sub-epoch summary is included
  {
    predicate IsTx() { timestamp.Some? }
    function Time(): nat { if timestamp.Some? then timestamp.value else 0 }
  }

  // ---- Derived iteration totals -----------------------------------------------------------------------

  function Ip(k: Constants, b: Rec): int
    requires k.numSps > 0
  {
    IpIters(k, b.ssi, b.spIndex, b.requiredIters)
  }

  predicate Overflow(k: Constants, b: Rec) { Overflows(k, b.spIndex) }

  /** Where the sub-slot of the infusion starts (ip_sub_slot_total_iters). */
  function SlotStart(k: Constants, b: Rec): int
    requires k.numSps > 0
  {
    b.totalIters - Ip(k, b)
  }

  /** Where the sub-slot of the signage point starts (sp_sub_slot_total_iters). */
  function SpSlotStart(k: Constants, b: Rec): int
    requires k.numSps > 0
  {
    if Overflow(k, b) then SlotStart(k, b) - b.ssi else SlotStart(k, b)
  }

  function SpTotal(k: Constants, b: Rec): int
    requires k.numSps > 0
  {
    SpSlotStart(k, b) + SpIters(k, b.ssi, b.spIndex)
  }

  predicate Sized(k: Constants, b: Rec)
  {
    Admissible(k, b.ssi, b.spIndex, b.requiredIters)
  }

  // ---- Transaction blocks, slots and windows of a chain ----------------------------------------------------

  function LastTxHeight(c: seq<Rec>): (r: int)
    ensures -1 <= r < |c|
    ensures r >= 0 ==> c[r].IsTx()
    ensures forall i :: r < i < |c| ==> !c[i].IsTx()
  {
    if c == [] then -1 else if c[|c| - 1].IsTx() then |c| - 1 else LastTxHeight(c[..|c| - 1])
  }

  /** The second-to-last transaction block, or -1. */
  function SecondLastTx(c: seq<Rec>): (r: int)
    ensures -1 <= r < |c|
    ensures r >= 0 ==> c[r].IsTx() && r < LastTxHeight(c)
  {
    if LastTxHeight(c) == -1 then -1 else LastTxHeight(c[..LastTxHeight(c)])
  }

  /** The first block of the sub-slot the last block lies in. */
  function FirstOfSlot(c: seq<Rec>): (r: nat)
    requires c != []
    ensures r < |c| && (r == 0 || c[r].finished != [])
    ensures forall i :: r < i < |c| ==> c[i].finished == []
  {
    if |c| == 1 || c[|c| - 1].finished != [] then |c| - 1 else FirstOfSlot(c[..|c| - 1])
  }

  function WindowStart(k: Constants, height: nat): (w: nat)
    requires k.subEpochBlocks > 0
    ensures w <= height < w + k.subEpochBlocks
  {
    height - height % k.subEpochBlocks
  }

  /** The next block, if it starts a new sub-slot, may start a new sub-epoch. */
  predicate CanFinishSubEpoch(k: Constants, c: seq<Rec>)
    requires c != [] && k.subEpochBlocks > 0
  {
    && |c| >= k.subEpochBlocks
    && c[|c| - 1].deficit == 0
    && !c[|c| - 1].summary
    && (forall j :: WindowStart(k, |c|) <= j < |c| ==> !c[j].summary)
  }

  /** ... and a new epoch with it. */
  predicate CanFinishEpoch(k: Constants, c: seq<Rec>)
    requires c != [] && k.subEpochBlocks > 0 && k.epochBlocks > 0
  {
    CanFinishSubEpoch(k, c) && WindowStart(k, |c|) % k.epochBlocks == 0
  }

  // ---- Deficit ------------------------------------------------------------------------------------------------

  function NextDeficit(k: Constants, prevDeficit: nat, overflow: bool, slots: nat): int
  {
    if prevDeficit == k.minBlocks then
      if overflow && slots == 0 then prevDeficit else prevDeficit - 1
    else if prevDeficit == 0 then
      if slots == 0 then 0
      else if slots == 1 && overflow then k.minBlocks
      else k.minBlocks - 1
    else prevDeficit - 1
  }

  // ---- Retargeting --------------------------------------------------------------------------------------------

  function Min(a: int, b: int): int { if a <= b then a else b }
  function Max(a: int, b: int): int { if a >= b then a else b }

  /** Clamp a precise new value to a factor of the reference, from below also to `least`. */
  function Clamp(precise: nat, reference: nat, factor: nat, least: nat): nat
    requires factor > 0
  {
    if precise >= reference then Min(precise, factor * reference)
    else Max(least, Max(precise, reference / factor))
  }

  /** The iterations a sub-slot of the target time would have had over the measured stretch. */
  function PreciseSsi(k: Constants, start: Rec, end: Rec): nat
    requires end.Time() > start.Time() && end.totalIters >= start.totalIters
  {
    Quotient(k.timeTarget * (end.totalIters - start.totalIters), 1, end.Time() - start.Time())
  }

  /** The weight per target number of blocks gained in the target time of a sub-slot. */
  function PreciseDifficulty(k: Constants, start: Rec, end: Rec): nat
    requires end.Time() > start.Time() && end.weight >= start.weight && k.slotBlocksTarget > 0
  {
    Quotient((end.weight - start.weight) * k.timeTarget, k.slotBlocksTarget, end.Time() - start.Time())
  }

  function RetargetedSsi(k: Constants, start: Rec, end: Rec): Option<nat>
    requires k.maxFactor > 0 && k.numSps > 0
  {
    if end.Time() <= start.Time() || end.totalIters < start.totalIters then None
    else
      var truncated := Truncate(Clamp(PreciseSsi(k, start, end), end.ssi, k.maxFactor, k.numSps), k.significantBits);
      Some(RoundDown(truncated, k.numSps))
  }

  function RoundDown(x: nat, m: nat): nat
    requires m > 0
  {
    x - x % m
  }

  function RetargetedDifficulty(k: Constants, start: Rec, end: Rec, reference: nat): Option<nat>
    requires k.maxFactor > 0 && k.slotBlocksTarget > 0
  {
    if end.Time() <= start.Time() || end.weight < start.weight then None
    else
      Some(Truncate(Clamp(PreciseDifficulty(k, start, end), reference, k.maxFactor, 1), k.significantBits))
  }

  function Quotient(x: nat, a: nat, b: nat): nat
    requires a > 0 && b > 0
  {
    MulPos(a, b);
    x / (a * b)
  }

  /** The last transaction block below height `n` infused no later than `iters`, or -1. */
  function LastTxNotAfter(c: seq<Rec>, n: nat, iters: int): (r: int)
    requires n <= |c|
    ensures -1 <= r < n
    ensures r >= 0 ==> c[r].IsTx() && c[r].totalIters <= iters
    ensures forall i :: r < i < n ==> !c[i].IsTx() || c[i].totalIters > iters
  {
    if n == 0 then -1
    else if c[n - 1].IsTx() && c[n - 1].totalIters <= iters then n - 1
    else LastTxNotAfter(c, n - 1, iters)
  }

  /** First height from `h` on, below `limit`, with a summary; `limit` if there is none. */
  function FirstSummaryFrom(c: seq<Rec>, h: nat, limit: nat): (s: nat)
    requires h <= limit <= |c|
    ensures h <= s <= limit
    ensures s < limit ==> c[s].summary
    ensures forall i :: h <= i < s ==> !c[i].summary
    decreases limit - h
  {
    if h == limit || c[h].summary then h else FirstSummaryFrom(c, h + 1, limit)
  }

  /** A height certainly in the next epoch, however late the last of `n` blocks is. */
  function HeightInNextEpoch(k: Constants, n: nat): int
  {
    n - 2 + 2 * k.maxSlotBlocks + k.minBlocks + 5
  }

  function EpochSurpass(k: Constants, n: nat): int
    requires k.epochBlocks > 0
  {
    HeightInNextEpoch(k, n) - HeightInNextEpoch(k, n) % k.epochBlocks
  }

  function AsOption(i: int): Option<nat> { if i < 0 then None else Some(i) }

  /** The heights between which the search for the start of the measured stretch reads blocks. */
  function FetchBegin(k: Constants, n: nat): int
    requires k.epochBlocks > 0
  {
    var previous := EpochSurpass(k, n) - k.epochBlocks;
    if previous == 0 then 0 else previous - k.maxSlotBlocks - 1
  }

  function FetchEnd(k: Constants, n: nat): int
    requires k.epochBlocks > 0
  {
    var previous := EpochSurpass(k, n) - k.epochBlocks;
    if previous == 0 then 1 else previous + 2 * k.maxSlotBlocks + k.minBlocks + 2
  }

  predicate SurpassOk(k: Constants, n: nat)
    requires k.epochBlocks > 0
  {
    EpochSurpass(k, n) >= k.epochBlocks && HeightInNextEpoch(k, n) - EpochSurpass(k, n) < 5 * k.maxSlotBlocks
  }

  /** Where the measured stretch starts after `n` blocks: genesis for the first epoch, else the
      second-to-last transaction block before the block that opened the epoch now ending, searched on the
      chain `e` as far as it goes. There is no result when a sanity check fails or the fetched stretch
      holds no summary. */
  function StartOn(k: Constants, n: nat, e: seq<Rec>): (r: Option<nat>)
    requires k.epochBlocks > 0
    ensures r.Some? ==> r.value < |e|
  {
    var previous, limit := EpochSurpass(k, n) - k.epochBlocks, FetchEnd(k, n);
    if !SurpassOk(k, n) then None
    else if previous == 0 then if e == [] then None else Some(0)
    else if previous < k.maxSlotBlocks + 1 || previous >= |e| then None
    else
      var s := FirstSummaryFrom(e, previous, Min(limit, |e|));
      if s == Min(limit, |e|) then None else AsOption(SecondLastTx(e[..s]))
  }

  /** The start found among the ancestors of the last block's parent. */
  function MeasureStart(k: Constants, c: seq<Rec>): (r: Option<nat>)
    requires c != [] && k.epochBlocks > 0
    ensures r.Some? ==> r.value < |c|
  {
    StartOn(k, |c|, c[..|c| - 1])
  }

  // ---- Fetching by height ---------------------------------------------------------------------------------

  /** One record for every height from 0 on, each with the chain that ends in it. */
  type Paths = e: seq<seq<Rec>> | forall h :: 0 <= h < |e| ==> |e[h]| == h + 1
    witness []

  /** How the search gets records by height: walking back from the last block's parent or, when that is
      indexed, the ones the height index names. These need not be of one chain. */
  datatype Fetch = Walked | Indexed(paths: Paths)

  function Tips(e: Paths): (t: seq<Rec>)
    ensures |t| == |e| && forall h :: 0 <= h < |e| ==> t[h] == e[h][h]
  {
    seq(|e|, h requires 0 <= h < |e| => e[h][h])
  }

  function PathsOf(c: seq<Rec>): (e: Paths)
    ensures |e| == |c| && forall h :: 0 <= h < |c| ==> e[h] == c[..h + 1]
  {
    seq(|c|, h requires 0 <= h < |c| => c[..h + 1])
  }

  /** The start of the stretch found among the records of `e`; what is walked back from the block found is
      that block's own chain. All heights fetched must be there, unless the list is clipped. */
  function StartFrom(k: Constants, n: nat, e: Paths, clipped: bool): Option<Rec>
    requires k.epochBlocks > 0
  {
    var previous, limit := EpochSurpass(k, n) - k.epochBlocks, FetchEnd(k, n);
    if !SurpassOk(k, n) then None
    else if previous == 0 then if e == [] then None else Some(e[0][0])
    else if previous < k.maxSlotBlocks + 1 || previous >= |e| || (!clipped && limit > |e|) then None
    else
      var s := FirstSummaryFrom(Tips(e), previous, Min(limit, |e|));
      if s == Min(limit, |e|) then None else RecordAt(e[s - 1], SecondLastTx(e[s - 1]))
  }

  function RecordAt(c: seq<Rec>, i: int): Option<Rec>
    requires i < |c|
  {
    if i < 0 then None else Some(c[i])
  }

  /** The record the measured stretch starts with. */
  function StartVia(k: Constants, c: seq<Rec>, via: Fetch): Option<Rec>
    requires c != [] && k.epochBlocks > 0
  {
    match via
    case Walked => if MeasureStart(k, c).None? then None else Some(c[MeasureStart(k, c).value])
    case Indexed(e) => StartFrom(k, |c|, e, false)
  }

  /** Where it ends: the last transaction block infused before the last block's signage point. */
  function MeasureEnd(k: Constants, c: seq<Rec>): (r: Option<nat>)
    requires c != [] && k.numSps > 0
    ensures r.Some? ==> r.value < |c|
  {
    AsOption(LastTxNotAfter(c, |c| - 1, SpTotal(k, c[|c| - 1])))
  }

  function Difficulty(c: seq<Rec>, h: nat): int
    requires h < |c|
  {
    c[h].weight - (if h == 0 then 0 else c[h - 1].weight)
  }

  predicate StartsEpoch(k: Constants, c: seq<Rec>, newSlot: bool)
    requires c != [] && k.subEpochBlocks > 0 && k.epochBlocks > 0
  {
    newSlot && CanFinishEpoch(k, c)
  }

  /** Sub-slot iterations of the block after `c`. */
  function NextSsiFrom(k: Constants, c: seq<Rec>, via: Fetch, newSlot: bool): Option<nat>
    requires k.Ok() && c != []
  {
    if c[|c| - 1].summary then Some(c[|c| - 1].ssi)
    else if |c| < k.epochBlocks then Some(k.ssiStarting)
    else if !StartsEpoch(k, c, newSlot) then Some(c[|c| - 1].ssi)
    else if StartVia(k, c, via).None? || MeasureEnd(k, c).None? then None
    else RetargetedSsi(k, StartVia(k, c, via).value, c[MeasureEnd(k, c).value])
  }

  function NextDifficultyFrom(k: Constants, c: seq<Rec>, via: Fetch, newSlot: bool): Option<nat>
    requires k.Ok() && c != []
  {
    if Difficulty(c, |c| - 1) < 0 then None
    else if c[|c| - 1].summary then Some(Difficulty(c, |c| - 1))
    else if |c| < k.epochBlocks - 3 * k.maxSlotBlocks then Some(k.difficultyStarting)
    else if !StartsEpoch(k, c, newSlot) then Some(Difficulty(c, |c| - 1))
    else if StartVia(k, c, via).None? || MeasureEnd(k, c).None? || Difficulty(c, |c| - 2) < 0 then None
    else RetargetedDifficulty(k, StartVia(k, c, via).value, c[MeasureEnd(k, c).value], Difficulty(c, |c| - 2))
  }

  datatype Params = Params(ssi: nat, difficulty: nat)

  /** Sub-slot iterations and difficulty of the block after `c`; no result where the search or the
      arithmetic fails. */
  function NextParamsFrom(k: Constants, c: seq<Rec>, via: Fetch, newSlot: bool): Option<Params>
    requires k.Ok()
  {
    if c == [] then Some(Params(k.ssiStarting, k.difficultyStarting))
    else
      var difficulty, ssi := NextDifficultyFrom(k, c, via, newSlot), NextSsiFrom(k, c, via, newSlot);
      if difficulty.None? || ssi.None? then None else Some(Params(ssi.value, difficulty.value))
  }

  /** The parameters its own ancestors prescribe for the block after `c`. */
  function NextParams(k: Constants, c: seq<Rec>, newSlot: bool): Option<Params>
    requires k.Ok()
  {
    NextParamsFrom(k, c, Walked, newSlot)
  }

  /** What the search fetches are the last block's own ancestors. */
  predicate FetchesOwn(k: Constants, c: seq<Rec>, via: Fetch)
    requires c != [] && k.epochBlocks > 0
  {
    via.Walked? || (FetchEnd(k, |c|) < |c| && NamesOwn(c, via.paths, FetchBegin(k, |c|), FetchEnd(k, |c|)))
  }

  /** From height `begin` on, below `end`, the records of `e` are those of `c`, with the same ancestors. */
  predicate NamesOwn(c: seq<Rec>, e: Paths, begin: int, end: int)
  {
    && 0 <= begin && end <= |e| && end <= |c|
    && forall h :: begin <= h < end ==> e[h] == c[..h + 1]
  }

  // ---- Valid headers ---------------------------------------------------------------------------------------------

  /** Checks 7, 27 and 28: the given sub-slot iterations and weight, and required iterations that fit
      an interval. */
  predicate ParamsAre(k: Constants, c: seq<Rec>, b: Rec, params: Params)
  {
    && b.ssi == params.ssi
    && b.weight == params.difficulty + (if c == [] then 0 else c[|c| - 1].weight)
    && Sized(k, b)
  }

  predicate ParamsOk(k: Constants, c: seq<Rec>, b: Rec)
    requires k.Ok()
  {
    NextParams(k, c, b.finished != []).Some? && ParamsAre(k, c, b, NextParams(k, c, b.finished != []).value)
  }

  /** Checks 10 and 29: the total continues from the previous block, and never runs backwards. */
  predicate ItersOk(k: Constants, c: seq<Rec>, b: Rec)
    requires k.numSps > 0
  {
    && SpTotal(k, b) >= 0
    && if c == [] then SlotStart(k, b) == b.ssi * |b.finished|
       else
         var p := c[|c| - 1];
         if b.finished == [] then SlotStart(k, b) == SlotStart(k, p) && b.totalIters >= p.totalIters
         else SlotStart(k, b) == SlotStart(k, p) + p.ssi + b.ssi * (|b.finished| - 1)
  }

  /** Checks 3a to 3d: a summary exactly where a sub-epoch can be finished. */
  predicate SummaryOk(k: Constants, c: seq<Rec>, b: Rec)
    requires k.subEpochBlocks > 0
  {
    b.summary <==> c != [] && b.finished != [] && CanFinishSubEpoch(k, c)
  }

  /** Check 4: the number of blocks in a sub-slot. */
  predicate SlotSizeOk(k: Constants, c: seq<Rec>, b: Rec)
  {
    c != [] && b.finished == [] ==> |c| - FirstOfSlot(c) + 1 <= k.maxSlotBlocks
  }

  /** Check 9: no overflow block in the first sub-slot of an epoch. */
  predicate OverflowOk(k: Constants, c: seq<Rec>, b: Rec)
    requires k.subEpochBlocks > 0 && k.epochBlocks > 0
  {
    c != [] && b.finished != [] && CanFinishEpoch(k, c) && Overflow(k, b) ==> |b.finished| >= 2
  }

  /** Checks 15 and 26b: the first signage point after the last transaction block's infusion makes a
      transaction block, and its timestamp is later. */
  predicate TxOk(k: Constants, c: seq<Rec>, b: Rec)
    requires k.numSps > 0
  {
    if c == [] then b.IsTx()
    else
      && LastTxHeight(c) >= 0
      && (b.IsTx() <==> SpTotal(k, b) > c[LastTxHeight(c)].totalIters)
      && (b.IsTx() ==> b.Time() > c[LastTxHeight(c)].Time())
  }

  /** Checks 2r to 2t, and the deficit recorded for the block. */
  predicate DeficitOk(k: Constants, c: seq<Rec>, b: Rec)
  {
    && (forall i :: 0 <= i < |b.finished| ==> b.finished[i].deficit == SlotDeficit(k, c))
    && b.deficit == if c == [] then k.minBlocks - 1
                    else NextDeficit(k, c[|c| - 1].deficit, Overflow(k, b), |b.finished|)
  }

  /** The deficit at the end of a sub-slot: reset once it has reached 0. */
  function SlotDeficit(k: Constants, c: seq<Rec>): nat
  {
    if c == [] || c[|c| - 1].deficit == 0 then k.minBlocks else c[|c| - 1].deficit
  }

  /** The rules that do not depend on the parameters. */
  predicate RulesOk(k: Constants, c: seq<Rec>, b: Rec)
    requires k.Ok()
  {
    && ItersOk(k, c, b) && SummaryOk(k, c, b) && SlotSizeOk(k, c, b)
    && OverflowOk(k, c, b) && TxOk(k, c, b) && DeficitOk(k, c, b)
  }

  predicate ValidNext(k: Constants, c: seq<Rec>, b: Rec)
    requires k.Ok()
  {
    ParamsOk(k, c, b) && RulesOk(k, c, b)
  }

  predicate ValidHeaders(k: Constants, c: seq<Rec>)
    requires k.Ok()
  {
    c == [] || (ValidHeaders(k, c[..|c| - 1]) && ValidNext(k, c[..|c| - 1], c[|c| - 1]))
  }

  lemma {:induction false} HeadersPrefix(k: Constants, c: seq<Rec>, n: nat)
    requires k.Ok() && ValidHeaders(k, c) && n <= |c|
    ensures ValidHeaders(k, c[..n])
  {
    if n == |c| {
      assert c[..n] == c;
    } else {
      HeadersPrefix(k, c[..|c| - 1], n);
      assert c[..|c| - 1][..n] == c[..n];
    }
  }

  lemma HeaderAt(k: Constants, c: seq<Rec>, i: nat)
    requires k.Ok() && ValidHeaders(k, c) && i < |c|
    ensures ValidHeaders(k, c[..i]) && ValidNext(k, c[..i], c[i])
  {
    hide ValidNext;
    HeadersPrefix(k, c, i + 1);
    assert c[..i + 1][..i] == c[..i];
  }
}
