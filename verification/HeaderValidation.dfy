/** The chain rules of header validation, as the node checks them: the verdict is `ValidNext`. */
module HeaderValidation {
  import opened Coins
  import opened Arith
  import opened PotIterations
  import opened Headers
  import opened SignagePoints
  import opened DifficultyAdjustment
  import opened Retargets

  /** What a header brings; the sub-slot iterations and the deficit of its record are computed. */
  datatype Header = Header(
    weight: nat,
    totalIters: nat,
    spIndex: nat,
    requiredIters: nat,           // from the quality of the proof of space
    timestamp: Option<nat>,
    finished: seq<Slot>,
    summary: bool)                // the first finished sub-slot names a sub-epoch summary

  datatype HeaderErr =
    | InvalidDeficit
    | InvalidSubEpochSummaryHash
    | InvalidSubEpochSummary
    | TooManyBlocks
    | InvalidRequiredIters
    | NoOverflowsInFirstSubSlotNewEpoch
    | InvalidTotalIters
    | InvalidIsTransactionBlock
    | TimestampTooFarInPast
    | InvalidWeight
    | Raised                      // a guard or an integer conversion raises

  /** The record made of a header under given parameters. */
  function RecordWith(k: Constants, c: seq<Rec>, h: Header, params: Params): Rec
    requires k.minBlocks >= 1
  {
    var deficit := if c == [] then k.minBlocks - 1
                   else NextDeficit(k, c[|c| - 1].deficit, Overflows(k, h.spIndex), |h.finished|);
    Rec(h.weight, h.totalIters, h.spIndex, h.requiredIters, params.ssi,
        deficit, h.timestamp, h.finished, h.summary && h.finished != [])
  }

  /** The record under the parameters its own ancestors prescribe. */
  function RecordOf(k: Constants, c: seq<Rec>, h: Header): Rec
    requires k.Ok() && NextParams(k, c, h.finished != []).Some?
  {
    RecordWith(k, c, h, NextParams(k, c, h.finished != []).value)
  }

  /** Which rule each error stands for. */
  predicate Fails(k: Constants, c: seq<Rec>, b: Rec, params: Params, err: HeaderErr)
    requires k.Ok()
  {
    match err
    case InvalidDeficit => !DeficitOk(k, c, b)
    case InvalidSubEpochSummaryHash => b.summary && !SummaryOk(k, c, b)
    case InvalidSubEpochSummary => !b.summary && !SummaryOk(k, c, b)
    case TooManyBlocks => !SlotSizeOk(k, c, b)
    case InvalidRequiredIters => b.requiredIters >= Interval(k, b.ssi)
    case NoOverflowsInFirstSubSlotNewEpoch => !OverflowOk(k, c, b)
    case InvalidTotalIters => !ItersOk(k, c, b)
    case InvalidIsTransactionBlock => !TxOk(k, c, b)
    case TimestampTooFarInPast => c != [] && b.IsTx() && !TxOk(k, c, b)
    case InvalidWeight => !ParamsAre(k, c, b, params)
    case Raised => b.spIndex >= k.numSps || b.requiredIters == 0 || b.ssi % k.numSps != 0 || !ItersOk(k, c, b)
  }

  /** The total is that of the infusion in the sub-slot the finished ones lead to. */
  predicate TotalOk(k: Constants, c: seq<Rec>, b: Rec)
    requires k.numSps > 0
  {
    if c == [] then SlotStart(k, b) == b.ssi * |b.finished|
    else if b.finished == [] then SlotStart(k, b) == SlotStart(k, c[|c| - 1])
    else SlotStart(k, b) == SlotStart(k, c[|c| - 1]) + c[|c| - 1].ssi + b.ssi * (|b.finished| - 1)
  }

  /** No conversion to an unsigned integer raises. */
  predicate NothingNegative(k: Constants, c: seq<Rec>, b: Rec)
    requires k.numSps > 0
  {
    SpTotal(k, b) >= 0 && (c != [] && b.finished == [] ==> b.totalIters >= c[|c| - 1].totalIters)
  }

  /** A transaction block exactly after a signage point beyond the last one's infusion. */
  predicate TxPlaceOk(k: Constants, c: seq<Rec>, b: Rec)
    requires k.numSps > 0
  {
    if c == [] then b.IsTx()
    else LastTxHeight(c) >= 0 && (b.IsTx() <==> SpTotal(k, b) > c[LastTxHeight(c)].totalIters)
  }

  /** The first rule broken, in the order of the checks. */
  function RecordVerdict(k: Constants, c: seq<Rec>, b: Rec, params: Params): Option<HeaderErr>
    requires k.Ok()
  {
    if b.spIndex >= k.numSps then Some(Raised)
    else if exists i :: 0 <= i < |b.finished| && b.finished[i].deficit != SlotDeficit(k, c) then Some(InvalidDeficit)
    else if !SummaryOk(k, c, b) then Some(if b.summary then InvalidSubEpochSummaryHash else InvalidSubEpochSummary)
    else if !SlotSizeOk(k, c, b) then Some(TooManyBlocks)
    else if b.ssi % k.numSps != 0 then Some(Raised)
    else if b.requiredIters >= Interval(k, b.ssi) then Some(InvalidRequiredIters)
    else if b.requiredIters == 0 then Some(Raised)
    else if !OverflowOk(k, c, b) then Some(NoOverflowsInFirstSubSlotNewEpoch)
    else if !TotalOk(k, c, b) then Some(InvalidTotalIters)
    else if !NothingNegative(k, c, b) then Some(Raised)
    else if !TxPlaceOk(k, c, b) then Some(InvalidIsTransactionBlock)
    else if !TxOk(k, c, b) then Some(TimestampTooFarInPast)
    else if b.weight != params.difficulty + (if c == [] then 0 else c[|c| - 1].weight) then Some(InvalidWeight)
    else None
  }

  /** Checks 2r to 2t. */
  method CheckSlotDeficits(k: Constants, c: seq<Rec>, finished: seq<Slot>) returns (ok: bool)
    ensures ok <==> forall i :: 0 <= i < |finished| ==> finished[i].deficit == SlotDeficit(k, c)
  {
    for i := 0 to |finished|
      invariant forall j :: 0 <= j < i ==> finished[j].deficit == SlotDeficit(k, c)
    {
      if c == [] {
        if finished[i].deficit != k.minBlocks { return false; }
      } else if c[|c| - 1].deficit == 0 {
        if finished[i].deficit != k.minBlocks { return false; }
      } else {
        if finished[i].deficit != c[|c| - 1].deficit { return false; }
      }
    }
    return true;
  }

  /** Check 4. */
  method CheckSlotSize(k: Constants, c: seq<Rec>, b: Rec) returns (ok: bool)
    ensures ok <==> SlotSizeOk(k, c, b)
  {
    if b.finished != [] || c == [] { return true; }
    var numBlocks, curr := 2, |c| - 1;
    while !(curr == 0 || c[curr].finished != [])
      invariant FirstOfSlot(c) <= curr < |c| && numBlocks == |c| - curr + 1
      decreases curr
    {
      numBlocks := numBlocks + 1;
      curr := curr - 1;
    }
    return numBlocks <= k.maxSlotBlocks;
  }

  /** Checks 3a to 3d. */
  method CheckSummary(k: Constants, c: seq<Rec>, b: Rec) returns (err: Option<HeaderErr>, canFinishEpoch: bool)
    requires k.Ok() && (b.summary ==> b.finished != [])
    ensures err.None? <==> SummaryOk(k, c, b)
    ensures err.Some? ==> err.value == if b.summary then InvalidSubEpochSummaryHash else InvalidSubEpochSummary
    ensures canFinishEpoch <==> c != [] && b.finished != [] && CanFinishEpoch(k, c)
  {
    hide IsPow2;
    err, canFinishEpoch := None, false;
    var canFinishSubEpoch := false;
    if c != [] && b.finished != [] {
      canFinishSubEpoch, canFinishEpoch := CanFinishSubAndFullEpoch(k, c);
    }
    hide CanFinishSubEpoch, CanFinishEpoch;
    if b.finished != [] {
      if b.summary {
        if c == [] || !canFinishSubEpoch { err := Some(InvalidSubEpochSummaryHash); }
      } else if c != [] {
        if canFinishSubEpoch { err := Some(InvalidSubEpochSummary); }
      }
    }
  }

  /** Check 10, the conversions of the signage-point total and, in check 29, of the iterations since
      the previous block. */
  method CheckTotalIters(k: Constants, c: seq<Rec>, b: Rec) returns (err: Option<HeaderErr>)
    requires k.Ok() && Sized(k, b) && (c != [] ==> Sized(k, c[|c| - 1]))
    ensures err == if !TotalOk(k, c, b) then Some(InvalidTotalIters)
                   else if !NothingNegative(k, c, b) then Some(Raised) else None
    ensures err.None? <==> ItersOk(k, c, b)
  {
    IpItersExact(k, b.ssi, b.spIndex, b.requiredIters);
    var ip := CalculateIpIters(k, b.ssi, b.spIndex, b.requiredIters).value;
    var total: int;
    if c == [] {
      total := b.ssi * |b.finished|;
    } else {
      var p := c[|c| - 1];
      IpItersExact(k, p.ssi, p.spIndex, p.requiredIters);
      var prevIp := CalculateIpIters(k, p.ssi, p.spIndex, p.requiredIters).value;
      if b.finished != [] {
        total := p.totalIters + p.ssi - prevIp + b.ssi * (|b.finished| - 1);
      } else {
        total := p.totalIters - prevIp;
      }
    }
    hide CalculateIpIters, IpIters, IsPow2;
    total := total + ip;
    if total != b.totalIters { return Some(InvalidTotalIters); }
    var spTotal := total - ip + SpIters(k, b.ssi, b.spIndex) - (if Overflow(k, b) then b.ssi else 0);
    if spTotal < 0 { return Some(Raised); }
    if c != [] && b.finished == [] && b.totalIters < c[|c| - 1].totalIters { return Some(Raised); }
    return None;
  }

  /** Checks 15 and 26b. */
  method CheckTransactionBlock(k: Constants, c: seq<Rec>, b: Rec) returns (err: Option<HeaderErr>)
    requires k.numSps > 0 && (c != [] ==> c[0].IsTx())
    ensures err == if !TxPlaceOk(k, c, b) then Some(InvalidIsTransactionBlock)
                   else if !TxOk(k, c, b) then Some(TimestampTooFarInPast) else None
    ensures err.None? <==> TxOk(k, c, b)
    ensures err == Some(TimestampTooFarInPast) ==> c != [] && b.IsTx()
  {
    if c == [] {
      return if b.IsTx() then None else Some(InvalidIsTransactionBlock);
    }
    var curr := |c| - 1;
    while !c[curr].IsTx()
      invariant 0 <= curr < |c| && LastTxHeight(c) <= curr
      decreases curr
    {
      curr := curr - 1;
    }
    assert LastTxHeight(c) == curr;
    if (SpTotal(k, b) > c[curr].totalIters) != b.IsTx() { return Some(InvalidIsTransactionBlock); }
    if b.IsTx() && b.Time() <= c[curr].Time() { return Some(TimestampTooFarInPast); }
    return None;
  }

  lemma FactsOfChain(k: Constants, c: seq<Rec>)
    requires k.Ok() && ValidHeaders(k, c) && c != []
    ensures c[0].IsTx() && Sized(k, c[|c| - 1])
  {
    HeaderAt(k, c, 0);
    ValidFlows(k, c);
  }

  /** The checks on the record made of a header under given parameters, in their order. */
  method CheckRecord(k: Constants, c: seq<Rec>, b: Rec, params: Params) returns (err: Option<HeaderErr>)
    requires k.Ok() && b.ssi == params.ssi && (b.summary ==> b.finished != [])
    requires c != [] ==> c[0].IsTx() && Sized(k, c[|c| - 1])
    requires b.deficit == if c == [] then k.minBlocks - 1
                          else NextDeficit(k, c[|c| - 1].deficit, Overflow(k, b), |b.finished|)
    ensures err == RecordVerdict(k, c, b, params)
    ensures err.None? <==> ParamsAre(k, c, b, params) && RulesOk(k, c, b)
    ensures err.Some? ==> Fails(k, c, b, params, err.value)
  {
    hide ItersOk, SummaryOk, CanFinishEpoch, SlotSizeOk, TxOk, IsPow2, NextDeficit, SlotDeficit, TotalOk,
      NothingNegative, TxPlaceOk;
    var overflow := IsOverflowBlock(k, b.spIndex);
    if overflow.None? { return Some(Raised); }
    var ok := CheckSlotDeficits(k, c, b.finished);
    if !ok { return Some(InvalidDeficit); }
    var canFinishEpoch;
    err, canFinishEpoch := CheckSummary(k, c, b);
    if err.Some? { return; }
    ok := CheckSlotSize(k, c, b);
    if !ok { return Some(TooManyBlocks); }
    if b.ssi % k.numSps != 0 { return Some(Raised); }
    if b.requiredIters >= Interval(k, b.ssi) { return Some(InvalidRequiredIters); }
    if b.requiredIters == 0 { return Some(Raised); }
    HasInterval(b.ssi, k.numSps);
    if overflow.value && canFinishEpoch && |b.finished| < 2 {
      return Some(NoOverflowsInFirstSubSlotNewEpoch);
    }
    err := CheckTotalIters(k, c, b);
    if err.Some? { return; }
    err := CheckTransactionBlock(k, c, b);
    if err.Some? { return; }
    if b.weight != params.difficulty + (if c == [] then 0 else c[|c| - 1].weight) { return Some(InvalidWeight); }
  }

  lemma HasInterval(ssi: nat, n: nat)
    requires n > 0 && ssi / n > 0
    ensures ssi >= n
  {
    DivMod(ssi, n);
    MulMono(1, ssi / n, n);
  }

  /** A header extends a valid chain exactly when no check fails and no guard raises, under the parameters
      computed from the records that the retarget search fetches. When these are the header's own
      ancestors, so is the verdict: the prescribed parameters exist, and they are used. */
  method ValidateHeader(k: Constants, c: seq<Rec>, via: Fetch, h: Header)
    returns (err: Option<HeaderErr>)
    requires k.Ok() && ValidHeaders(k, c)
    ensures err.None? <==>
      && NextParamsFrom(k, c, via, h.finished != []).Some?
      && var params := NextParamsFrom(k, c, via, h.finished != []).value;
      && var b := RecordWith(k, c, h, params);
      && ParamsAre(k, c, b, params) && RulesOk(k, c, b)
    ensures NextParams(k, c, h.finished != []).Some?
    ensures c == [] || !CanFinishEpoch(k, c) || FetchesOwn(k, c, via) ==>
      && (err.None? <==> ValidNext(k, c, RecordOf(k, c, h)))
      && (err.None? ==> ValidHeaders(k, c + [RecordOf(k, c, h)]))
      && (err.Some? ==> Fails(k, c, RecordOf(k, c, h), NextParams(k, c, h.finished != []).value, err.value))
  {
    var next := NextSubSlotItersAndDifficulty(k, c, via, h.finished != []);
    ParamsAreSane(k, c, h.finished != []);
    if c != [] { FactsOfChain(k, c); }
    if c != [] && (!CanFinishEpoch(k, c) || FetchesOwn(k, c, via)) {
      FetchAgrees(k, c, via, h.finished != []);
    }
    hide NextParamsFrom, RulesOk, ValidHeaders, Fails, IsPow2, Sized, CanFinishEpoch, FetchesOwn;
    assert c == [] ==> next == NextParams(k, c, h.finished != []) by { NoAncestors(k, via, h.finished != []); }
    if next.None? { return Some(Raised); }
    err := CheckRecord(k, c, RecordWith(k, c, h, next.value), next.value);
    Extend(k, c, RecordOf(k, c, h));
  }

  lemma NoAncestors(k: Constants, via: Fetch, newSlot: bool)
    requires k.Ok()
    ensures NextParamsFrom(k, [], via, newSlot) == NextParams(k, [], newSlot)
  {
  }

  lemma Extend(k: Constants, c: seq<Rec>, b: Rec)
    requires k.Ok() && ValidHeaders(k, c)
    ensures ValidNext(k, c, b) ==> ValidHeaders(k, c + [b])
  {
    assert (c + [b])[..|c|] == c;
  }
}
