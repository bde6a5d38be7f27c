/** The chain rules for a header written out over records, in the order in which they are checked. */
module HeaderRules {
  import opened Coins
  import opened Arith
  import opened PotIterations
  import opened Headers
  import opened HeaderValidation

  /** The rules under which a record is checked: its sub-slot iterations are the given ones, and the chain
      starts with a transaction block and ends in an admissible record. */
  predicate Checkable(k: Constants, c: seq<Rec>, b: Rec, params: Params)
  {
    k.Ok() && b.ssi == params.ssi && (c != [] ==> c[0].IsTx() && Sized(k, c[|c| - 1]))
  }

  predicate Overflowing(k: Constants, b: Rec) { b.spIndex >= k.numSps - k.extra }

  /** How far into its sub-slot a block is infused. */
  function InSlot(k: Constants, b: Rec): int
    requires k.numSps > 0 && b.ssi > 0
  {
    (b.ssi / k.numSps * b.spIndex + k.extra * (b.ssi / k.numSps) + b.requiredIters) % b.ssi
  }

  /** Where the sub-slot of the next block starts. */
  function Start(k: Constants, c: seq<Rec>, b: Rec): int
    requires k.numSps > 0 && (c != [] ==> c[|c| - 1].ssi > 0)
  {
    if c == [] then b.ssi * |b.finished|
    else
      var p := c[|c| - 1];
      p.totalIters - InSlot(k, p) + if b.finished == [] then 0 else p.ssi + b.ssi * (|b.finished| - 1)
  }

  /** The total at the signage point: in the sub-slot before for an overflow block. */
  function SpAt(k: Constants, c: seq<Rec>, b: Rec): int
    requires k.numSps > 0 && (c != [] ==> c[|c| - 1].ssi > 0)
  {
    Start(k, c, b) + b.ssi / k.numSps * b.spIndex - if Overflowing(k, b) then b.ssi else 0
  }

  predicate LastTxAt(c: seq<Rec>, t: int)
  {
    0 <= t < |c| && c[t].IsTx() && forall i :: t < i < |c| ==> !c[i].IsTx()
  }

  predicate OpenedAt(c: seq<Rec>, f: int)
  {
    0 <= f < |c| && (f == 0 || c[f].finished != []) && forall i :: f < i < |c| ==> c[i].finished == []
  }

  /** A sub-epoch may end before the next block: not the first, none has ended in this one yet, and the last
      block has worked off its deficit. */
  predicate SubEpochMayEnd(k: Constants, c: seq<Rec>)
    requires k.subEpochBlocks > 0
  {
    && |c| >= k.subEpochBlocks && c != [] && c[|c| - 1].deficit == 0 && !c[|c| - 1].summary
    && forall j :: 0 <= j < |c| && j / k.subEpochBlocks == |c| / k.subEpochBlocks ==> !c[j].summary
  }

  ghost predicate Keeps(k: Constants, c: seq<Rec>, b: Rec, params: Params, n: nat)
    requires Checkable(k, c, b, params)
  {
    match n
    case 0 => b.spIndex < k.numSps
    case 1 =>
      forall s :: s in b.finished ==>
        s.deficit == if c == [] || c[|c| - 1].deficit == 0 then k.minBlocks else c[|c| - 1].deficit
    case 2 => b.summary <==> b.finished != [] && SubEpochMayEnd(k, c)
    case 3 => b.finished != [] || forall f :: OpenedAt(c, f) ==> |c| - f + 1 <= k.maxSlotBlocks
    case 4 => b.ssi % k.numSps == 0
    case 5 => b.requiredIters < b.ssi / k.numSps
    case 6 => b.requiredIters > 0
    case 7 =>
      Overflowing(k, b) && |b.finished| == 1 && SubEpochMayEnd(k, c) ==>
        |c| / k.subEpochBlocks * k.subEpochBlocks % k.epochBlocks != 0
    case 8 => b.ssi > 0 && b.totalIters == Start(k, c, b) + InSlot(k, b)
    case 9 => SpAt(k, c, b) >= 0 && (c != [] && b.finished == [] ==> b.totalIters >= c[|c| - 1].totalIters)
    case 10 =>
      if c == [] then b.IsTx() else forall t :: LastTxAt(c, t) ==> (b.IsTx() <==> SpAt(k, c, b) > c[t].totalIters)
    case 11 => b.IsTx() ==> forall t :: LastTxAt(c, t) ==> b.Time() > c[t].Time()
    case 12 => b.weight == params.difficulty + if c == [] then 0 else c[|c| - 1].weight
    case _ => true
  }

  ghost predicate FirstBreach(k: Constants, c: seq<Rec>, b: Rec, params: Params, n: nat)
    requires Checkable(k, c, b, params)
  {
    !Keeps(k, c, b, params, n) && forall m :: 0 <= m < n ==> Keeps(k, c, b, params, m)
  }

  function ErrorFor(b: Rec, n: nat): HeaderErr
  {
    match n
    case 1 => InvalidDeficit
    case 2 => if b.summary then InvalidSubEpochSummaryHash else InvalidSubEpochSummary
    case 3 => TooManyBlocks
    case 5 => InvalidRequiredIters
    case 7 => NoOverflowsInFirstSubSlotNewEpoch
    case 8 => InvalidTotalIters
    case 10 => InvalidIsTransactionBlock
    case 11 => TimestampTooFarInPast
    case 12 => InvalidWeight
    case _ => Raised
  }

  // ---- Each rule is the one of the model -------------------------------------------------------------------------

  lemma SameWindow(m: nat, x: nat, j: nat)
    requires m > 0 && j <= x
    ensures x - x % m <= j <==> j / m == x / m
    ensures x / m * m == x - x % m
  {
    DivMod(x, m);
    DivMod(j, m);
    if j / m < x / m {
      MulMono(j / m + 1, x / m, m);
      MulSum(m, j / m, 1);
    } else {
      MulMono(x / m, j / m, m);
      if j / m > x / m {
        MulMono(x / m + 1, j / m, m);
        MulSum(m, x / m, 1);
      }
    }
  }

  lemma MayEndIff(k: Constants, c: seq<Rec>)
    requires k.Ok() && c != []
    ensures CanFinishSubEpoch(k, c) <==> SubEpochMayEnd(k, c)
    ensures CanFinishEpoch(k, c) <==>
            SubEpochMayEnd(k, c) && |c| / k.subEpochBlocks * k.subEpochBlocks % k.epochBlocks == 0
  {
    hide IsPow2;
    SameWindow(k.subEpochBlocks, |c|, |c|);
    forall j | 0 <= j < |c|
      ensures WindowStart(k, |c|) <= j <==> j / k.subEpochBlocks == |c| / k.subEpochBlocks
    {
      SameWindow(k.subEpochBlocks, |c|, j);
    }
  }

  lemma OpenedIs(c: seq<Rec>, f: int)
    requires c != []
    ensures OpenedAt(c, f) <==> f == FirstOfSlot(c)
  {
  }

  lemma LastTxIs(c: seq<Rec>, t: int)
    requires c != [] && c[0].IsTx()
    ensures LastTxAt(c, t) <==> t == LastTxHeight(c)
  {
  }

  lemma InSlotIs(k: Constants, b: Rec)
    requires k.Ok() && Sized(k, b)
    ensures b.ssi > 0 && InSlot(k, b) == Ip(k, b)
  {
    hide IsPow2;
    IpItersExact(k, b.ssi, b.spIndex, b.requiredIters);
  }

  /** The rules before any iterations are computed. */
  lemma EarlyRules(k: Constants, c: seq<Rec>, b: Rec, params: Params)
    requires Checkable(k, c, b, params)
    ensures Keeps(k, c, b, params, 1) <==>
            !exists i :: 0 <= i < |b.finished| && b.finished[i].deficit != SlotDeficit(k, c)
    ensures Keeps(k, c, b, params, 2) <==> SummaryOk(k, c, b)
    ensures Keeps(k, c, b, params, 3) <==> SlotSizeOk(k, c, b)
    ensures Keeps(k, c, b, params, 7) <==> OverflowOk(k, c, b)
  {
    if c != [] {
      MayEndIff(k, c);
      OpenedIs(c, FirstOfSlot(c));
    }
    hide IsPow2, FirstOfSlot, CanFinishSubEpoch, CanFinishEpoch;
    if c != [] {
      forall f | OpenedAt(c, f) ensures f == FirstOfSlot(c) { OpenedIs(c, f); }
      hide OpenedAt, SubEpochMayEnd;
    }
  }

  /** Those after it: the totals and what follows from them. */
  lemma TotalRules(k: Constants, c: seq<Rec>, b: Rec, params: Params)
    requires Checkable(k, c, b, params) && Sized(k, b)
    ensures Keeps(k, c, b, params, 8) <==> TotalOk(k, c, b)
    ensures TotalOk(k, c, b) ==>
      && (Keeps(k, c, b, params, 9) <==> NothingNegative(k, c, b))
      && (Keeps(k, c, b, params, 10) <==> TxPlaceOk(k, c, b))
      && (Keeps(k, c, b, params, 10) ==> (Keeps(k, c, b, params, 11) <==> TxOk(k, c, b)))
  {
    InSlotIs(k, b);
    if c != [] {
      InSlotIs(k, c[|c| - 1]);
      LastTxIs(c, LastTxHeight(c));
      forall t | LastTxAt(c, t) ensures t == LastTxHeight(c) { LastTxIs(c, t); }
    }
    hide IsPow2, InSlot, IpIters, LastTxHeight, LastTxAt;
  }

  lemma VerdictByRules(k: Constants, c: seq<Rec>, b: Rec, params: Params)
    requires Checkable(k, c, b, params)
    ensures RecordVerdict(k, c, b, params) ==
      if !Keeps(k, c, b, params, 0) then Some(ErrorFor(b, 0))
      else if !Keeps(k, c, b, params, 1) then Some(ErrorFor(b, 1))
      else if !Keeps(k, c, b, params, 2) then Some(ErrorFor(b, 2))
      else if !Keeps(k, c, b, params, 3) then Some(ErrorFor(b, 3))
      else if !Keeps(k, c, b, params, 4) then Some(ErrorFor(b, 4))
      else if !Keeps(k, c, b, params, 5) then Some(ErrorFor(b, 5))
      else if !Keeps(k, c, b, params, 6) then Some(ErrorFor(b, 6))
      else if !Keeps(k, c, b, params, 7) then Some(ErrorFor(b, 7))
      else if !Keeps(k, c, b, params, 8) then Some(ErrorFor(b, 8))
      else if !Keeps(k, c, b, params, 9) then Some(ErrorFor(b, 9))
      else if !Keeps(k, c, b, params, 10) then Some(ErrorFor(b, 10))
      else if !Keeps(k, c, b, params, 11) then Some(ErrorFor(b, 11))
      else if !Keeps(k, c, b, params, 12) then Some(ErrorFor(b, 12))
      else None
  {
    EarlyRules(k, c, b, params);
    hide SummaryOk, SlotSizeOk, OverflowOk, TotalOk, NothingNegative, TxPlaceOk, TxOk, SlotDeficit, IsPow2;
    if b.spIndex < k.numSps && b.ssi % k.numSps == 0 && 0 < b.requiredIters < b.ssi / k.numSps {
      HasInterval(b.ssi, k.numSps);
      TotalRules(k, c, b, params);
    }
  }

  lemma {:induction false} BreachIsNamed(k: Constants, c: seq<Rec>, b: Rec, params: Params, n: nat)
    requires Checkable(k, c, b, params) && FirstBreach(k, c, b, params, n)
    ensures RecordVerdict(k, c, b, params) == Some(ErrorFor(b, n))
  {
    assert n <= 12;
    VerdictByRules(k, c, b, params);
    hide RecordVerdict, Keeps, ErrorFor, IsPow2, Sized;
    assert forall m :: 0 <= m < n ==> Keeps(k, c, b, params, m);
  }

  /** A record passes exactly when it keeps every rule; else the error names the first rule it breaks. */
  lemma VerdictNamesBreach(k: Constants, c: seq<Rec>, b: Rec, params: Params)
    requires Checkable(k, c, b, params)
    ensures RecordVerdict(k, c, b, params).None? <==> forall n :: Keeps(k, c, b, params, n)
    ensures forall n :: FirstBreach(k, c, b, params, n) ==> RecordVerdict(k, c, b, params) == Some(ErrorFor(b, n))
  {
    forall n | FirstBreach(k, c, b, params, n)
      ensures RecordVerdict(k, c, b, params) == Some(ErrorFor(b, n))
    {
      BreachIsNamed(k, c, b, params, n);
    }
    hide FirstBreach;
    VerdictByRules(k, c, b, params);
    hide RecordVerdict, ErrorFor, IsPow2, Sized;
    if RecordVerdict(k, c, b, params).None? {
      forall n ensures Keeps(k, c, b, params, n) { NoFurtherRules(k, c, b, params, n); }
    }
  }

  lemma NoFurtherRules(k: Constants, c: seq<Rec>, b: Rec, params: Params, n: nat)
    requires Checkable(k, c, b, params) && forall m :: 0 <= m <= 12 ==> Keeps(k, c, b, params, m)
    ensures Keeps(k, c, b, params, n)
  {
    if n <= 12 { hide Keeps; }
  }

  /** With the deficit the record gets, keeping every rule is being a valid next record. */
  lemma PassesIff(k: Constants, c: seq<Rec>, b: Rec, params: Params)
    requires Checkable(k, c, b, params)
    requires b.deficit == if c == [] then k.minBlocks - 1
                          else NextDeficit(k, c[|c| - 1].deficit, Overflow(k, b), |b.finished|)
    ensures (forall n :: Keeps(k, c, b, params, n)) <==> ParamsAre(k, c, b, params) && RulesOk(k, c, b)
  {
    VerdictNamesBreach(k, c, b, params);
    hide Keeps, FirstBreach, IsPow2, SummaryOk, SlotSizeOk, OverflowOk, SlotDeficit, NextDeficit, SpTotal, SlotStart;
    if b.spIndex < k.numSps && b.ssi % k.numSps == 0 && 0 < b.requiredIters < b.ssi / k.numSps {
      HasInterval(b.ssi, k.numSps);
    }
  }
}
