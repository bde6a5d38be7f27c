/** Sub-slots, signage points and infusion points along a valid chain. */
module SignagePoints {
  import opened Arith
  import opened PotIterations
  import opened Headers

  // ---- One block ---------------------------------------------------------------------------------------

  /** The index of the signage point counted from the start of the infusion's sub-slot. */
  function Offset(k: Constants, b: Rec): int
  {
    if Overflow(k, b) then b.spIndex - k.numSps else b.spIndex
  }

  lemma MulDiff(m: int, a: int, b: int)
    ensures m * (a - b) == m * a - m * b
  {
  }

  /** Overflow or not, a block is infused exactly `extra` intervals and its required iterations after
      its signage point; both lie in their own sub-slots, the signage point on its grid. */
  lemma InfusedAfterSp(k: Constants, b: Rec)
    requires k.Ok() && Sized(k, b)
    ensures b.totalIters == SpTotal(k, b) + k.extra * Interval(k, b.ssi) + b.requiredIters
    ensures SlotStart(k, b) < b.totalIters < SlotStart(k, b) + b.ssi
    ensures SpSlotStart(k, b) <= SpTotal(k, b) < SpSlotStart(k, b) + b.ssi
    ensures SpTotal(k, b) == SlotStart(k, b) + Interval(k, b.ssi) * Offset(k, b)
    ensures 0 < b.requiredIters < Interval(k, b.ssi)
  {
    IntervalTiles(k, b.ssi);
    IpItersInSlot(k, b.ssi, b.spIndex, b.requiredIters);
    SpItersInSlot(k, b.ssi, b.spIndex);
    MulDiff(Interval(k, b.ssi), b.spIndex, k.numSps);
  }

  // ---- One step --------------------------------------------------------------------------------------------

  /** How the sub-slots of a block and of the one before it lie. */
  predicate Follows(k: Constants, p: Rec, b: Rec)
    requires k.numSps > 0
  {
    && Sized(k, p) && Sized(k, b)
    && (b.finished == [] ==>
          b.ssi == p.ssi && SlotStart(k, b) == SlotStart(k, p) && b.totalIters >= p.totalIters)
    && (b.finished != [] ==>
          && SlotStart(k, b) == SlotStart(k, p) + p.ssi + b.ssi * (|b.finished| - 1)
          && (Overflow(k, b) && |b.finished| == 1 ==> b.ssi == p.ssi))
  }

  predicate FollowsAt(k: Constants, c: seq<Rec>, j: int)
    requires k.numSps > 0
  {
    0 < j < |c| ==> Follows(k, c[j - 1], c[j])
  }

  predicate Flows(k: Constants, c: seq<Rec>)
    requires k.numSps > 0
  {
    && (forall j :: 0 <= j < |c| ==> Sized(k, c[j]))
    && (forall j :: 0 < j < |c| ==> FollowsAt(k, c, j))
  }

  lemma {:induction false} FirstEpochSsi(k: Constants, c: seq<Rec>)
    requires k.Ok() && ValidHeaders(k, c) && 0 < |c| <= k.epochBlocks
    ensures c[|c| - 1].ssi == k.ssiStarting
  {
    if |c| > 1 { FirstEpochSsi(k, c[..|c| - 1]); }
  }

  /** Sub-slot iterations change only at a block that opens a new epoch. */
  lemma SsiChanges(k: Constants, c: seq<Rec>, b: Rec)
    requires k.Ok() && c != [] && ValidHeaders(k, c) && ParamsOk(k, c, b)
    ensures b.ssi != c[|c| - 1].ssi ==> b.finished != [] && CanFinishEpoch(k, c)
  {
    if |c| <= k.epochBlocks { FirstEpochSsi(k, c); }
    hide ValidHeaders, CanFinishEpoch, MeasureStart, MeasureEnd, RetargetedSsi;
  }

  lemma ValidFollows(k: Constants, c: seq<Rec>, b: Rec)
    requires k.Ok() && c != [] && ValidHeaders(k, c) && ValidNext(k, c, b)
    ensures Follows(k, c[|c| - 1], b)
  {
    SsiChanges(k, c, b);
    hide CanFinishEpoch, NextParams, SpTotal, Ip;
  }

  lemma TipFollows(k: Constants, c: seq<Rec>)
    requires k.Ok() && c != [] && ValidHeaders(k, c)
    ensures Sized(k, c[|c| - 1]) && FollowsAt(k, c, |c| - 1)
  {
    var d, b := c[..|c| - 1], c[|c| - 1];
    hide Follows, NextParams, ItersOk, SummaryOk, SlotSizeOk, OverflowOk, TxOk, DeficitOk, Sized;
    if d != [] { ValidFollows(k, d, b); }
  }

  lemma FlowsExtend(k: Constants, c: seq<Rec>)
    requires k.numSps > 0 && c != [] && Flows(k, c[..|c| - 1])
    requires Sized(k, c[|c| - 1]) && FollowsAt(k, c, |c| - 1)
    ensures Flows(k, c)
  {
    hide Follows, Sized;
    var d := c[..|c| - 1];
    forall j | 0 < j < |d| ensures FollowsAt(k, c, j) { assert FollowsAt(k, d, j); }
  }

  lemma {:induction false} ValidFlows(k: Constants, c: seq<Rec>)
    requires k.Ok() && ValidHeaders(k, c)
    ensures Flows(k, c)
  {
    if c != [] {
      hide ValidHeaders, Flows, FollowsAt, Sized;
      HeadersPrefix(k, c, |c| - 1);
      ValidFlows(k, c[..|c| - 1]);
      TipFollows(k, c);
      FlowsExtend(k, c);
    }
  }

  // ---- Orders along a chain ------------------------------------------------------------------------------

  /** A block infused in a later sub-slot is infused later, and its signage point lies no earlier
      than the start of the previous block's sub-slot. */
  lemma NewSlotIsLater(k: Constants, p: Rec, b: Rec)
    requires k.Ok() && Follows(k, p, b) && b.finished != []
    ensures SlotStart(k, b) >= SlotStart(k, p) + p.ssi
    ensures SpSlotStart(k, b) >= SlotStart(k, p) + p.ssi
            || (SpSlotStart(k, b) == SlotStart(k, p) && b.ssi == p.ssi)
  {
    var n := |b.finished|;
    MulMono(0, n - 1, b.ssi);
    if n >= 2 { MulMono(1, n - 1, b.ssi); }
  }

  lemma TotalsStep(k: Constants, p: Rec, b: Rec)
    requires k.Ok() && Follows(k, p, b)
    ensures p.totalIters <= b.totalIters
  {
    InfusedAfterSp(k, p);
    InfusedAfterSp(k, b);
    hide SlotStart, SpSlotStart, SpTotal;
    if b.finished != [] { NewSlotIsLater(k, p, b); }
  }

  /** On one grid, points less than a step apart downwards are in order. */
  lemma GridOrder(i: nat, a: int, b: int, r: nat, s: nat)
    requires r < i && s < i && i * a + r <= i * b + s
    ensures i * a <= i * b
  {
    if b < a {
      MulDiff(i, a, b);
      MulMono(1, a - b, i);
    }
  }

  /** Signage points never go backwards. */
  lemma SignagePointStep(k: Constants, p: Rec, b: Rec)
    requires k.Ok() && Follows(k, p, b)
    ensures SpTotal(k, p) <= SpTotal(k, b)
  {
    InfusedAfterSp(k, p);
    InfusedAfterSp(k, b);
    TotalsStep(k, p, b);
    if b.ssi == p.ssi {
      SameGrid(k, p, b);
    } else {
      NewSlotIsLater(k, p, b);
    }
  }

  lemma SlotsSpan(i: int, n: int, m: int, x: int)
    ensures i * (n * m + x) == (i * n) * m + i * x
  {
  }

  lemma SameGrid(k: Constants, p: Rec, b: Rec)
    requires k.Ok() && Follows(k, p, b) && b.ssi == p.ssi
    requires p.totalIters <= b.totalIters
    ensures SpTotal(k, p) <= SpTotal(k, b)
  {
    var i, n := Interval(k, b.ssi), |b.finished|;
    InfusedAfterSp(k, p);
    InfusedAfterSp(k, b);
    IntervalTiles(k, b.ssi);
    hide SpTotal, Interval, Offset, Ip;
    var at := k.numSps * n + Offset(k, b);
    SlotsSpan(i, k.numSps, n, Offset(k, b));
    assert SlotStart(k, b) == SlotStart(k, p) + b.ssi * n by {
      if n > 0 { MulSum(b.ssi, n - 1, 1); }
    }
    assert SpTotal(k, b) == SlotStart(k, p) + i * at;
    GridOrder(i, Offset(k, p), at, p.requiredIters, b.requiredIters);
  }

  lemma {:induction false} TotalsNeverGoBack(k: Constants, c: seq<Rec>, i: nat, j: nat)
    requires k.Ok() && Flows(k, c) && i <= j < |c|
    ensures c[i].totalIters <= c[j].totalIters
    decreases j
  {
    if i < j {
      TotalsNeverGoBack(k, c, i, j - 1);
      assert FollowsAt(k, c, j);
      TotalsStep(k, c[j - 1], c[j]);
    }
  }

  lemma {:induction false} SignagePointsNeverGoBack(k: Constants, c: seq<Rec>, i: nat, j: nat)
    requires k.Ok() && Flows(k, c) && i <= j < |c|
    ensures SpTotal(k, c[i]) <= SpTotal(k, c[j])
    decreases j
  {
    hide SpTotal, Follows;
    if i < j {
      SignagePointsNeverGoBack(k, c, i, j - 1);
      assert FollowsAt(k, c, j);
      SignagePointStep(k, c[j - 1], c[j]);
    }
  }

  // ---- Infusion points are off the grid of signage points -----------------------------------------------------

  /** Infusion sub-slots of two blocks are the same, or one ends before the other starts. */
  lemma {:induction false} SlotsTile(k: Constants, c: seq<Rec>, i: nat, j: nat)
    requires k.Ok() && Flows(k, c) && i <= j < |c|
    ensures SlotStart(k, c[j]) >= SlotStart(k, c[i]) + c[i].ssi
            || (SlotStart(k, c[j]) == SlotStart(k, c[i]) && c[j].ssi == c[i].ssi)
    ensures (exists x :: i < x <= j && c[x].finished != []) ==> SlotStart(k, c[j]) >= SlotStart(k, c[i]) + c[i].ssi
    decreases j
  {
    hide SlotStart, SpSlotStart;
    if i < j {
      SlotsTile(k, c, i, j - 1);
      assert FollowsAt(k, c, j);
      if c[j].finished != [] { NewSlotIsLater(k, c[j - 1], c[j]); }
    }
  }

  predicate OffGrid(k: Constants, a: Rec, b: Rec)
    requires k.numSps > 0
  {
    || SpSlotStart(k, b) >= SlotStart(k, a) + a.ssi
    || (SpSlotStart(k, b) == SlotStart(k, a) && b.ssi == a.ssi)
    || SpSlotStart(k, b) + b.ssi <= SlotStart(k, a)
  }

  /** In one sub-slot no block that overflowed follows one that did not. */
  lemma OverflowsFirst(k: Constants, p: Rec, b: Rec)
    requires k.Ok() && Follows(k, p, b) && b.finished == [] && Overflow(k, b)
    ensures Overflow(k, p)
  {
    InfusedAfterSp(k, p);
    InfusedAfterSp(k, b);
    SignagePointStep(k, p, b);
  }

  lemma {:induction false} SpSlotTiles(k: Constants, c: seq<Rec>, i: nat, j: nat)
    requires k.Ok() && Flows(k, c) && i < j < |c|
    ensures OffGrid(k, c[i], c[j])
    decreases j
  {
    hide SlotStart;
    assert FollowsAt(k, c, j);
    var p, b := c[j - 1], c[j];
    SlotsTile(k, c, i, j - 1);
    if b.finished != [] {
      NewSlotIsLater(k, p, b);
    } else if Overflow(k, b) {
      OverflowsFirst(k, p, b);
      if i < j - 1 { SpSlotTiles(k, c, i, j - 1); }
    }
  }

  lemma OffGridPoint(i: nat, a: int, r: nat, b: int)
    requires 0 < r < i
    ensures i * a + r != i * b
  {
    if i * a + r == i * b { DivModUnique(i, a, r, b, 0); }
  }

  lemma GridApart(g: nat, a: int, extra: int, r: nat, b: int)
    requires 0 < r < g
    ensures g * a + extra * g + r != g * b
  {
    MulSum(g, a, extra);
    OffGridPoint(g, a + extra, r, b);
  }

  /** No signage point coincides with the infusion of an earlier block. */
  lemma SpIsNotInfusion(k: Constants, c: seq<Rec>, i: nat, j: nat)
    requires k.Ok() && Flows(k, c) && i < j < |c|
    ensures SpTotal(k, c[j]) != c[i].totalIters
  {
    var a, b := c[i], c[j];
    SpSlotTiles(k, c, i, j);
    InfusedAfterSp(k, a);
    InfusedAfterSp(k, b);
    var g := Interval(k, a.ssi);
    assert b.ssi == a.ssi ==> SpTotal(k, b) == SpSlotStart(k, b) + g * b.spIndex;
    hide SlotStart, SpSlotStart, SpTotal, Interval, Offset;
    GridApart(g, Offset(k, a), k.extra, a.requiredIters, b.spIndex);
  }

  /** Along every valid chain neither infusions nor signage points go backwards, and no signage point
      coincides with an earlier infusion. */
  lemma ChainIsOrdered(k: Constants, c: seq<Rec>, i: nat, j: nat)
    requires k.Ok() && ValidHeaders(k, c) && i < j < |c|
    ensures c[i].totalIters <= c[j].totalIters
    ensures SpTotal(k, c[i]) <= SpTotal(k, c[j])
    ensures SpTotal(k, c[j]) != c[i].totalIters
  {
    hide ValidHeaders, Flows, SpTotal;
    ValidFlows(k, c);
    TotalsNeverGoBack(k, c, i, j);
    SignagePointsNeverGoBack(k, c, i, j);
    SpIsNotInfusion(k, c, i, j);
  }
}
