/** Where transaction blocks and sub-slot ends fall along a valid chain. */
module TxBlocks {
  import opened PotIterations
  import opened Headers
  import opened SignagePoints

  lemma TxAt(k: Constants, c: seq<Rec>, j: nat)
    requires k.Ok() && ValidHeaders(k, c) && j < |c|
    ensures TxOk(k, c[..j], c[j])
  {
    hide ValidHeaders, TxOk;
    HeaderAt(k, c, j);
  }

  lemma LastTxFrom(c: seq<Rec>, t: nat, n: nat)
    requires t < n <= |c| && c[t].IsTx() && forall i :: t < i < n ==> !c[i].IsTx()
    ensures LastTxHeight(c[..n]) == t
  {
    var d := c[..n];
    assert d[t].IsTx();
  }

  // ---- The end of a measured stretch ---------------------------------------------------------------------

  /** An earlier transaction block is infused before the signage point of a later one. */
  lemma TxBeforeSp(k: Constants, c: seq<Rec>, t: nat)
    requires k.Ok() && ValidHeaders(k, c) && t < |c| && c[t].IsTx()
    requires LastTxHeight(c[..t]) >= 0
    ensures c[LastTxHeight(c[..t])].totalIters < SpTotal(k, c[t])
    ensures c[LastTxHeight(c[..t])].Time() < c[t].Time()
  {
    hide ValidHeaders, SpTotal;
    TxAt(k, c, t);
  }

  /** A last block that is no transaction block has its signage point between the infusions of the
      last two transaction blocks. */
  lemma SpBetweenTxs(k: Constants, c: seq<Rec>)
    requires k.Ok() && ValidHeaders(k, c) && c != [] && !c[|c| - 1].IsTx()
    ensures LastTxHeight(c) >= 0 && c[LastTxHeight(c)].totalIters > SpTotal(k, c[|c| - 1])
    ensures SecondLastTx(c) >= 0 ==> c[SecondLastTx(c)].totalIters < SpTotal(k, c[|c| - 1])
  {
    var h, t := |c| - 1, LastTxHeight(c);
    TxAt(k, c, h);
    ValidFlows(k, c);
    hide ValidHeaders, SpTotal, Flows;
    SpIsNotInfusion(k, c, t, h);
    if SecondLastTx(c) >= 0 {
      TxBeforeSp(k, c, t);
      SignagePointsNeverGoBack(k, c, t, h);
    }
  }

  /** The walk back from the parent of the last block, to the first transaction block infused before
      the last block's signage point, stops at the second-to-last transaction block of the chain,
      whether or not the last block is one itself. */
  lemma WalkEndsAtSecondLastTx(k: Constants, c: seq<Rec>)
    requires k.Ok() && ValidHeaders(k, c) && c != []
    ensures MeasureEnd(k, c) == AsOption(SecondLastTx(c))
  {
    var h, t, u := |c| - 1, LastTxHeight(c), SecondLastTx(c);
    var sp := SpTotal(k, c[h]);
    TxAt(k, c, h);
    if !c[h].IsTx() { SpBetweenTxs(k, c); }
    hide ValidHeaders, SpTotal, LastTxNotAfter;
    assert forall i :: u < i < t ==> !c[i].IsTx() by {
      assert forall i :: 0 <= i < t ==> c[..t][i] == c[i];
    }
    WalkIs(c, h, sp, u, t);
  }

  /** The walk passes `t`, the only transaction block above `u`, when `t` is infused too late. */
  lemma WalkIs(c: seq<Rec>, n: nat, iters: int, u: int, t: nat)
    requires n <= |c| && -1 <= u < t <= n
    requires u >= 0 ==> c[u].IsTx() && c[u].totalIters <= iters
    requires forall i :: u < i < n && i != t ==> !c[i].IsTx()
    requires t < n ==> c[t].totalIters > iters
    ensures LastTxNotAfter(c, n, iters) == u
  {
    assert u == -1 || u <= LastTxNotAfter(c, n, iters);
  }

  // ---- Sub-slots end, and transaction blocks come, often enough --------------------------------------------

  /** A sub-slot holds at most `maxSlotBlocks` blocks. */
  lemma {:induction false} SlotHolds(k: Constants, c: seq<Rec>, j: nat)
    requires k.Ok() && ValidHeaders(k, c) && j < |c|
    ensures j - FirstOfSlot(c[..j + 1]) + 1 <= k.maxSlotBlocks
  {
    hide ValidHeaders, ParamsOk, ItersOk, SummaryOk, OverflowOk, TxOk, DeficitOk;
    HeaderAt(k, c, j);
    assert c[..j + 1][..j] == c[..j];
  }

  ghost predicate SlotEndsIn(c: seq<Rec>, a: int, b: nat)
  {
    exists x :: 0 < x < |c| && a < x <= b && c[x].finished != []
  }

  /** A new sub-slot starts within `maxSlotBlocks` blocks of any block. */
  lemma SlotEndsWithin(k: Constants, c: seq<Rec>, a: nat)
    requires k.Ok() && ValidHeaders(k, c) && a + k.maxSlotBlocks < |c|
    ensures SlotEndsIn(c, a, a + k.maxSlotBlocks)
  {
    var b := a + k.maxSlotBlocks;
    SlotHolds(k, c, b);
    var f := FirstOfSlot(c[..b + 1]);
    assert c[f].finished != [];
  }

  lemma SpAfterPrevSlot(k: Constants, c: seq<Rec>, g: nat, f: nat, t: nat)
    requires k.Ok() && Flows(k, c) && t < g < f < |c| && c[g].finished != [] && c[f].finished != []
    ensures SpTotal(k, c[f]) > c[t].totalIters
  {
    hide SlotStart, SpTotal, SpSlotStart;
    SlotsTile(k, c, t, f - 1);
    assert FollowsAt(k, c, f);
    NewSlotIsLater(k, c[f - 1], c[f]);
    InfusedAfterSp(k, c[f]);
    InfusedAfterSp(k, c[t]);
  }

  /** At most `2 * maxSlotBlocks - 1` blocks in a row are not transaction blocks: those after a
      transaction block lie in its sub-slot or in the next one. */
  lemma TxComesSoon(k: Constants, c: seq<Rec>, t: nat, b: nat)
    requires k.Ok() && ValidHeaders(k, c) && t <= b < |c| && c[t].IsTx()
    requires forall i :: t < i <= b ==> !c[i].IsTx()
    ensures b - t < 2 * k.maxSlotBlocks
  {
    hide ValidHeaders, Flows, SpTotal, LastTxHeight;
    ValidFlows(k, c);
    SlotHolds(k, c, b);
    var f := FirstOfSlot(c[..b + 1]);
    if f > t {
      SlotHolds(k, c, f - 1);
      var g := FirstOfSlot(c[..f]);
      if g > t {
        assert c[f].finished != [] && c[g].finished != [];
        SpAfterPrevSlot(k, c, g, f, t);
        TxAt(k, c, f);
        LastTxFrom(c, t, f);
        assert false;
      }
    }
  }

  ghost predicate TxIn(c: seq<Rec>, a: int, b: nat)
  {
    exists x :: 0 <= x < |c| && a < x <= b && c[x].IsTx()
  }

  lemma TxWithin(k: Constants, c: seq<Rec>, a: nat)
    requires k.Ok() && ValidHeaders(k, c) && a + 2 * k.maxSlotBlocks < |c|
    ensures TxIn(c, a, a + 2 * k.maxSlotBlocks)
  {
    TxAt(k, c, 0);
    var b := a + 2 * k.maxSlotBlocks;
    var t := LastTxHeight(c[..b + 1]);
    assert t >= 0 by { assert c[..b + 1][0].IsTx(); }
    forall i | t < i <= b ensures !c[i].IsTx() { assert c[..b + 1][i] == c[i]; }
    TxComesSoon(k, c, t, b);
    assert c[t].IsTx();
  }

  /** Timestamps strictly increase from transaction block to transaction block. */
  lemma {:induction false} TimesIncrease(k: Constants, c: seq<Rec>, i: nat, j: nat)
    requires k.Ok() && ValidHeaders(k, c) && i < j < |c| && c[i].IsTx() && c[j].IsTx()
    ensures c[i].Time() < c[j].Time()
    decreases j
  {
    hide ValidHeaders;
    var u := LastTxHeight(c[..j]);
    assert u >= i by { assert c[..j][i].IsTx(); }
    TxBeforeSp(k, c, j);
    if i < u { TimesIncrease(k, c, i, u); }
  }
}
