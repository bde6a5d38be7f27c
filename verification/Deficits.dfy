/** The deficit along a valid chain. */
module Deficits {
  import opened PotIterations
  import opened Headers
  import opened SignagePoints

  lemma DeficitAt(k: Constants, c: seq<Rec>, j: nat)
    requires k.Ok() && ValidHeaders(k, c) && j < |c|
    ensures DeficitOk(k, c[..j], c[j])
    ensures j > 0 ==> c[j].deficit == NextDeficit(k, c[j - 1].deficit, Overflow(k, c[j]), |c[j].finished|)
  {
    HeaderAt(k, c, j);
    hide ValidHeaders, ParamsOk, ItersOk, SummaryOk, OverflowOk, TxOk, SlotSizeOk;
  }

  predicate IsChallengeBlock(k: Constants, b: Rec) { b.deficit == k.minBlocks - 1 }

  /** The deficit stays between 0 and the minimum, and is the minimum only on overflow blocks. */
  lemma {:induction false} DeficitRange(k: Constants, c: seq<Rec>, j: nat)
    requires k.Ok() && ValidHeaders(k, c) && j < |c|
    ensures c[j].deficit <= k.minBlocks
    ensures c[j].deficit == k.minBlocks ==> Overflow(k, c[j])
  {
    hide ValidHeaders, Overflow;
    DeficitAt(k, c, j);
    if j > 0 { DeficitRange(k, c, j - 1); }
  }

  /** Once below the minimum, the deficit falls by one with every block until it is 0. */
  lemma {:induction false} DeficitFalls(k: Constants, c: seq<Rec>, j: nat, n: nat)
    requires k.Ok() && ValidHeaders(k, c) && j + n < |c| && n <= c[j].deficit < k.minBlocks
    ensures c[j + n].deficit == c[j].deficit - n
    decreases n
  {
    hide ValidHeaders, Overflow;
    if n > 0 {
      DeficitFalls(k, c, j, n - 1);
      DeficitAt(k, c, j + n);
    }
  }

  /** Challenge blocks are at least `minBlocks` apart. */
  lemma ChallengeBlocksApart(k: Constants, c: seq<Rec>, i: nat, j: nat)
    requires k.Ok() && ValidHeaders(k, c) && i < j < |c|
    requires IsChallengeBlock(k, c[i]) && IsChallengeBlock(k, c[j])
    ensures j - i >= k.minBlocks
  {
    hide ValidHeaders;
    if j - i < k.minBlocks { DeficitFalls(k, c, i, j - i); }
  }

  lemma {:induction false} NoChallengeInSlot(k: Constants, c: seq<Rec>, i: nat, j: nat)
    requires k.Ok() && ValidHeaders(k, c) && i < j < |c| && c[i].deficit < k.minBlocks
    requires forall x :: i < x <= j ==> c[x].finished == []
    ensures c[j].deficit < k.minBlocks - 1
    decreases j
  {
    hide ValidHeaders, Overflow;
    DeficitAt(k, c, j);
    if i < j - 1 { NoChallengeInSlot(k, c, i, j - 1); }
  }

  /** No sub-slot holds two challenge blocks: between two of them a sub-slot ends. */
  lemma OneChallengePerSlot(k: Constants, c: seq<Rec>, i: nat, j: nat)
    requires k.Ok() && ValidHeaders(k, c) && i < j < |c|
    requires IsChallengeBlock(k, c[i]) && IsChallengeBlock(k, c[j])
    ensures exists x :: i < x <= j && c[x].finished != []
  {
    hide ValidHeaders;
    if forall x :: i < x <= j ==> c[x].finished == [] { NoChallengeInSlot(k, c, i, j); }
  }

  /** The finished sub-slots of a block all carry the same deficit: the minimum at genesis and after a block
      with deficit 0, else that block's own. The next block counts down from it, unless it overflows out of
      a sub-slot that reset the deficit. */
  lemma SlotCarriesDeficit(k: Constants, c: seq<Rec>, j: nat)
    requires k.Ok() && ValidHeaders(k, c) && j < |c| && c[j].finished != []
    ensures var d := if j == 0 || c[j - 1].deficit == 0 then k.minBlocks else c[j - 1].deficit;
      && 0 < d <= k.minBlocks && (forall s :: s in c[j].finished ==> s.deficit == d)
      && c[j].deficit ==
         if j > 0 && c[j - 1].deficit == 0 && Overflow(k, c[j]) && |c[j].finished| == 1 then d else d - 1
  {
    hide ValidHeaders, Overflow;
    DeficitAt(k, c, j);
    if j > 0 {
      DeficitRange(k, c, j - 1);
      assert c[..j][j - 1] == c[j - 1];
    }
  }

  /** A deficit of 0 stays until a sub-slot ends. */
  lemma {:induction false} ZeroStays(k: Constants, c: seq<Rec>, i: nat, j: nat)
    requires k.Ok() && ValidHeaders(k, c) && i <= j < |c| && c[i].deficit == 0
    requires forall x :: i < x <= j ==> c[x].finished == []
    ensures c[j].deficit == 0
    decreases j
  {
    hide ValidHeaders, Overflow;
    if i < j {
      ZeroStays(k, c, i, j - 1);
      DeficitAt(k, c, j);
    }
  }

  /** The deficit is the full minimum exactly on the overflow blocks of a sub-slot that one sub-slot end
      opened after a block with deficit 0: they still belong to the challenge before. */
  lemma {:induction false} FullDeficitIff(k: Constants, c: seq<Rec>, j: nat)
    requires k.Ok() && ValidHeaders(k, c) && j < |c|
    ensures var f := FirstOfSlot(c[..j + 1]);
      c[j].deficit == k.minBlocks <==>
      Overflow(k, c[j]) && f > 0 && |c[f].finished| == 1 && c[f - 1].deficit == 0
    decreases j
  {
    hide ValidHeaders, Overflow, FirstOfSlot, IsPow2;
    DeficitAt(k, c, j);
    DeficitRange(k, c, j);
    OpenerOf(c, j);
    if j > 0 {
      DeficitRange(k, c, j - 1);
      if c[j].finished == [] {
        FullDeficitIff(k, c, j - 1);
        OverflowBefore(k, c, j);
      }
    }
  }

  lemma OpenerOf(c: seq<Rec>, j: nat)
    requires j < |c|
    ensures FirstOfSlot(c[..j + 1]) ==
            if j == 0 || c[j].finished != [] then j else FirstOfSlot(c[..j])
  {
    assert c[..j + 1][..j] == c[..j];
  }

  lemma OverflowBefore(k: Constants, c: seq<Rec>, j: nat)
    requires k.Ok() && ValidHeaders(k, c) && 0 < j < |c| && c[j].finished == []
    ensures Overflow(k, c[j]) ==> Overflow(k, c[j - 1])
  {
    ValidFlows(k, c);
    hide ValidHeaders;
    assert FollowsAt(k, c, j);
    if Overflow(k, c[j]) { OverflowsFirst(k, c[j - 1], c[j]); }
  }
}
