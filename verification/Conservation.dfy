/** Conservation of value: what the reward schedule has issued is unspent or pending as fees. */
module Conservation {
  import opened Coins
  import opened Ledger

  function IssuedBelow(n: nat): nat
  {
    if n == 0 then 0 else IssuedBelow(n - 1) + BlockReward(n - 1)
  }

  function FeesBetween(c: seq<Block>, lo: nat, hi: nat): nat
    requires lo <= hi <= |c|
  {
    if lo == hi then 0 else FeesBetween(c, lo, hi - 1) + c[hi - 1].Fees()
  }

  lemma CoinsBetweenSplit(c: seq<Block>, lo: nat, mid: nat, hi: nat)
    requires lo <= mid <= hi <= |c| && IsChain(c)
    ensures CoinsBetween(c, lo, hi) == CoinsBetween(c, lo, mid) + CoinsBetween(c, mid, hi)
    ensures CoinsBetween(c, lo, mid) !! CoinsBetween(c, mid, hi)
  {
  }

  lemma CoinsBetweenNone(c: seq<Block>, i: nat)
    requires i <= |c|
    ensures CoinsBetween(c, i, i) == {}
  {
  }

  lemma CoinsBetweenOne(c: seq<Block>, i: nat)
    requires i < |c| && IsChain(c)
    ensures CoinsBetween(c, i, i + 1) == {PoolCoin(c[i]), FarmerCoin(c[i], c[i].Fees())}
    ensures |CoinsBetween(c, i, i + 1)| == 2
    ensures SumSet(CoinsBetween(c, i, i + 1)) == BlockReward(i) + c[i].Fees()
  {
    var p, q := PoolCoin(c[i]), FarmerCoin(c[i], c[i].Fees());
    assert CoinsBetween(c, i, i + 1) == {p} + {q};
    SumSetUnion({p}, {q});
    SumSetRemove({p}, p);
    SumSetRemove({q}, q);
    assert {p} - {p} == {} && {q} - {q} == {};
    RewardSplit(i);
  }

  lemma SumNone()
    ensures SumSet({}) == 0
  {
  }

  lemma SumDisjoint(s: set<Coin>, t: set<Coin>, u: set<Coin>)
    requires s !! t && u == s + t
    ensures SumSet(u) == SumSet(s) + SumSet(t) && |u| == |s| + |t|
  {
    SumSetUnion(s, t);
  }

  lemma CoinsBetweenOneSum(c: seq<Block>, i: nat)
    requires i < |c| && IsChain(c)
    ensures |CoinsBetween(c, i, i + 1)| == 2
    ensures SumSet(CoinsBetween(c, i, i + 1)) == BlockReward(i) + c[i].Fees()
  {
    hide CoinsBetween, SumSet, BlockReward;
    CoinsBetweenOne(c, i);
  }

  lemma CoinsBetweenStep(c: seq<Block>, lo: nat, hi: nat)
    requires lo < hi <= |c| && IsChain(c)
    ensures SumSet(CoinsBetween(c, lo, hi)) ==
            SumSet(CoinsBetween(c, lo, hi - 1)) + BlockReward(hi - 1) + c[hi - 1].Fees()
    ensures |CoinsBetween(c, lo, hi)| == |CoinsBetween(c, lo, hi - 1)| + 2
  {
    hide CoinsBetween, IsChain, SumSet, BlockReward;
    CoinsBetweenSplit(c, lo, hi - 1, hi);
    CoinsBetweenOneSum(c, hi - 1);
    SumDisjoint(CoinsBetween(c, lo, hi - 1), CoinsBetween(c, hi - 1, hi), CoinsBetween(c, lo, hi));
  }

  lemma SumsStep(c: seq<Block>, lo: nat, hi: nat)
    requires lo <= hi <= |c|
    ensures lo == hi ==> FeesBetween(c, lo, hi) == 0
    ensures lo < hi ==>
      && IssuedBelow(hi) == IssuedBelow(hi - 1) + BlockReward(hi - 1)
      && FeesBetween(c, lo, hi) == FeesBetween(c, lo, hi - 1) + c[hi - 1].Fees()
  {
    hide BlockReward;
  }

  /** A range of heights holds two reward coins per height, worth its issuance and its fees. */
  lemma {:induction false} CoinsBetweenSum(c: seq<Block>, lo: nat, hi: nat)
    requires lo <= hi <= |c| && IsChain(c)
    ensures SumSet(CoinsBetween(c, lo, hi)) == IssuedBelow(hi) - IssuedBelow(lo) + FeesBetween(c, lo, hi)
    ensures |CoinsBetween(c, lo, hi)| == 2 * (hi - lo)
  {
    hide CoinsBetween, IsChain, SumSet, BlockReward, IssuedBelow, FeesBetween;
    SumsStep(c, lo, hi);
    if lo == hi {
      CoinsBetweenNone(c, lo);
      SumNone();
    } else {
      CoinsBetweenSum(c, lo, hi - 1);
      CoinsBetweenStep(c, lo, hi);
    }
  }

  lemma {:induction false} NoFeesWithoutTx(c: seq<Block>, lo: nat, hi: nat)
    requires lo <= hi <= |c|
    requires forall i :: lo <= i < hi ==> !c[i].IsTx()
    ensures FeesBetween(c, lo, hi) == 0
  {
    if lo < hi { NoFeesWithoutTx(c, lo, hi - 1); }
  }

  /** Only the last transaction block of the claimed range carries fees. */
  lemma ExpectedRewardsSum(c: seq<Block>)
    requires IsChain(c) && c != []
    ensures |ExpectedRewards(c)| >= 2
    ensures SumSet(ExpectedRewards(c)) ==
            IssuedBelow(LastTx(c) + 1) - IssuedBelow(ClaimedBelow(c)) + c[LastTx(c)].Fees()
  {
    hide CoinsBetween, IsChain;
    var n, p := ClaimedBelow(c), LastTx(c);
    CoinsBetweenSum(c, n, p + 1);
    NoTxInClaimedRange(c);
    NoFeesWithoutTx(c, n, p);
  }

  lemma NoTxInClaimedRange(c: seq<Block>)
    requires IsChain(c) && c != []
    ensures forall i :: ClaimedBelow(c) <= i < LastTx(c) ==> !c[i].IsTx()
  {
    forall i | ClaimedBelow(c) <= i < LastTx(c) ensures !c[i].IsTx() { assert c[..LastTx(c)][i] == c[i]; }
  }

  lemma FeesFit(c: seq<Block>, i: nat)
    requires ValidChain(c) && i < |c|
    ensures c[i].height == i && FarmerBase(i) + c[i].Fees() <= MAX_COIN_AMOUNT
  {
    hide Replay, RewardsValid, DistinctOutputs, SpendsValid, PuzzlesValid;
    ValidIsChain(c);
    ValidPrefix(c, i + 1);
    assert c[..i + 1][..i] == c[..i] && c[..i + 1][i] == c[i];
  }

  /** A reward coin never overflows the largest coin amount: the block that earned the fees was
      only accepted because its farmer's coin would fit. */
  lemma RewardCoinsFit(c: seq<Block>)
    requires ValidChain(c)
    ensures forall x :: x in ExpectedRewards(c) ==> x.amount <= MAX_COIN_AMOUNT
  {
    forall i | 0 <= i < |c| ensures FarmerBase(c[i].height) + c[i].Fees() <= MAX_COIN_AMOUNT { FeesFit(c, i); }
    hide ValidChain, LastTx, FarmerBase, CoinsBetween;
    CoinsBetweenFit(c, ClaimedBelow(c), LastTx(c) + 1);
  }

  lemma CoinsBetweenFit(c: seq<Block>, lo: nat, hi: nat)
    requires lo <= hi <= |c|
    requires forall i :: lo <= i < hi ==> FarmerBase(c[i].height) + c[i].Fees() <= MAX_COIN_AMOUNT
    ensures forall x :: x in CoinsBetween(c, lo, hi) ==> x.amount <= MAX_COIN_AMOUNT
  {
    hide FarmerBase;
    assert forall h: nat :: PoolBase(h) <= MAX_COIN_AMOUNT;
    hide PoolBase;
  }

  // ---- Each height's reward is claimed exactly once --------------------------------------------

  ghost function RewardRows(t: CoinTable): set<Coin>
  {
    set x | x in t && !x.parent.SpentCoin?
  }

  lemma ApplyRewardRows(t: CoinTable, b: Block)
    requires forall x :: x in b.Claims() ==> !x.parent.SpentCoin?
    ensures RewardRows(ApplyBlock(t, b)) == RewardRows(t) + Elements(b.Claims())
  {
  }

  /** The reward coins of a chain are one pool and one farmer coin for each height below
      `ClaimedBelow`, and no other. */
  lemma {:induction false} RewardsClaimedOnce(c: seq<Block>)
    requires ValidChain(c)
    ensures RewardRows(Replay(c)) == CoinsBetween(c, 0, ClaimedBelow(c))
  {
    if c == [] {
      assert CoinsBetween(c, 0, 0) == {};
    } else {
      RewardsClaimedOnce(c[..|c| - 1]);
      RewardsClaimedTip(c);
    }
  }

  lemma TipFacts(c: seq<Block>)
    requires ValidChain(c) && c != []
    ensures IsChain(c[..|c| - 1])
    ensures c[|c| - 1].IsTx() ==> RewardsValid(c[..|c| - 1], c[|c| - 1])
  {
    hide Replay, RewardsValid, SpendsValid, FeesValid, AmountsValid, DistinctOutputs, PuzzlesValid, IsChain;
    ValidIsChain(c[..|c| - 1]);
  }

  lemma TipReplay(c: seq<Block>)
    requires c != []
    ensures Replay(c) ==
            if c[|c| - 1].IsTx() then ApplyBlock(Replay(c[..|c| - 1]), c[|c| - 1]) else Replay(c[..|c| - 1])
    ensures c[|c| - 1].IsTx() ==> ClaimedBelow(c) == LastTx(c[..|c| - 1]) + 1
  {
    hide ApplyBlock;
  }

  lemma RewardsClaimedTip(c: seq<Block>)
    requires ValidChain(c) && c != []
    requires RewardRows(Replay(c[..|c| - 1])) == CoinsBetween(c[..|c| - 1], 0, ClaimedBelow(c[..|c| - 1]))
    ensures RewardRows(Replay(c)) == CoinsBetween(c, 0, ClaimedBelow(c))
  {
    hide CoinsBetween, RewardRows, RewardsValid, ValidChain, Replay, ApplyBlock, IsChain, ClaimedBelow, LastTx;
    var front, b := c[..|c| - 1], c[|c| - 1];
    TipFacts(c);
    TipReplay(c);
    if b.IsTx() {
      RewardsClaimedStep(front, b);
      CoinsBetweenPrefix(c, |c| - 1, 0, LastTx(front) + 1);
    } else {
      ClaimedUnchanged(c);
      CoinsBetweenPrefix(c, |c| - 1, 0, ClaimedBelow(c));
    }
  }

  lemma ClaimedUnchanged(c: seq<Block>)
    requires c != [] && !c[|c| - 1].IsTx()
    ensures LastTx(c) == LastTx(c[..|c| - 1]) && ClaimedBelow(c) == ClaimedBelow(c[..|c| - 1])
  {
    var front := c[..|c| - 1];
    if LastTx(c) >= 0 { assert c[..LastTx(c)] == front[..LastTx(front)]; }
  }

  lemma CoinsBetweenPrefix(c: seq<Block>, k: nat, lo: nat, hi: nat)
    requires lo <= hi <= k <= |c|
    ensures CoinsBetween(c[..k], lo, hi) == CoinsBetween(c, lo, hi)
  {
    forall x ensures x in CoinsBetween(c[..k], lo, hi) <==> x in CoinsBetween(c, lo, hi) {
      if i :| lo <= i < hi && (x == PoolCoin(c[i]) || x == FarmerCoin(c[i], c[i].Fees())) {
        assert c[..k][i] == c[i];
      }
    }
  }

  lemma ClaimsAreRewards(c: seq<Block>, b: Block)
    requires IsChain(c) && RewardsValid(c, b)
    ensures forall x :: x in b.Claims() ==> !x.parent.SpentCoin?
  {
    ExpectedWithin(c);
    assert forall x :: x in b.Claims() ==> x in Elements(b.Claims());
  }

  lemma RewardsClaimedStep(c: seq<Block>, b: Block)
    requires IsChain(c) && RewardsValid(c, b)
    requires RewardRows(Replay(c)) == CoinsBetween(c, 0, ClaimedBelow(c))
    ensures RewardRows(ApplyBlock(Replay(c), b)) == CoinsBetween(c, 0, LastTx(c) + 1)
  {
    hide CoinsBetween, IsChain, RewardRows, ApplyBlock, LastTx;
    ClaimsAreRewards(c, b);
    ApplyRewardRows(Replay(c), b);
    CoinsBetweenSplit(c, 0, ClaimedBelow(c), LastTx(c) + 1);
  }

  // ---- Conservation -----------------------------------------------------------------------------

  lemma UnspentStep(t: CoinTable, b: Block)
    requires b.Created() !! t.Keys && SpendsValid(t, b)
    ensures UnspentCoins(ApplyBlock(t, b)) == (UnspentCoins(t) + b.Created()) - Elements(b.Removals())
    ensures Elements(b.Removals()) <= UnspentCoins(t) + b.Created()
    ensures UnspentCoins(t) !! b.Created()
  {
    var u := ApplyBlock(t, b);
    forall x ensures x in UnspentCoins(u) <==> x in (UnspentCoins(t) + b.Created()) - Elements(b.Removals()) {
    }
  }

  lemma UnspentSumStep(t: CoinTable, b: Block)
    requires b.Created() !! t.Keys && SpendsValid(t, b) && DistinctOutputs(b) && FeesValid(b)
    ensures SumSet(UnspentCoins(ApplyBlock(t, b))) + b.Fees() ==
            SumSet(UnspentCoins(t)) + SumSet(Elements(b.Claims()))
  {
    UnspentStep(t, b);
    SumSetMinus(UnspentCoins(t) + b.Created(), Elements(b.Removals()));
    SumSetUnion(UnspentCoins(t), b.Created());
    SumSetUnion(Elements(b.Additions()), Elements(b.Claims()));
    SumSeqElements(b.Removals());
    SumSeqElements(b.Additions());
  }

  /** On every valid chain, the unspent coins together with the fees of the last transaction block
      are worth exactly the base rewards of the heights claimed so far. */
  lemma {:induction false} Conserved(c: seq<Block>)
    requires ValidChain(c) && c != []
    ensures SumSet(UnspentCoins(Replay(c))) + c[LastTx(c)].Fees() == IssuedBelow(ClaimedBelow(c))
  {
    var front, b := c[..|c| - 1], c[|c| - 1];
    if b.IsTx() {
      CreatedAllFresh(front, b);
      UnspentSumStep(Replay(front), b);
      if front == [] {
        ExpectedWithin(front);
        assert UnspentCoins(Replay(front)) == {};
      } else {
        ExpectedRewardsSum(front);
        Conserved(front);
      }
    } else {
      Conserved(front);
      assert c[..LastTx(c)] == front[..LastTx(front)];
    }
  }
}
