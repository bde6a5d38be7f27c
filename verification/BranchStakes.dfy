/** What two branches make of the stake of a puzzle hash. */
module BranchStakes {
  import opened Coins
  import opened Ledger
  import opened BlockTree

  /** The worth of the coins of a puzzle hash that a chain leaves unspent. */
  ghost function StakeOn(c: seq<Block>, ph: PuzzleHash): nat
  {
    SumSet(HeldBy(UnspentCoins(Replay(c)), ph))
  }

  /** What the blocks above `f` create for a puzzle hash, less what they spend of it. */
  ghost function GainSince(c: seq<Block>, ph: PuzzleHash, f: int): int
    requires f >= -1
  {
    SumSet(HeldBy(CreatedSince(c, f), ph)) - SumSet(HeldBy(RemovedSince(c, f), ph))
  }

  lemma UnspentSplits(t: CoinTable, h: int, n: nat, f: int, ph: PuzzleHash)
    requires TableInv(t, h, n) && f >= -1
    ensures var kept, created, removed :=
        HeldBy(UnspentCoins(Rollback(t, f)), ph), HeldBy(ConfirmedAbove(t, f), ph), HeldBy(SpentAbove(t, f), ph);
      && kept !! created && removed <= kept + created
      && HeldBy(UnspentCoins(t), ph) == kept + created - removed
  {
    var r := Rollback(t, f);
    forall x ensures x in r <==> x in t && t[x].confirmedIndex <= f {}
  }

  /** The stake on a chain is the stake at any of its blocks and what was gained since. */
  lemma StakeSince(c: seq<Block>, ph: PuzzleHash, f: int)
    requires ValidChain(c) && -1 <= f < |c|
    ensures StakeOn(c, ph) == StakeOn(c[..f + 1], ph) + GainSince(c, ph, f)
  {
    hide ValidChain, Replay, SumSet, UnspentCoins, Rollback, ConfirmedAbove, SpentAbove, HeldBy, TableInv;
    var t := Replay(c);
    ReplayInv(c);
    RollbackToPrefix(c, f + 1);
    SinceByHeight(c, f);
    UnspentSplits(t, |c| - 1, ClaimedBelow(c), f, ph);
    var kept, created, removed :=
      HeldBy(UnspentCoins(Rollback(t, f)), ph), HeldBy(ConfirmedAbove(t, f), ph), HeldBy(SpentAbove(t, f), ph);
    SumSetUnion(kept, created);
    SumSetMinus(kept + created, removed);
  }

  /** Two branches leave the same stake exactly when they gained the same since their fork. */
  lemma StakesAgreeIff(c: seq<Block>, d: seq<Block>, ph: PuzzleHash, f: int)
    requires ValidChain(c) && ValidChain(d) && IsFork(c, d, f)
    ensures StakeOn(c, ph) == StakeOn(d, ph) <==> GainSince(c, ph, f) == GainSince(d, ph, f)
  {
    hide ValidChain, StakeOn, GainSince;
    StakeSince(c, ph, f);
    StakeSince(d, ph, f);
    ForkPrefix(c, d, f);
    assert c[..f + 1] == d[..f + 1];
  }
}
