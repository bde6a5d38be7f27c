/** What the coin report of a reorganisation holds, written out over the two branches. */
module CoinReports {
  import opened Coins
  import opened Ledger
  import opened BlockTree
  import opened BodyRules
  import opened Blockchains

  ghost predicate CreatedAbove(c: seq<Block>, x: Coin, f: int) { exists h :: h > f && CreatedOn(c, x, h) }

  ghost predicate SpentAboveOn(c: seq<Block>, x: Coin, f: int) { exists h :: h > f && SpentOn(c, x, h) }

  lemma AboveIff(c: seq<Block>, x: Coin, f: int)
    requires ValidChain(c)
    ensures CreatedAbove(c, x, f) <==> x in Replay(c) && Replay(c)[x].confirmedIndex > f
    ensures SpentAboveOn(c, x, f) <==> x in Replay(c) && Replay(c)[x].spent && Replay(c)[x].spentIndex > f
  {
    TableIsHistory(c, x);
    SpentHeights(c, x);
    forall h | CreatedOn(c, x, h) ensures x in Replay(c) && Replay(c)[x].confirmedIndex == h { CreatedRow(c, h, x); }
    hide ValidChain, Replay;
  }

  /** A coin is reported if the new branch creates or spends it, with its row on that branch, or if the old
      branch created it and the new one has nothing to do with it, with its old row unconfirmed. */
  lemma ReportIs(c: seq<Block>, d: seq<Block>, f: int, x: Coin)
    requires ValidChain(c) && ValidChain(d) && IsFork(c, d, f)
    ensures var report, touched := ChangeSet(Replay(d), Replay(c), f), CreatedAbove(c, x, f) || SpentAboveOn(c, x, f);
      && (x in report <==> touched || CreatedAbove(d, x, f))
      && (touched ==> x in Replay(c) && report[x] == Replay(c)[x])
      && (!touched && x in report ==>
            x in Replay(d) && report[x] == Replay(d)[x].(confirmedIndex := 0, timestamp := 0))
  {
    hide ValidChain, Replay, CreatedAbove, SpentAboveOn;
    AboveIff(c, x, f);
    AboveIff(d, x, f);
  }
}
