/** The body rules written out over blocks, spends and coins, and what they say of whole chains. */
module BodyRules {
  import opened Coins
  import opened Ledger
  import opened Conservation
  import opened BodyValidation

  // ---- What a row of the table says --------------------------------------------------------------------------

  predicate CreatedOn(c: seq<Block>, x: Coin, h: int) { 0 <= h < |c| && x in c[h].Created() }

  predicate SpentOn(c: seq<Block>, x: Coin, h: int) { 0 <= h < |c| && x in c[h].Removals() }

  /** The row tells the block that created the coin and, if it is spent, the one that spent it. */
  predicate RowTells(c: seq<Block>, x: Coin, r: CoinRecord)
  {
    && r.coin == x && CreatedOn(c, x, r.confirmedIndex) && r.timestamp == c[r.confirmedIndex].Timestamp()
    && (r.coinbase <==> !x.parent.SpentCoin?)
    && (if r.spent then SpentOn(c, x, r.spentIndex) else r.spentIndex == 0)
  }

  lemma ApplyRow(t: CoinTable, b: Block, x: Coin)
    ensures x in ApplyBlock(t, b) <==> x in t || x in b.Created()
    ensures x in ApplyBlock(t, b) ==>
      var r := if x in t then t[x] else NewRecord(b.height, b.Timestamp(), b.Additions(), x);
      ApplyBlock(t, b)[x] == if x in b.Removals() then MarkSpent(r, b.height) else r
  {
  }

  lemma {:induction false} RowStays(c: seq<Block>, front: seq<Block>, x: Coin, r: CoinRecord)
    requires c != [] && front == c[..|c| - 1] && RowTells(front, x, r)
    ensures RowTells(c, x, r)
    ensures x in c[|c| - 1].Removals() ==> RowTells(c, x, MarkSpent(r, |c| - 1))
  {
  }

  lemma {:induction false} NewRow(c: seq<Block>, b: Block, x: Coin)
    requires c != [] && b == c[|c| - 1] && b.height == |c| - 1 && x in b.Created()
    requires x in b.Additions() <==> x.parent.SpentCoin?
    ensures var r := NewRecord(b.height, b.Timestamp(), b.Additions(), x);
      RowTells(c, x, r) && (x in b.Removals() ==> RowTells(c, x, MarkSpent(r, b.height)))
  {
  }

  lemma {:induction false} TipRow(c: seq<Block>, front: seq<Block>, x: Coin)
    requires ValidChain(c) && c != [] && front == c[..|c| - 1]
    requires x in Replay(front) ==> RowTells(front, x, Replay(front)[x])
    ensures x in Replay(c) <==> x in Replay(front) || x in c[|c| - 1].Created()
    ensures x in Replay(c) ==> RowTells(c, x, Replay(c)[x])
    ensures x in Replay(c) && Replay(c)[x].spent <==>
            (x in Replay(front) && Replay(front)[x].spent) || x in c[|c| - 1].Removals()
  {
    hide ValidChain, Replay, SpendsValid, AdditionsOf, RemovalsOf, ApplyBlock, RowTells;
    var b := c[|c| - 1];
    TipApplies(c);
    TipSpends(Replay(front), b, x);
    if b.IsTx() {
      RewardHasNoCoin(c, front, b);
      TxRow(c, front, b, Replay(front), x);
    } else {
      NoBody(b);
      if x in Replay(front) { RowStays(c, front, x, Replay(front)[x]); }
    }
  }

  lemma TipSpends(t: CoinTable, b: Block, x: Coin)
    requires SpendsValid(t, b)
    ensures x in b.Removals() ==> x in t || x in b.Created()
  {
  }

  /** What a transaction block does to the row of one coin. */
  lemma TxRow(c: seq<Block>, front: seq<Block>, b: Block, t: CoinTable, x: Coin)
    requires c != [] && front == c[..|c| - 1] && b == c[|c| - 1] && b.height == |c| - 1
    requires x in b.Created() ==> (x in b.Additions() <==> x.parent.SpentCoin?)
    requires x in t ==> RowTells(front, x, t[x])
    requires x in b.Removals() ==> x in t || x in b.Created()
    ensures var u := ApplyBlock(t, b);
      && (x in u <==> x in t || x in b.Created())
      && (x in u ==> RowTells(c, x, u[x]))
      && (x in u && u[x].spent <==> (x in t && t[x].spent) || x in b.Removals())
  {
    hide RowTells, AdditionsOf, RemovalsOf, ApplyBlock, NewRecord;
    ApplyRow(t, b, x);
    if x in t { RowStays(c, front, x, t[x]); }
    else if x in b.Created() { NewRow(c, b, x); }
    FreshIsUnspent(b, x);
  }

  lemma FreshIsUnspent(b: Block, x: Coin)
    ensures !NewRecord(b.height, b.Timestamp(), b.Additions(), x).spent
  {
  }

  lemma NoBody(b: Block)
    requires !b.IsTx()
    ensures b.Created() == {} && b.Removals() == []
  {
  }

  lemma RewardHasNoCoin(c: seq<Block>, front: seq<Block>, b: Block)
    requires ValidChain(c) && c != [] && front == c[..|c| - 1] && b == c[|c| - 1] && b.IsTx()
    ensures forall x :: x in b.Claims() ==> !x.parent.SpentCoin?
    ensures forall x :: x in b.Additions() ==> x.parent.SpentCoin?
  {
    hide Replay, AmountsValid, DistinctOutputs, SpendsValid, FeesValid, PuzzlesValid;
    ValidIsChain(front);
    ClaimsAreRewards(front, b);
  }

  /** The table of a valid chain is exactly its history: a coin has a row if some block created it, and is
      marked spent if some block spent it; the row names those blocks. */
  lemma {:induction false} TableIsHistory(c: seq<Block>, x: Coin)
    requires ValidChain(c)
    ensures x in Replay(c) <==> exists h :: CreatedOn(c, x, h)
    ensures x in Replay(c) ==> RowTells(c, x, Replay(c)[x])
    ensures x in Replay(c) && Replay(c)[x].spent <==> exists h :: SpentOn(c, x, h)
  {
    if c != [] {
      var front := c[..|c| - 1];
      ValidPrefix(c, |c| - 1);
      TableIsHistory(front, x);
      TipRow(c, front, x);
      hide ValidChain, Replay, RowTells, CreatedOn, SpentOn, AdditionsOf, RemovalsOf;
      HistoryGrows(c, front, x);
    }
  }

  lemma {:induction false} HistoryGrows(c: seq<Block>, front: seq<Block>, x: Coin)
    requires c != [] && front == c[..|c| - 1]
    ensures (exists h :: CreatedOn(c, x, h)) <==> (exists h :: CreatedOn(front, x, h)) || x in c[|c| - 1].Created()
    ensures (exists h :: SpentOn(c, x, h)) <==> (exists h :: SpentOn(front, x, h)) || x in c[|c| - 1].Removals()
  {
    hide AdditionsOf, RemovalsOf;
    forall h | CreatedOn(front, x, h) ensures CreatedOn(c, x, h) {}
    forall h | SpentOn(front, x, h) ensures SpentOn(c, x, h) {}
    if x in c[|c| - 1].Created() { assert CreatedOn(c, x, |c| - 1); }
    if x in c[|c| - 1].Removals() { assert SpentOn(c, x, |c| - 1); }
    forall h | CreatedOn(c, x, h) && h < |c| - 1 ensures CreatedOn(front, x, h) {}
    forall h | SpentOn(c, x, h) && h < |c| - 1 ensures SpentOn(front, x, h) {}
  }

  // ---- The rules ---------------------------------------------------------------------------------------------

  /** `u` is the last transaction block, and no other lies between height `h` and it. */
  predicate DueFrom(c: seq<Block>, h: int, u: int)
  {
    && 0 <= h <= u < |c| && c[u].IsTx()
    && (forall i :: u < i < |c| ==> !c[i].IsTx()) && (forall i :: h <= i < u ==> !c[i].IsTx())
  }

  predicate RewardOf(b: Block, x: Coin)
  {
    || x == Coin(PoolReward(b.height), b.poolPuzzleHash, PoolBase(b.height))
    || x == Coin(FarmerReward(b.height), b.farmerPuzzleHash, FarmerBase(b.height) + b.Fees())
  }

  /** The rewards due after a chain are those of the blocks since the last transaction block but one. */
  lemma DueRewards(c: seq<Block>, x: Coin)
    requires IsChain(c)
    ensures x in ExpectedRewards(c) <==> exists h, u :: DueFrom(c, h, u) && RewardOf(c[h], x)
  {
    var t := LastTx(c);
    if x in ExpectedRewards(c) {
      var h :| ClaimedBelow(c) <= h <= t && (x == PoolCoin(c[h]) || x == FarmerCoin(c[h], c[h].Fees()));
      DueSince(c, h);
      assert DueFrom(c, h, t) && RewardOf(c[h], x);
    }
    if exists h, u :: DueFrom(c, h, u) && RewardOf(c[h], x) {
      var h, u :| DueFrom(c, h, u) && RewardOf(c[h], x);
      DueSince(c, h);
      assert x == PoolCoin(c[h]) || x == FarmerCoin(c[h], c[h].Fees());
    }
  }

  lemma DueSince(c: seq<Block>, h: nat)
    requires IsChain(c) && h < |c|
    ensures ClaimedBelow(c) <= h <= LastTx(c) <==> DueFrom(c, h, LastTx(c))
    ensures forall u :: DueFrom(c, h, u) ==> u == LastTx(c)
  {
    var t := LastTx(c);
    var p := LastTx(c[..t]);
    assert forall i :: 0 <= i < t ==> c[..t][i] == c[i];
  }

  /** Every output is a coin the spends create, and conversely. */
  predicate OutputAt(spends: seq<Spend>, i: int, k: int, x: Coin)
  {
    && 0 <= i < |spends| && 0 <= k < |spends[i].outputs|
    && x == Coin(SpentCoin(spends[i].coin), spends[i].outputs[k].puzzleHash, spends[i].outputs[k].amount)
  }

  lemma {:induction false} OutputsAre(spends: seq<Spend>, x: Coin)
    ensures x in AdditionsOf(spends) <==> exists i, k :: OutputAt(spends, i, k, x)
  {
    if spends != [] {
      var front, n := spends[..|spends| - 1], |spends| - 1;
      OutputsAre(front, x);
      forall i, k | OutputAt(front, i, k, x) ensures OutputAt(spends, i, k, x) {}
      forall i, k | OutputAt(spends, i, k, x) && i < n ensures OutputAt(front, i, k, x) {}
      if x in OutputsOf(spends[n]) {
        var k :| 0 <= k < |OutputsOf(spends[n])| && OutputsOf(spends[n])[k] == x;
        assert OutputAt(spends, n, k, x);
      }
      forall k | OutputAt(spends, n, k, x) ensures x in OutputsOf(spends[n]) { assert OutputsOf(spends[n])[k] == x; }
    }
  }

  /** All reserved fees, spend by spend. */
  function Reserves(spends: seq<Spend>): seq<int>
  {
    if spends == [] then [] else Reserves(spends[..|spends| - 1]) + spends[|spends| - 1].reservedFees
  }

  lemma {:induction false} SumIntsAppend(s: seq<int>, t: seq<int>)
    ensures SumInts(s + t) == SumInts(s) + SumInts(t)
  {
    if t == [] {
      assert s + t == s;
    } else {
      SumIntsAppend(s, t[..|t| - 1]);
      assert (s + t)[..|s + t| - 1] == s + t[..|t| - 1];
    }
  }

  lemma {:induction false} ReservesAre(spends: seq<Spend>)
    ensures ReservedSum(spends) == SumInts(Reserves(spends))
    ensures ReservesNonNegative(spends) <==> forall r :: r in Reserves(spends) ==> r >= 0
  {
    if spends != [] {
      var front, fees := spends[..|spends| - 1], spends[|spends| - 1].reservedFees;
      ReservesAre(front);
      SumIntsAppend(Reserves(front), fees);
      ReservesSplit(spends, front, fees);
      hide SumInts, ReservedSum, ReservesNonNegative;
      assert Reserves(spends) == Reserves(front) + fees;
      forall r ensures r in Reserves(spends) <==> r in Reserves(front) || r in fees {}
    }
  }

  lemma {:induction false} ReservesSplit(spends: seq<Spend>, front: seq<Spend>, fees: seq<int>)
    requires spends != [] && front == spends[..|spends| - 1] && fees == spends[|spends| - 1].reservedFees
    ensures ReservesNonNegative(spends) <==> ReservesNonNegative(front) && forall r :: r in fees ==> r >= 0
  {
    if ReservesNonNegative(front) && forall r :: r in fees ==> r >= 0 {
      forall i, k | 0 <= i < |spends| && 0 <= k < |spends[i].reservedFees| ensures spends[i].reservedFees[k] >= 0 {
        if i < |front| { assert front[i] == spends[i]; } else { assert fees[k] in fees; }
      }
    }
    if ReservesNonNegative(spends) {
      forall i, k | 0 <= i < |front| && 0 <= k < |front[i].reservedFees| ensures front[i].reservedFees[k] >= 0 {
        assert front[i] == spends[i];
      }
      forall r | r in fees ensures r >= 0 {
        var k :| 0 <= k < |fees| && fees[k] == r;
        assert spends[|spends| - 1].reservedFees[k] >= 0;
      }
    }
  }

  /** What a block's spends leave over. */
  function LeftOver(b: Block): int { SumSeq(b.Removals()) - SumSeq(b.Additions()) }

  /** Along every valid chain a spend reveals the puzzle its coin is locked with, and the reserved fees are
      not negative and covered by what the block's spends leave over, which is the fee it states. */
  lemma {:induction false} SpendsObey(c: seq<Block>, i: nat)
    requires ValidChain(c) && i < |c|
    ensures forall s :: s in c[i].Spends() ==> s.coin.puzzleHash == s.puzzleHash
    ensures forall r :: r in Reserves(c[i].Spends()) ==> r >= 0
    ensures SumInts(Reserves(c[i].Spends())) <= LeftOver(c[i]) == c[i].Fees()
  {
    ReservesAre(c[i].Spends());
    ValidPrefix(c, i + 1);
    assert c[..i + 1][..i] == c[..i];
    hide Replay, IsChain, RewardsValid, AmountsValid, DistinctOutputs, SpendsValid, ReservesNonNegative;
    if !c[i].IsTx() { NoBody(c[i]); }
  }

  // ---- The verdict names the first rule broken -----------------------------------------------------------------

  predicate AllDistinct(s: seq<Coin>) { forall i, j :: 0 <= i < j < |s| ==> s[i] != s[j] }

  ghost predicate ClaimsDue(c: seq<Block>, b: Block)
  {
    && AllDistinct(b.Claims())
    && (forall x :: x in b.Claims() <==> exists h, u :: DueFrom(c, h, u) && RewardOf(c[h], x))
  }

  /** A coin the block creates, or one created on the chain and spent by none of its blocks. */
  ghost predicate MaySpend(c: seq<Block>, b: Block, x: Coin)
  {
    x in b.Additions() || x in b.Claims() || ((exists h :: CreatedOn(c, x, h)) && !exists h :: SpentOn(c, x, h))
  }

  /** The rules for a body on top of `c`, in the order they are checked. */
  ghost predicate Holds(c: seq<Block>, b: Block, n: nat)
  {
    match n
    case 0 => ClaimsDue(c, b)
    case 1 => forall x :: x in b.Additions() || x in b.Claims() ==> x.amount < 0x1_0000_0000_0000_0000
    case 2 => AllDistinct(b.Additions()) && forall x :: x in b.Additions() ==> x !in b.Claims()
    case 3 => forall i, j :: 0 <= i < j < |b.Spends()| ==> b.Spends()[i].coin != b.Spends()[j].coin
    case 4 => forall i :: 0 <= i < |b.Spends()| ==> MaySpend(c, b, b.Spends()[i].coin)
    case 5 => LeftOver(b) >= 0
    case 6 => (forall r :: r in Reserves(b.Spends()) ==> r >= 0) && SumInts(Reserves(b.Spends())) <= LeftOver(b)
    case 7 => LeftOver(b) + FarmerBase(b.height) < 0x1_0000_0000_0000_0000
    case 8 => b.Fees() == LeftOver(b)
    case 9 => forall i :: 0 <= i < |b.Spends()| ==> b.Spends()[i].coin.puzzleHash == b.Spends()[i].puzzleHash
    case _ => true
  }

  ghost predicate FirstBroken(c: seq<Block>, b: Block, n: nat)
  {
    !Holds(c, b, n) && forall m :: 0 <= m < n ==> Holds(c, b, m)
  }

  /** The spend at `i` is the first that may not be made. */
  ghost predicate FirstBadSpend(c: seq<Block>, b: Block, i: int)
  {
    && 0 <= i < |b.Spends()| && !MaySpend(c, b, b.Spends()[i].coin)
    && forall j :: 0 <= j < i ==> MaySpend(c, b, b.Spends()[j].coin)
  }

  /** The error that names a rule; for a spend it depends on where the coin was spent before. */
  ghost predicate ErrorIs(c: seq<Block>, f: int, b: Block, n: nat, err: Err)
  {
    match n
    case 0 => err == InvalidRewardCoins
    case 1 => err == CoinAmountExceedsMaximum
    case 2 => err == DuplicateOutput
    case 3 => err == DoubleSpend
    case 4 => exists i :: FirstBadSpend(c, b, i) && SpendErrorIs(c, f, b.Spends()[i].coin, err)
    case 5 => err == MintingCoin
    case 6 => err == ReserveFeeConditionFailed
    case 7 => err == CoinAmountExceedsMaximum
    case 8 => err == InvalidBlockFeeAmount
    case 9 => err == WrongPuzzleHash
    case _ => false
  }

  ghost predicate SpendErrorIs(c: seq<Block>, f: int, x: Coin, err: Err)
  {
    if !exists h :: CreatedOn(c, x, h) then err == UnknownUnspent
    else if exists h :: SpentOn(c, x, h) && h <= f then err == DoubleSpend
    else err == DoubleSpendInFork
  }

  lemma {:induction false} CountedOnce(s: seq<Coin>)
    ensures |Elements(s)| <= |s|
    ensures |Elements(s)| == |s| <==> AllDistinct(s)
  {
    if s != [] {
      var front, x := s[..|s| - 1], s[|s| - 1];
      CountedOnce(front);
      assert Elements(s) == Elements(front) + {x};
      if AllDistinct(s) {
        forall i | 0 <= i < |front| ensures front[i] != x { assert s[i] != s[|s| - 1]; }
        assert AllDistinct(front) && x !in Elements(front);
      }
      if |Elements(s)| == |s| {
        assert x !in Elements(front);
        forall i, j | 0 <= i < j < |s| ensures s[i] != s[j] {
          if j == |s| - 1 { assert front[i] in Elements(front); } else { assert front[i] != front[j]; }
        }
      }
    }
  }

  lemma ClaimsDueIff(c: seq<Block>, b: Block)
    requires IsChain(c)
    ensures RewardsValid(c, b) <==> ClaimsDue(c, b)
  {
    CountedOnce(b.Claims());
    forall x ensures x in ExpectedRewards(c) <==> exists h, u :: DueFrom(c, h, u) && RewardOf(c[h], x) {
      DueRewards(c, x);
    }
    hide ExpectedRewards, IsChain, DueFrom, RewardOf, AllDistinct;
    forall x ensures x in b.Claims() <==> x in Elements(b.Claims()) {}
    if ClaimsDue(c, b) { assert Elements(b.Claims()) == ExpectedRewards(c); }
  }

  lemma {:induction false} MaySpendIff(c: seq<Block>, f: int, b: Block, x: Coin)
    requires ValidChain(c)
    ensures MaySpend(c, b, x) <==> RemovalVerdict(Replay(c), f, b, x).None?
    ensures !MaySpend(c, b, x) ==> SpendErrorIs(c, f, x, RemovalVerdict(Replay(c), f, b, x).value)
  {
    hide ValidChain, Replay, AdditionsOf, CreatedOn, SpentOn, RowTells;
    TableIsHistory(c, x);
    SpentBelow(c, x, f);
  }

  lemma {:induction false} SpentBelow(c: seq<Block>, x: Coin, f: int)
    requires ValidChain(c)
    ensures (exists h :: SpentOn(c, x, h) && h <= f) <==>
            x in Replay(c) && Replay(c)[x].spent && Replay(c)[x].spentIndex <= f
  {
    hide ValidChain, Replay;
    TableIsHistory(c, x);
    SpentHeights(c, x);
  }

  /** A coin is spent by one block only, the one its row names. */
  lemma {:induction false} SpentHeights(c: seq<Block>, x: Coin)
    requires ValidChain(c)
    ensures forall h :: SpentOn(c, x, h) ==> x in Replay(c) && Replay(c)[x].spent && Replay(c)[x].spentIndex == h
  {
    TableIsHistory(c, x);
    hide Replay, ValidChain;
    forall h | SpentOn(c, x, h) ensures Replay(c)[x].spentIndex == h {
      SpentOnce(c, x, Replay(c)[x].spentIndex, h);
      SpentOnce(c, x, h, Replay(c)[x].spentIndex);
    }
  }

  lemma {:induction false} SpentOnce(c: seq<Block>, x: Coin, g: nat, h: nat)
    requires ValidChain(c) && SpentOn(c, x, g) && SpentOn(c, x, h)
    ensures g >= h
  {
    if g < h {
      SinceIsDisjoint(c, g);
      RemovedIn(c, x, g, h);
    }
  }

  lemma {:induction false} RemovedIn(c: seq<Block>, x: Coin, g: nat, h: nat)
    requires g < h && SpentOn(c, x, h)
    ensures x in RemovedSince(c, g)
    decreases |c|
  {
    if h < |c| - 1 { RemovedIn(c[..|c| - 1], x, g, h); }
  }

  lemma {:induction false} RemovalsVerdictFirst(c: seq<Block>, f: int, b: Block, n: nat)
    requires ValidChain(c) && n <= |b.Removals()|
    ensures var v := RemovalsVerdict(Replay(c), f, b, b.Removals()[..n]);
      && (v.None? <==> forall i :: 0 <= i < n ==> MaySpend(c, b, b.Removals()[i]))
      && (v.Some? ==> exists i :: i < n && FirstBadSpend(c, b, i) && SpendErrorIs(c, f, b.Spends()[i].coin, v.value))
  {
    hide ValidChain, Replay, MaySpend, SpendErrorIs, RemovalVerdict;
    if n > 0 {
      var s := b.Removals()[..n];
      assert s[..n - 1] == b.Removals()[..n - 1];
      RemovalsVerdictFirst(c, f, b, n - 1);
      MaySpendIff(c, f, b, b.Removals()[n - 1]);
      if RemovalsVerdict(Replay(c), f, b, s[..n - 1]).None? && !MaySpend(c, b, b.Removals()[n - 1]) {
        assert FirstBadSpend(c, b, n - 1);
      }
    }
  }

  lemma OutputRulesIff(c: seq<Block>, b: Block)
    requires IsChain(c)
    ensures Holds(c, b, 0) <==> RewardsValid(c, b)
    ensures Holds(c, b, 1) <==> AmountsValid(b)
    ensures Holds(c, b, 2) <==> DistinctOutputs(b)
    ensures Holds(c, b, 3) <==> NoDuplicates(b.Removals())
  {
    ClaimsDueIff(c, b);
    hide RewardsValid, ClaimsDue, AdditionsOf, IsChain;
    forall x ensures x in b.Created() <==> x in b.Additions() || x in b.Claims() {}
    assert Holds(c, b, 2) <==> DistinctOutputs(b) by {
      assert Elements(b.Additions()) !! Elements(b.Claims()) <==> forall x :: x in b.Additions() ==> x !in b.Claims();
    }
    assert forall i :: 0 <= i < |b.Spends()| ==> b.Removals()[i] == b.Spends()[i].coin;
  }

  lemma FeeRulesIff(c: seq<Block>, b: Block)
    ensures FeesVerdict(b) ==
      if !Holds(c, b, 5) then Some(MintingCoin)
      else if !Holds(c, b, 6) then Some(ReserveFeeConditionFailed)
      else if !Holds(c, b, 7) then Some(CoinAmountExceedsMaximum)
      else if !Holds(c, b, 8) then Some(InvalidBlockFeeAmount)
      else if !Holds(c, b, 9) then Some(WrongPuzzleHash)
      else None
  {
    ReservesAre(b.Spends());
    hide ReservesNonNegative, AdditionsOf, Reserves, SumInts, SumSeq, ReservedSum, FarmerBase;
  }

  lemma SpendRuleIff(c: seq<Block>, f: int, b: Block)
    requires ValidChain(c)
    ensures Holds(c, b, 4) <==> RemovalsVerdict(Replay(c), f, b, b.Removals()).None?
    ensures !Holds(c, b, 4) ==> ErrorIs(c, f, b, 4, RemovalsVerdict(Replay(c), f, b, b.Removals()).value)
  {
    hide ValidChain, Replay, MaySpend, SpendErrorIs, RemovalsVerdict;
    RemovalsVerdictFirst(c, f, b, |b.Removals()|);
    assert b.Removals()[..|b.Removals()|] == b.Removals();
    assert forall i :: 0 <= i < |b.Spends()| ==> b.Removals()[i] == b.Spends()[i].coin;
  }

  lemma VerdictAsRules(c: seq<Block>, f: int, b: Block)
    requires ValidChain(c)
    ensures BodyVerdict(c, f, b) ==
      if !Holds(c, b, 0) then Some(InvalidRewardCoins)
      else if !Holds(c, b, 1) then Some(CoinAmountExceedsMaximum)
      else if !Holds(c, b, 2) then Some(DuplicateOutput)
      else if !Holds(c, b, 3) then Some(DoubleSpend)
      else if !Holds(c, b, 4) then RemovalsVerdict(Replay(c), f, b, b.Removals())
      else FeesVerdict(b)
  {
    ValidIsChain(c);
    OutputRulesIff(c, b);
    SpendRuleIff(c, f, b);
    hide ValidChain, IsChain, Replay, RewardsValid, AmountsValid, DistinctOutputs, NoDuplicates, FeesVerdict,
      RemovalsVerdict, Holds;
  }

  lemma FirstBrokenIsNamed(c: seq<Block>, f: int, b: Block, n: nat)
    requires ValidChain(c) && FirstBroken(c, b, n)
    ensures BodyVerdict(c, f, b).Some? && ErrorIs(c, f, b, n, BodyVerdict(c, f, b).value)
  {
    hide ValidChain, BodyVerdict, Replay, RemovalsVerdict, FeesVerdict, Holds, FirstBadSpend, SpendErrorIs;
    LastRule(c, b, n);
    VerdictAsRules(c, f, b);
    if n == 4 { SpendRuleIff(c, f, b); }
    if n > 4 { FeeRulesIff(c, b); }
  }

  lemma LastRule(c: seq<Block>, b: Block, n: nat)
    requires !Holds(c, b, n)
    ensures n <= 9
  {
  }

  /** A body is accepted on top of a valid chain exactly when it keeps every rule; else the error names the
      first rule it breaks. */
  lemma VerdictNamesFirst(c: seq<Block>, f: int, b: Block)
    requires ValidChain(c)
    ensures BodyVerdict(c, f, b).None? <==> forall n :: Holds(c, b, n)
    ensures forall n :: FirstBroken(c, b, n) ==>
      BodyVerdict(c, f, b).Some? && ErrorIs(c, f, b, n, BodyVerdict(c, f, b).value)
  {
    forall n | FirstBroken(c, b, n)
      ensures BodyVerdict(c, f, b).Some? && ErrorIs(c, f, b, n, BodyVerdict(c, f, b).value)
    {
      FirstBrokenIsNamed(c, f, b, n);
    }
    hide ErrorIs, FirstBroken;
    VerdictAsRules(c, f, b);
    SpendRuleIff(c, f, b);
    FeeRulesIff(c, b);
    hide ValidChain, BodyVerdict, Replay, RemovalsVerdict, FeesVerdict;
    if BodyVerdict(c, f, b).None? {
      forall n ensures Holds(c, b, n) { NoMoreRules(c, b, n); }
    }
  }

  lemma NoMoreRules(c: seq<Block>, b: Block, n: nat)
    requires forall m :: 0 <= m <= 9 ==> Holds(c, b, m)
    ensures Holds(c, b, n)
  {
    if n <= 9 { hide Holds; }
  }
}
