/** The ledger's specification: replay every transaction block of a chain, from genesis to its tip.
    A chain is the sequence of a block's ancestors and the block itself, indexed by height. */
module Ledger {
  import opened Coins

  predicate LinkedAt(c: seq<Block>, i: nat)
    requires 0 < i < |c|
  {
    c[i].prevHash == c[i - 1].hash
  }

  predicate IsChain(c: seq<Block>)
  {
    && (forall i :: 0 <= i < |c| ==> c[i].height == i)
    && (forall i :: 0 < i < |c| ==> LinkedAt(c, i))
    && (c != [] ==> c[0].IsTx())
  }

  /** Height of the last transaction block of a chain, or -1. */
  function LastTx(c: seq<Block>): (r: int)
    ensures -1 <= r < |c|
    ensures r >= 0 ==> c[r].IsTx()
    ensures forall i :: r < i < |c| ==> !c[i].IsTx()
    ensures IsChain(c) && c != [] ==> r >= 0
  {
    if c == [] then -1
    else if c[|c| - 1].IsTx() then |c| - 1
    else LastTx(c[..|c| - 1])
  }

  /** Rewards of the heights below this one are claimed by the transaction blocks of `c`. */
  function ClaimedBelow(c: seq<Block>): (n: nat)
    ensures n <= LastTx(c) + 1
    ensures IsChain(c) && c != [] ==> n <= LastTx(c)
  {
    if LastTx(c) == -1 then 0 else LastTx(c[..LastTx(c)]) + 1
  }

  function CoinsBetween(c: seq<Block>, lo: nat, hi: nat): set<Coin>
    requires lo <= hi <= |c|
  {
    (set i | lo <= i < hi :: PoolCoin(c[i])) +
    (set i | lo <= i < hi :: FarmerCoin(c[i], c[i].Fees()))
  }

  /** The reward coins a transaction block on top of `c` has to claim: one pool and one farmer coin
      per height since the last claim, the fees going to the farmer of the block that earned them. */
  function ExpectedRewards(c: seq<Block>): set<Coin>
  {
    CoinsBetween(c, ClaimedBelow(c), LastTx(c) + 1)
  }

  // ---- The coin table --------------------------------------------------------------------

  function NewRecord(height: nat, timestamp: nat, additions: seq<Coin>, x: Coin): CoinRecord
  {
    CoinRecord(x, height, 0, false, x !in additions, timestamp)
  }

  function MarkSpent(r: CoinRecord, height: nat): CoinRecord
  {
    r.(spent := true, spentIndex := height)
  }

  function MarkUnspent(r: CoinRecord): CoinRecord
  {
    r.(spent := false, spentIndex := 0)
  }

  /** Insert a block's generator outputs and reward coins, then mark its removals spent. */
  function ApplyCoins(t: CoinTable, height: nat, timestamp: nat, rewards: set<Coin>,
                      additions: seq<Coin>, removals: seq<Coin>): CoinTable
  {
    map x | x in t.Keys + (Elements(additions) + rewards) ::
      var r := if x in t then t[x] else NewRecord(height, timestamp, additions, x);
      if x in removals then MarkSpent(r, height) else r
  }

  /** The effect of one transaction block on the coin table. */
  function ApplyBlock(t: CoinTable, b: Block): CoinTable
  {
    ApplyCoins(t, b.height, b.Timestamp(), Elements(b.Claims()), b.Additions(), b.Removals())
  }

  function Replay(c: seq<Block>): CoinTable
  {
    if c == [] then map[]
    else
      var t := Replay(c[..|c| - 1]);
      if c[|c| - 1].IsTx() then ApplyBlock(t, c[|c| - 1]) else t
  }

  /** Forget every coin confirmed above height `f` and every spend made above it. */
  function Rollback(t: CoinTable, f: int): CoinTable
  {
    map x | x in t && t[x].confirmedIndex <= f ::
      if t[x].spentIndex > f then MarkUnspent(t[x]) else t[x]
  }

  predicate Spendable(t: CoinTable, x: Coin)
  {
    x in t && !t[x].spent
  }

  // ---- Body validity, stated against the replay of the block's own ancestors ---------------

  function ReservedSum(spends: seq<Spend>): int
  {
    if spends == [] then 0 else ReservedSum(spends[..|spends| - 1]) + SumInts(spends[|spends| - 1].reservedFees)
  }

  function SumInts(s: seq<int>): int
  {
    if s == [] then 0 else SumInts(s[..|s| - 1]) + s[|s| - 1]
  }

  predicate RewardsValid(c: seq<Block>, b: Block)
  {
    Elements(b.Claims()) == ExpectedRewards(c) && |b.Claims()| == |ExpectedRewards(c)|
  }

  predicate AmountsValid(b: Block)
  {
    forall x :: x in b.Created() ==> x.amount <= MAX_COIN_AMOUNT
  }

  predicate DistinctOutputs(b: Block)
  {
    NoDuplicates(b.Additions()) && Elements(b.Additions()) !! Elements(b.Claims())
  }

  /** Every removal is created by the block itself or unspent in the ancestors' replay. */
  predicate SpendsValid(t: CoinTable, b: Block)
  {
    && NoDuplicates(b.Removals())
    && (forall x :: x in b.Removals() ==> x in b.Created() || Spendable(t, x))
  }

  predicate ReservesNonNegative(spends: seq<Spend>)
  {
    forall i, k :: 0 <= i < |spends| && 0 <= k < |spends[i].reservedFees| ==> spends[i].reservedFees[k] >= 0
  }

  /** The fees stated are what the spends leave over, cover the reserves and fit in a farmer coin. */
  predicate FeesValid(b: Block)
  {
    && b.Fees() == SumSeq(b.Removals()) - SumSeq(b.Additions())
    && ReservesNonNegative(b.Spends())
    && ReservedSum(b.Spends()) <= b.Fees()
    && b.Fees() + FarmerBase(b.height) <= MAX_COIN_AMOUNT
  }

  predicate PuzzlesValid(b: Block)
  {
    forall i :: 0 <= i < |b.Spends()| ==> b.Spends()[i].coin.puzzleHash == b.Spends()[i].puzzleHash
  }

  predicate BodyValid(c: seq<Block>, b: Block)
  {
    && RewardsValid(c, b)
    && AmountsValid(b)
    && DistinctOutputs(b)
    && SpendsValid(Replay(c), b)
    && FeesValid(b)
    && PuzzlesValid(b)
  }

  /** Every transaction block of the chain has a body valid for its own ancestors. */
  predicate ValidChain(c: seq<Block>)
  {
    c == [] ||
    var front := c[..|c| - 1];
    ValidChain(front) && IsChain(c) && (c[|c| - 1].IsTx() ==> BodyValid(front, c[|c| - 1]))
  }

  lemma {:induction false} ValidPrefix(c: seq<Block>, k: nat)
    requires k <= |c| && ValidChain(c)
    ensures ValidChain(c[..k])
  {
    if k == |c| {
      assert c[..k] == c;
    } else {
      ValidPrefix(c[..|c| - 1], k);
      assert c[..|c| - 1][..k] == c[..k];
    }
  }

  lemma ValidIsChain(c: seq<Block>)
    requires ValidChain(c)
    ensures IsChain(c)
  {
    hide BodyValid, LinkedAt;
  }

  lemma ValidSnoc(c: seq<Block>, b: Block)
    ensures ValidChain(c + [b]) <==> ValidChain(c) && IsChain(c + [b]) && (b.IsTx() ==> BodyValid(c, b))
  {
    hide BodyValid, IsChain;
    assert (c + [b])[..|c|] == c;
  }

  // ---- What every replay keeps -----------------------------------------------------------

  /** Every row is keyed by its coin, lies at heights at most `h`, and a coin with a coin parent
      lies beside that parent, spent.  Reward coins exist only for heights below `n`. */
  ghost predicate TableInv(t: CoinTable, h: int, n: nat)
  {
    forall x :: x in t ==>
      && t[x].coin == x
      && t[x].confirmedIndex <= h
      && t[x].spentIndex <= h
      && (t[x].spent <==> t[x].spentIndex > 0)
      && (t[x].spent ==> t[x].confirmedIndex <= t[x].spentIndex)
      && ParentIn(t, x, n)
  }

  ghost predicate ParentIn(t: CoinTable, x: Coin, n: nat)
  {
    match x.parent
    case SpentCoin(p) => p in t && t[p].spent
    case PoolReward(i) => i < n
    case FarmerReward(i) => i < n
  }

  /** The reward coins among `s` belong to heights from `lo` up to, not including, `hi`. */
  ghost predicate RewardsWithin(s: set<Coin>, lo: int, hi: int)
  {
    forall x :: x in s ==>
      match x.parent
      case SpentCoin(_) => false
      case PoolReward(i) => lo <= i < hi
      case FarmerReward(i) => lo <= i < hi
  }

  lemma ExpectedWithin(c: seq<Block>)
    requires IsChain(c)
    ensures RewardsWithin(ExpectedRewards(c), ClaimedBelow(c), LastTx(c) + 1)
    ensures c == [] ==> ExpectedRewards(c) == {}
  {
  }

  /** With nothing spendable before it and no rewards, a block cannot spend: a chain of ephemeral
      coins has to start somewhere. */
  lemma {:induction false} NoSpendFromNothing(b: Block, x: Coin)
    requires SpendsValid(map[], b) && Elements(b.Claims()) == {}
    ensures x !in b.Removals()
    decreases x
  {
    if x in b.Removals() {
      assert x in b.Created();
      assert x in b.Additions();
      NoSpendFromNothing(b, x.parent.coin);
    }
  }

  lemma ApplyKeepsInv(t: CoinTable, h: int, n: nat, m: nat, b: Block)
    requires TableInv(t, h, n) && n <= m
    requires b.height == h + 1 && (b.height == 0 ==> b.Removals() == [])
    requires RewardsWithin(Elements(b.Claims()), n, m)
    requires SpendsValid(t, b)
    ensures TableInv(ApplyBlock(t, b), h + 1, m)
  {
    var u := ApplyBlock(t, b);
    forall x | x in u
      ensures u[x].coin == x && u[x].confirmedIndex <= h + 1 && u[x].spentIndex <= h + 1
      ensures u[x].spent <==> u[x].spentIndex > 0
      ensures u[x].spent ==> u[x].confirmedIndex <= u[x].spentIndex
    {
    }
    forall x | x in u ensures ParentIn(u, x, m) {
      if x in t {
        assert ParentIn(t, x, n);
      } else if x in Elements(b.Claims()) {
      } else {
        assert x in b.Additions();
      }
    }
  }

  lemma GenesisSpendsNothing(b: Block)
    requires BodyValid([], b)
    ensures b.Removals() == []
  {
    ExpectedWithin([]);
    if b.Removals() != [] { NoSpendFromNothing(b, b.Removals()[0]); }
  }

  lemma {:induction false} ReplayInv(c: seq<Block>)
    requires ValidChain(c)
    ensures TableInv(Replay(c), |c| - 1, ClaimedBelow(c))
  {
    if c != [] {
      var front, b := c[..|c| - 1], c[|c| - 1];
      ValidPrefix(c, |c| - 1);
      ReplayInv(front);
      hide TableInv, CoinsBetween;
      if b.IsTx() {
        ExpectedWithin(front);
        if front == [] { GenesisSpendsNothing(b); }
        ApplyKeepsInv(Replay(front), |front| - 1, ClaimedBelow(front), LastTx(front) + 1, b);
      } else {
        assert c[..LastTx(c)] == front[..LastTx(front)];
      }
    }
  }

  // ---- No coin is inserted twice ---------------------------------------------------------

  /** A coin a valid block creates is new to the chain: no check compares a block's outputs with
      the table, and none is needed. */
  lemma {:induction false} CreatedIsFresh(t: CoinTable, h: int, n: nat, m: nat, b: Block, x: Coin)
    requires TableInv(t, h, n)
    requires RewardsWithin(Elements(b.Claims()), n, m)
    requires SpendsValid(t, b) && x in b.Created()
    ensures x !in t
    decreases x
  {
    if x in t {
      assert ParentIn(t, x, n);
      assert x in b.Additions();
      var p := x.parent.coin;
      assert p in b.Removals();
      if p in b.Created() { CreatedIsFresh(t, h, n, m, b, p); }
      assert false;
    }
  }

  lemma CreatedAllFresh(c: seq<Block>, b: Block)
    requires ValidChain(c) && BodyValid(c, b)
    ensures b.Created() !! Replay(c).Keys
  {
    ReplayInv(c);
    ExpectedWithin(c);
    forall x | x in b.Created() ensures x !in Replay(c) {
      CreatedIsFresh(Replay(c), |c| - 1, ClaimedBelow(c), LastTx(c) + 1, b, x);
    }
  }

  // ---- Rolling back equals not having applied -----------------------------------------------

  lemma RollbackUndoesApply(t: CoinTable, b: Block, f: int)
    requires b.height > f
    requires b.Created() !! t.Keys
    requires forall x :: x in t ==> (t[x].spent <==> t[x].spentIndex > 0)
    requires forall x :: x in b.Removals() && x in t ==> !t[x].spent
    ensures Rollback(ApplyBlock(t, b), f) == Rollback(t, f)
  {
    var u := ApplyBlock(t, b);
    forall x ensures x in Rollback(u, f) <==> x in Rollback(t, f) {}
    forall x | x in Rollback(t, f) ensures Rollback(u, f)[x] == Rollback(t, f)[x] {
      if x in b.Removals() { assert u[x] == MarkSpent(t[x], b.height); }
    }
  }

  lemma RollbackNothing(t: CoinTable, f: int)
    requires forall x :: x in t ==> t[x].confirmedIndex <= f && t[x].spentIndex <= f
    ensures Rollback(t, f) == t
  {
  }

  /** Rolling the table of a chain back to height `f` gives the table of its first `f + 1` blocks. */
  lemma {:induction false} RollbackIsReplay(c: seq<Block>, f: int)
    requires ValidChain(c) && -1 <= f < |c|
    ensures Rollback(Replay(c), f) == Replay(c[..f + 1])
  {
    ReplayInv(c);
    if f == |c| - 1 {
      assert c[..f + 1] == c;
      RollbackNothing(Replay(c), f);
    } else {
      var front, b := c[..|c| - 1], c[|c| - 1];
      ValidPrefix(c, |c| - 1);
      RollbackIsReplay(front, f);
      assert front[..f + 1] == c[..f + 1];
      if b.IsTx() {
        ReplayInv(front);
        CreatedAllFresh(front, b);
        RollbackUndoesApply(Replay(front), b, f);
      }
    }
  }

  // ---- The view since a fork ----------------------------------------------------------------

  function CreatedSince(c: seq<Block>, f: int): set<Coin>
    requires -1 <= f
  {
    if |c| <= f + 1 then {} else CreatedSince(c[..|c| - 1], f) + c[|c| - 1].Created()
  }

  function RemovedSince(c: seq<Block>, f: int): set<Coin>
    requires -1 <= f
  {
    if |c| <= f + 1 then {} else RemovedSince(c[..|c| - 1], f) + Elements(c[|c| - 1].Removals())
  }

  function ConfirmedAbove(t: CoinTable, f: int): set<Coin> { set x | x in t && t[x].confirmedIndex > f }
  function SpentAbove(t: CoinTable, f: int): set<Coin> { set x | x in t && t[x].spent && t[x].spentIndex > f }

  lemma ApplyHeights(t: CoinTable, b: Block, f: int)
    requires b.height > f && b.Created() !! t.Keys
    requires SpendsValid(t, b)
    ensures ConfirmedAbove(ApplyBlock(t, b), f) == ConfirmedAbove(t, f) + b.Created()
    ensures SpentAbove(ApplyBlock(t, b), f) == SpentAbove(t, f) + Elements(b.Removals())
  {
  }

  lemma NothingAbove(t: CoinTable, h: int, n: nat, f: int)
    requires TableInv(t, h, n) && h <= f
    ensures ConfirmedAbove(t, f) == {} && SpentAbove(t, f) == {}
  {
  }

  /** What the tip of a valid chain adds to the replay of its ancestors. */
  lemma TipApplies(c: seq<Block>)
    requires ValidChain(c) && c != []
    ensures ValidChain(c[..|c| - 1]) && c[|c| - 1].height == |c| - 1
    ensures c[|c| - 1].Created() !! Replay(c[..|c| - 1]).Keys
    ensures SpendsValid(Replay(c[..|c| - 1]), c[|c| - 1])
    ensures c[|c| - 1].IsTx() ==> Replay(c) == ApplyBlock(Replay(c[..|c| - 1]), c[|c| - 1])
    ensures !c[|c| - 1].IsTx() ==> Replay(c) == Replay(c[..|c| - 1])
  {
    if c[|c| - 1].IsTx() { CreatedAllFresh(c[..|c| - 1], c[|c| - 1]); }
  }

  lemma SinceStep(c: seq<Block>, f: int, t: CoinTable, u: CoinTable)
    requires c != [] && -1 <= f < |c| - 1
    requires CreatedSince(c[..|c| - 1], f) == ConfirmedAbove(t, f)
    requires RemovedSince(c[..|c| - 1], f) == SpentAbove(t, f)
    requires c[|c| - 1].height == |c| - 1 && c[|c| - 1].Created() !! t.Keys
    requires SpendsValid(t, c[|c| - 1])
    requires u == if c[|c| - 1].IsTx() then ApplyBlock(t, c[|c| - 1]) else t
    ensures CreatedSince(c, f) == ConfirmedAbove(u, f)
    ensures RemovedSince(c, f) == SpentAbove(u, f)
  {
    hide ApplyBlock, ConfirmedAbove, SpentAbove, SpendsValid;
    var b := c[|c| - 1];
    if b.IsTx() {
      ApplyHeights(t, b, f);
    } else {
      assert b.Created() == {} && Elements(b.Removals()) == {};
    }
  }

  /** Collecting what the blocks above `f` create and spend gives exactly the coins the replay
      confirms, respectively spends, above `f`. */
  lemma {:induction false} SinceByHeight(c: seq<Block>, f: int)
    requires ValidChain(c) && -1 <= f
    ensures CreatedSince(c, f) == ConfirmedAbove(Replay(c), f)
    ensures RemovedSince(c, f) == SpentAbove(Replay(c), f)
    decreases |c|
  {
    if |c| <= f + 1 {
      ReplayInv(c);
      NothingAbove(Replay(c), |c| - 1, ClaimedBelow(c), f);
    } else {
      TipApplies(c);
      SinceByHeight(c[..|c| - 1], f);
      SinceStep(c, f, Replay(c[..|c| - 1]), Replay(c));
    }
  }

  lemma TipIsConfirmedThere(c: seq<Block>)
    requires ValidChain(c) && c != []
    ensures c[|c| - 1].Created() <= ConfirmedAbove(Replay(c), |c| - 2)
    ensures Elements(c[|c| - 1].Removals()) <= SpentAbove(Replay(c), |c| - 2)
  {
    SinceByHeight(c, |c| - 2);
  }

  /** A block neither creates nor spends a coin that a later block creates or spends again. */
  lemma SinceIsDisjoint(c: seq<Block>, i: nat)
    requires ValidChain(c) && i < |c|
    ensures c[i].Created() !! CreatedSince(c, i)
    ensures Elements(c[i].Removals()) !! RemovedSince(c, i)
  {
    hide ValidChain, Replay, CreatedSince, RemovedSince, Rollback;
    SinceByHeight(c, i);
    RollbackIsReplay(c, i);
    ValidPrefix(c, i + 1);
    TipIsConfirmedThere(c[..i + 1]);
    RolledBackIsBelow(Replay(c), i);
  }

  lemma RolledBackIsBelow(t: CoinTable, f: int)
    ensures Rollback(t, f).Keys !! ConfirmedAbove(t, f)
    ensures forall x :: x in Rollback(t, f) && Rollback(t, f)[x].spent ==> x !in SpentAbove(t, f)
  {
  }

  lemma {:induction false} SinceDown(c: seq<Block>, i: nat)
    requires i < |c|
    ensures CreatedSince(c, i - 1) == CreatedSince(c, i) + c[i].Created()
    ensures RemovedSince(c, i - 1) == RemovedSince(c, i) + Elements(c[i].Removals())
    decreases |c|
  {
    if i < |c| - 1 { SinceDown(c[..|c| - 1], i); }
  }

  /** The tip keeps the confirmation data of every row, and writes its own into the new ones. */
  lemma TipRows(c: seq<Block>, x: Coin)
    requires ValidChain(c) && c != []
    ensures x in Replay(c[..|c| - 1]) ==> x in Replay(c) && SameConfirmation(Replay(c)[x], Replay(c[..|c| - 1])[x])
    ensures x in c[|c| - 1].Created() ==>
      x in Replay(c) && Replay(c)[x].confirmedIndex == |c| - 1 && Replay(c)[x].timestamp == c[|c| - 1].Timestamp()
  {
    TipApplies(c);
  }

  predicate SameConfirmation(r: CoinRecord, s: CoinRecord)
  {
    r.confirmedIndex == s.confirmedIndex && r.timestamp == s.timestamp
  }

  lemma {:induction false} CreatedRow(c: seq<Block>, i: nat, x: Coin)
    requires ValidChain(c) && i < |c| && x in c[i].Created()
    ensures x in Replay(c) && Replay(c)[x].confirmedIndex == i && Replay(c)[x].timestamp == c[i].Timestamp()
    decreases |c|
  {
    TipRows(c, x);
    if i < |c| - 1 {
      ValidPrefix(c, |c| - 1);
      CreatedRow(c[..|c| - 1], i, x);
    }
  }

  lemma BlockIsDistinct(c: seq<Block>, i: nat)
    requires ValidChain(c) && i < |c|
    ensures DistinctOutputs(c[i]) && NoDuplicates(c[i].Removals())
  {
    hide Replay, IsChain, RewardsValid, AmountsValid, FeesValid, PuzzlesValid;
    ValidPrefix(c, i + 1);
    assert c[..i + 1][..i] == c[..i];
    if !c[i].IsTx() { assert c[i].Additions() == [] && c[i].Removals() == []; }
  }

  // ---- Stake at a height --------------------------------------------------------------------

  /** The coins of a puzzle hash confirmed below `h` and not spent below it. */
  function StakedCoins(t: CoinTable, ph: PuzzleHash, h: nat): set<Coin>
  {
    set x | x in t && x.puzzleHash == ph && t[x].confirmedIndex < h && (!t[x].spent || t[x].spentIndex >= h)
  }

  function UnspentCoins(t: CoinTable): set<Coin>
  {
    set x | x in t && !t[x].spent
  }

  function HeldBy(s: set<Coin>, ph: PuzzleHash): set<Coin>
  {
    set x | x in s && x.puzzleHash == ph
  }

  lemma StakeIsRolledBackUnspent(t: CoinTable, ph: PuzzleHash, h: nat)
    requires forall x :: x in t ==> (t[x].spent <==> t[x].spentIndex > 0)
    ensures StakedCoins(t, ph, h) == HeldBy(UnspentCoins(Rollback(t, h - 1)), ph)
  {
    var r := Rollback(t, h - 1);
    forall x ensures x in StakedCoins(t, ph, h) <==> x in UnspentCoins(r) && x.puzzleHash == ph {
      if x in t && t[x].confirmedIndex <= h - 1 { assert x in r; }
    }
  }

  lemma RollbackToPrefix(c: seq<Block>, h: nat)
    requires ValidChain(c) && h <= |c|
    ensures Rollback(Replay(c), h - 1) == Replay(c[..h])
  {
    if h > 0 {
      RollbackIsReplay(c, h - 1);
    } else {
      assert Rollback(Replay(c), -1) == map[];
    }
  }

  /** The first `h` blocks of a chain, or all of it. */
  function Prefix(c: seq<Block>, h: nat): seq<Block> { if h <= |c| then c[..h] else c }

  lemma StakeAboveTip(c: seq<Block>, ph: PuzzleHash, h: nat)
    requires ValidChain(c) && h >= |c|
    ensures StakedCoins(Replay(c), ph, h) == HeldBy(UnspentCoins(Replay(c)), ph)
  {
    hide ValidChain, Replay;
    ReplayInv(c);
  }

  lemma StakeIsPrefixUnspent(c: seq<Block>, ph: PuzzleHash, h: nat)
    requires ValidChain(c)
    ensures StakedCoins(Replay(c), ph, h) == HeldBy(UnspentCoins(Replay(Prefix(c, h))), ph)
  {
    hide ValidChain, Replay, Rollback;
    if h <= |c| {
      ReplayInv(c);
      RollbackToPrefix(c, h);
      StakeIsRolledBackUnspent(Replay(c), ph, h);
    } else {
      StakeAboveTip(c, ph, h);
    }
  }

  /** Stake at height `h` is settled by the first `h` blocks: two chains that share them agree on
      it, however far either extends or reorganises above. */
  lemma StakeIsSettled(c: seq<Block>, d: seq<Block>, ph: PuzzleHash, h: nat)
    requires ValidChain(c) && ValidChain(d) && Prefix(c, h) == Prefix(d, h)
    ensures StakedCoins(Replay(c), ph, h) == StakedCoins(Replay(d), ph, h)
  {
    StakeIsPrefixUnspent(c, ph, h);
    StakeIsPrefixUnspent(d, ph, h);
  }
}
