/** Body validation against the peak's coin table and the changes since the fork. */
module BodyValidation {
  import opened Coins
  import opened Ledger
  import opened BlockTree
  import opened CoinStores

  datatype Err =
    | InvalidPrevBlockHash
    | InvalidHeight
    | InvalidIsTransactionBlock
    | InvalidRewardCoins
    | CoinAmountExceedsMaximum
    | DuplicateOutput
    | DoubleSpend
    | UnknownUnspent
    | DoubleSpendInFork
    | MintingCoin
    | ReserveFeeConditionFailed
    | InvalidBlockFeeAmount
    | WrongPuzzleHash

  // ---- The verdict, stated against the replay of the block's own ancestors --------------------

  /** What is wrong with spending `x` on top of the replay `t`; `f` only tells two errors apart. */
  function RemovalVerdict(t: CoinTable, f: int, b: Block, x: Coin): Option<Err>
  {
    if x in b.Created() then None
    else if x !in t then Some(UnknownUnspent)
    else if !t[x].spent then None
    else if t[x].spentIndex <= f then Some(DoubleSpend)
    else Some(DoubleSpendInFork)
  }

  function RemovalsVerdict(t: CoinTable, f: int, b: Block, removals: seq<Coin>): Option<Err>
  {
    if removals == [] then None
    else
      var v := RemovalsVerdict(t, f, b, removals[..|removals| - 1]);
      if v.Some? then v else RemovalVerdict(t, f, b, removals[|removals| - 1])
  }

  function FeesVerdict(b: Block): Option<Err>
  {
    var fees := SumSeq(b.Removals()) - SumSeq(b.Additions());
    if fees < 0 then Some(MintingCoin)
    else if !ReservesNonNegative(b.Spends()) || fees < ReservedSum(b.Spends()) then Some(ReserveFeeConditionFailed)
    else if fees + FarmerBase(b.height) > MAX_COIN_AMOUNT then Some(CoinAmountExceedsMaximum)
    else if b.Fees() != fees then Some(InvalidBlockFeeAmount)
    else if !PuzzlesValid(b) then Some(WrongPuzzleHash)
    else None
  }

  function BodyVerdict(c: seq<Block>, f: int, b: Block): Option<Err>
  {
    if !RewardsValid(c, b) then Some(InvalidRewardCoins)
    else if !AmountsValid(b) then Some(CoinAmountExceedsMaximum)
    else if !DistinctOutputs(b) then Some(DuplicateOutput)
    else if !NoDuplicates(b.Removals()) then Some(DoubleSpend)
    else
      var v := RemovalsVerdict(Replay(c), f, b, b.Removals());
      if v.Some? then v else FeesVerdict(b)
  }

  lemma {:induction false} RemovalsVerdictNone(t: CoinTable, f: int, b: Block, removals: seq<Coin>)
    ensures RemovalsVerdict(t, f, b, removals).None? <==>
            forall x :: x in removals ==> x in b.Created() || Spendable(t, x)
  {
    if removals != [] {
      RemovalsVerdictNone(t, f, b, removals[..|removals| - 1]);
      assert removals == removals[..|removals| - 1] + [removals[|removals| - 1]];
    }
  }

  lemma FeesVerdictNone(b: Block)
    ensures FeesVerdict(b).None? <==> FeesValid(b) && PuzzlesValid(b)
  {
  }

  /** A block has no error exactly when its body is valid, wherever the fork lies. */
  lemma VerdictIsValidity(c: seq<Block>, f: int, b: Block)
    ensures BodyVerdict(c, f, b).None? <==> BodyValid(c, b)
  {
    hide RewardsValid, AmountsValid, DistinctOutputs, NoDuplicates, RemovalsVerdict, FeesVerdict, FeesValid,
      PuzzlesValid, Replay;
    RemovalsVerdictNone(Replay(c), f, b, b.Removals());
    FeesVerdictNone(b);
  }

  // ---- The view from the peak --------------------------------------------------------------------

  /** The decision the code takes for a removal the block does not create: the peak's record counts
      only if confirmed at or below the fork, otherwise the coin has to come from the branch. */
  function ForkViewVerdict(peakTable: CoinTable, f: int, created: set<Coin>, removed: set<Coin>, x: Coin): Option<Err>
  {
    if x in peakTable && peakTable[x].confirmedIndex <= f then
      if peakTable[x].spent && peakTable[x].spentIndex <= f then Some(DoubleSpend)
      else if x in removed then Some(DoubleSpendInFork)
      else None
    else if x !in created then Some(UnknownUnspent)
    else if x in removed then Some(DoubleSpendInFork)
    else None
  }

  lemma RolledBackRow(t: CoinTable, u: CoinTable, f: int, x: Coin)
    requires Rollback(t, f) == Rollback(u, f)
    requires x in t ==> (t[x].spent <==> t[x].spentIndex > 0)
    requires x in u ==> (u[x].spent <==> u[x].spentIndex > 0)
    ensures x in t && t[x].confirmedIndex <= f <==> x in u && u[x].confirmedIndex <= f
    ensures x in t && t[x].confirmedIndex <= f ==>
      (t[x].spent && t[x].spentIndex <= f <==> u[x].spent && u[x].spentIndex <= f)
  {
    assert x in t && t[x].confirmedIndex <= f <==> x in Rollback(t, f);
    assert x in u && u[x].confirmedIndex <= f <==> x in Rollback(u, f);
    if x in Rollback(t, f) {
      assert Rollback(t, f)[x].spent <==> t[x].spent && t[x].spentIndex <= f;
      assert Rollback(u, f)[x].spent <==> u[x].spent && u[x].spentIndex <= f;
    }
  }

  lemma VerdictFromHeights(t: CoinTable, u: CoinTable, f: int, b: Block, x: Coin)
    requires x !in b.Created()
    requires Rollback(t, f) == Rollback(u, f)
    requires x in t ==> (t[x].spent <==> t[x].spentIndex > 0)
    requires x in t && t[x].spent ==> t[x].confirmedIndex <= t[x].spentIndex
    requires x in u ==> (u[x].spent <==> u[x].spentIndex > 0)
    ensures ForkViewVerdict(u, f, ConfirmedAbove(t, f), SpentAbove(t, f), x) == RemovalVerdict(t, f, b, x)
  {
    RolledBackRow(t, u, f, x);
  }

  lemma ForkViewsAgree(c: seq<Block>, d: seq<Block>, f: int)
    requires ValidChain(c) && ValidChain(d) && IsFork(c, d, f)
    ensures Rollback(Replay(c), f) == Rollback(Replay(d), f)
  {
    RollbackToPrefix(c, f + 1);
    RollbackToPrefix(d, f + 1);
    ForkPrefix(c, d, f);
  }

  /** The peak's coin table, cut at the fork and patched with the branch's changes, answers every
      removal as the replay of the block's own ancestors would. */
  lemma ForkViewIsReplay(c: seq<Block>, d: seq<Block>, f: int, b: Block, x: Coin)
    requires ValidChain(c) && ValidChain(d) && IsFork(c, d, f)
    requires x !in b.Created()
    ensures ForkViewVerdict(Replay(d), f, CreatedSince(c, f), RemovedSince(c, f), x) ==
            RemovalVerdict(Replay(c), f, b, x)
  {
    ForkViewsAgree(c, d, f);
    SinceByHeight(c, f);
    ReplayInv(c);
    ReplayInv(d);
    VerdictFromHeights(Replay(c), Replay(d), f, b, x);
  }

  // ---- Header rules the body relies on ---------------------------------------------------------------

  method WalkToTx(blocks: Blocks, from: Block, ghost c: seq<Block>) returns (tx: Block)
    requires Linked(blocks, c) && |c| == from.height + 1 && c[from.height] == from && c[0].IsTx()
    ensures LastTx(c) >= 0 && tx == c[LastTx(c)]
  {
    var curr := from;
    while !curr.IsTx()
      invariant curr.height < |c| && curr == c[curr.height]
      invariant forall i :: curr.height < i < |c| ==> !c[i].IsTx()
      decreases curr.height
    {
      assert ParentAt(blocks, c, curr.height);
      curr := blocks[curr.prevHash];
    }
    assert LastTx(c) == curr.height;
    return curr;
  }

  /** Checks 15 (for the first block) and 24b: walk back to the last transaction block and compare. */
  method CheckHeader(blocks: Blocks, b: Block, ghost c: seq<Block>) returns (err: Option<Err>)
    requires WellFormed(blocks) && Connected(blocks, b) && c == Ancestors(blocks, b) && IsChain(c)
    ensures err.None? <==> HeaderValid(c, b)
    ensures err.Some? ==> err == Some(if b.height == 0 then InvalidIsTransactionBlock else InvalidPrevBlockHash)
  {
    if b.height == 0 { return if b.IsTx() then None else Some(InvalidIsTransactionBlock); }
    if !b.IsTx() { return None; }
    ChainIsLinked(blocks, blocks[b.prevHash]);
    hide Chain, LastTx, LinkedAt;
    var tx := WalkToTx(blocks, blocks[b.prevHash], c);
    return if b.body.value.prevTxHash == tx.hash then None else Some(InvalidPrevBlockHash);
  }

  // ---- Check 5: reward claims ------------------------------------------------------------------------

  lemma CoinsBetweenDown(c: seq<Block>, lo: nat, hi: nat, noted: set<Coin>)
    requires 0 < lo <= hi <= |c| && noted == CoinsBetween(c, lo, hi)
    ensures noted + {PoolCoin(c[lo - 1])} + {FarmerCoin(c[lo - 1], c[lo - 1].Fees())} == CoinsBetween(c, lo - 1, hi)
  {
  }

  lemma LastTxBelow(c: seq<Block>, p: nat, q: nat)
    requires q < p <= |c| && c[q].IsTx() && forall i :: q < i < p ==> !c[i].IsTx()
    ensures LastTx(c[..p]) == q
  {
    var d := c[..p];
    assert d[q].IsTx();
    assert forall i :: q < i < |d| ==> !d[i].IsTx();
  }

  /** Walk down from `from` to the next transaction block, noting the rewards on the way. */
  method WalkRewards(blocks: Blocks, from: Block, noted: set<Coin>, ghost c: seq<Block>, ghost p: nat)
    returns (expected: set<Coin>, ghost q: nat)
    requires Linked(blocks, c) && p < |c| && c[0].IsTx()
    requires from.height + 1 == p && from == c[from.height]
    requires noted == CoinsBetween(c, p, p + 1)
    ensures q < p && c[q].IsTx() && forall i :: q < i < p ==> !c[i].IsTx()
    ensures expected == CoinsBetween(c, q + 1, p + 1)
  {
    var curr := from;
    expected := noted;
    while !curr.IsTx()
      invariant curr.height < p && curr == c[curr.height]
      invariant expected == CoinsBetween(c, curr.height + 1, p + 1)
      invariant forall i :: curr.height < i < p ==> !c[i].IsTx()
      decreases curr.height
    {
      CoinsBetweenDown(c, curr.height + 1, p + 1, expected);
      assert ParentAt(blocks, c, curr.height);
      expected := expected + {PoolCoin(curr)} + {FarmerCoin(curr, 0)};
      curr := blocks[curr.prevHash];
    }
    q := curr.height;
  }

  method CollectExpectedRewards(blocks: Blocks, prevTxHash: Hash, ghost c: seq<Block>) returns (expected: set<Coin>)
    requires Linked(blocks, c) && IsChain(c) && c != []
    requires prevTxHash in blocks && blocks[prevTxHash] == c[LastTx(c)]
    ensures expected == ExpectedRewards(c)
  {
    var prevTx := blocks[prevTxHash];
    ghost var p := LastTx(c);
    CoinsBetweenDown(c, p + 1, p + 1, {});
    expected := {} + {PoolCoin(prevTx)} + {FarmerCoin(prevTx, prevTx.Fees())};
    if prevTx.height > 0 {
      assert ParentAt(blocks, c, p);
      ghost var q;
      expected, q := WalkRewards(blocks, blocks[prevTx.prevHash], expected, c, p);
      LastTxBelow(c, p, q);
    }
  }

  /** Check 5: the claims are the expected reward coins, each once. */
  method CheckRewardClaims(blocks: Blocks, b: Block, ghost c: seq<Block>) returns (ok: bool, expected: set<Coin>)
    requires b.IsTx() && |c| == b.height && Linked(blocks, c) && IsChain(c)
    requires c != [] ==> b.body.value.prevTxHash in blocks && blocks[b.body.value.prevTxHash] == c[LastTx(c)]
    ensures ok <==> RewardsValid(c, b)
    ensures ok ==> expected == Elements(b.Claims())
  {
    expected := {};
    if b.height > 0 {
      expected := CollectExpectedRewards(blocks, b.body.value.prevTxHash, c);
    } else {
      ExpectedWithin(c);
    }
    ok := Elements(b.Claims()) == expected && |b.Claims()| == |expected|;
  }

  // ---- Checks 10, 13, 14 -------------------------------------------------------------------------------

  method AmountsWithinMaximum(coins: seq<Coin>) returns (ok: bool)
    ensures ok <==> forall x :: x in coins ==> x.amount <= MAX_COIN_AMOUNT
  {
    for i := 0 to |coins|
      invariant forall k :: 0 <= k < i ==> coins[k].amount <= MAX_COIN_AMOUNT
    {
      if coins[i].amount > MAX_COIN_AMOUNT { return false; }
    }
    return true;
  }

  method HasNoDuplicates(coins: seq<Coin>) returns (ok: bool)
    ensures ok <==> NoDuplicates(coins)
  {
    var seen: set<Coin> := {};
    for i := 0 to |coins|
      invariant seen == Elements(coins[..i])
      invariant NoDuplicates(coins[..i])
    {
      assert coins[..i + 1] == coins[..i] + [coins[i]];
      if coins[i] in seen {
        var k :| 0 <= k < i && coins[..i][k] == coins[i];
        assert coins[k] == coins[i];
        return false;
      }
      seen := seen + {coins[i]};
    }
    assert coins[..|coins|] == coins;
    return true;
  }

  // ---- Check 15 ----------------------------------------------------------------------------------------

  type SinceFork = map<Coin, (nat, nat)>

  /** Note one branch block: every name it adds is new to what later blocks of the branch noted. */
  method NoteBlock(curr: Block, additionsSince: SinceFork, removalsSince: set<Coin>)
    returns (additions: SinceFork, removals: set<Coin>)
    requires NoDuplicates(curr.Removals()) && Elements(curr.Removals()) !! removalsSince
    requires DistinctOutputs(curr) && curr.Created() !! additionsSince.Keys
    ensures additions.Keys == additionsSince.Keys + curr.Created()
    ensures NotedBlock(additionsSince, additions, curr)
    ensures removals == removalsSince + Elements(curr.Removals())
  {
    removals := removalsSince;
    var names := curr.Removals();
    for i := 0 to |names|
      invariant removals == removalsSince + Elements(names[..i])
    {
      assert names[..i + 1] == names[..i] + [names[i]];
      assert names[i] !in removals;
      removals := removals + {names[i]};
    }
    assert names[..|names|] == names;
    additions := NoteCoins(curr, curr.Additions(), additionsSince);
    var rewards := ListCoins(Elements(curr.Claims()));
    additions := NoteCoins(curr, rewards, additions);
  }

  method NoteCoins(curr: Block, coins: seq<Coin>, noted: SinceFork) returns (more: SinceFork)
    requires NoDuplicates(coins) && Elements(coins) !! noted.Keys
    ensures more.Keys == noted.Keys + Elements(coins)
    ensures forall x :: x in noted ==> more[x] == noted[x]
    ensures forall x :: x in coins ==> more[x] == (curr.height, curr.Timestamp())
  {
    more := noted;
    for i := 0 to |coins|
      invariant more.Keys == noted.Keys + Elements(coins[..i])
      invariant forall x :: x in noted ==> more[x] == noted[x]
      invariant forall k :: 0 <= k < i ==> more[coins[k]] == (curr.height, curr.Timestamp())
    {
      assert coins[..i + 1] == coins[..i] + [coins[i]];
      assert coins[i] in Elements(coins);
      assert coins[i] !in more;
      more := more[coins[i] := (curr.height, curr.Timestamp())];
    }
    assert coins[..|coins|] == coins;
  }

  lemma {:induction false} RangeSize(s: set<nat>, lo: nat, hi: nat)
    requires lo <= hi && forall i: nat :: i in s <==> lo <= i < hi
    ensures |s| == hi - lo
    decreases hi - lo
  {
    if lo < hi {
      RangeSize(s - {hi - 1}, lo, hi - 1);
    } else {
      assert s == {};
    }
  }

  /** The blocks above the fork and below the block under validation, by height. */
  method CollectReorgBlocks(blocks: Blocks, prev: Block, forkH: int, ghost c: seq<Block>)
    returns (reorgBlocks: map<nat, Block>)
    requires Linked(blocks, c) && |c| == prev.height + 1 && c[prev.height] == prev
    requires -1 <= forkH < |c|
    ensures forall i: nat :: i in reorgBlocks <==> (if forkH < 0 then 0 else forkH) <= i < prev.height
    ensures forall i :: i in reorgBlocks ==> reorgBlocks[i] == c[i]
    ensures forkH != -1 ==> |reorgBlocks| == |c| - forkH - 1
  {
    reorgBlocks := map[];
    var curr := prev;
    while curr.height > forkH
      invariant curr.height <= prev.height && curr == c[curr.height] && forkH <= curr.height
      invariant forall i: nat :: i in reorgBlocks <==> curr.height <= i < prev.height
      invariant forall i :: i in reorgBlocks ==> reorgBlocks[i] == c[i]
      decreases curr.height
    {
      if curr.height == 0 { break; }
      assert ParentAt(blocks, c, curr.height);
      curr := blocks[curr.prevHash];
      reorgBlocks := reorgBlocks[curr.height := curr];
    }
    if forkH != -1 {
      RangeSize(reorgBlocks.Keys, forkH, prev.height);
    }
  }

  /** `noted` maps coins to the height and timestamp that the chain's replay confirms them with. */
  ghost predicate NotedFrom(noted: SinceFork, t: CoinTable)
  {
    forall x :: x in noted ==> x in t && noted[x] == (t[x].confirmedIndex, t[x].timestamp)
  }

  ghost predicate CreatedAt(b: Block, t: CoinTable)
  {
    forall x :: x in b.Created() ==> x in t && (t[x].confirmedIndex, t[x].timestamp) == (b.height, b.Timestamp())
  }

  ghost predicate NotedBlock(noted: SinceFork, more: SinceFork, b: Block)
  {
    && more.Keys == noted.Keys + b.Created()
    && (forall x :: x in noted ==> more[x] == noted[x])
    && (forall x :: x in b.Created() ==> more[x] == (b.height, b.Timestamp()))
  }

  lemma NotedMore(noted: SinceFork, more: SinceFork, b: Block, t: CoinTable)
    requires NotedFrom(noted, t) && NotedBlock(noted, more, b) && CreatedAt(b, t)
    ensures NotedFrom(more, t)
  {
  }

  lemma NothingNoted(t: CoinTable)
    ensures NotedFrom(map[], t)
  {
  }

  lemma BranchStep(c: seq<Block>, i: nat)
    requires ValidChain(c) && i < |c|
    ensures c[i].Created() !! CreatedSince(c, i) && Elements(c[i].Removals()) !! RemovedSince(c, i)
    ensures DistinctOutputs(c[i]) && NoDuplicates(c[i].Removals())
    ensures CreatedSince(c, i - 1) == CreatedSince(c, i) + c[i].Created()
    ensures RemovedSince(c, i - 1) == RemovedSince(c, i) + Elements(c[i].Removals())
    ensures c[i].height == i && CreatedAt(c[i], Replay(c))
  {
    SinceIsDisjoint(c, i);
    BlockIsDistinct(c, i);
    SinceDown(c, i);
    forall x | x in c[i].Created()
      ensures x in Replay(c) && (Replay(c)[x].confirmedIndex, Replay(c)[x].timestamp) == (i, c[i].Timestamp())
    {
      CreatedRow(c, i, x);
    }
  }

  /** What the branch above the fork creates, with height and timestamp, and what it spends. */
  method CollectSinceFork(blocks: Blocks, prev: Block, forkH: int, ghost c: seq<Block>)
    returns (additions: SinceFork, removals: set<Coin>)
    requires Linked(blocks, c) && |c| == prev.height + 1 && c[prev.height] == prev
    requires ValidChain(c) && -1 <= forkH < |c|
    ensures additions.Keys == CreatedSince(c, forkH) && NotedFrom(additions, Replay(c))
    ensures removals == RemovedSince(c, forkH)
  {
    hide Linked, ValidChain, Replay, DistinctOutputs, NoDuplicates, CreatedAt, NotedBlock, CreatedSince, RemovedSince;
    NothingSince(c, |c| - 1);
    NothingNoted(Replay(c));
    hide NotedFrom;
    var reorgBlocks := CollectReorgBlocks(blocks, prev, forkH, c);
    additions, removals := map[], {};
    var curr := prev;
    while curr.height > forkH
      invariant curr.height <= prev.height && curr == c[curr.height] && forkH <= curr.height
      invariant additions.Keys == CreatedSince(c, curr.height) && NotedFrom(additions, Replay(c))
      invariant removals == RemovedSince(c, curr.height)
      decreases curr.height
    {
      BranchStep(c, curr.height);
      ghost var noted := additions;
      additions, removals := NoteBlock(curr, additions, removals);
      NotedMore(noted, additions, curr, Replay(c));
      if curr.height == 0 { break; }
      BranchStep(c, curr.height - 1);
      curr := reorgBlocks[curr.height - 1];
    }
  }

  /** The peak's table, the branch's changes since the fork and the replay of the branch fit together. */
  ghost predicate ForkView(peakTable: CoinTable, t: CoinTable, f: int, additionsSince: SinceFork,
                           removalsSince: set<Coin>)
  {
    && Rollback(peakTable, f) == Rollback(t, f)
    && additionsSince.Keys == ConfirmedAbove(t, f)
    && (forall x :: x in additionsSince ==> additionsSince[x] == (t[x].confirmedIndex, t[x].timestamp))
    && removalsSince == SpentAbove(t, f)
    && (forall x :: x in peakTable ==> (peakTable[x].spent <==> peakTable[x].spentIndex > 0))
    && (forall x :: x in t ==>
          (t[x].spent <==> t[x].spentIndex > 0) && (t[x].spent ==> t[x].confirmedIndex <= t[x].spentIndex))
  }

  lemma RolledBackConfirmation(t: CoinTable, u: CoinTable, f: int, x: Coin)
    requires Rollback(t, f) == Rollback(u, f)
    requires x in u && u[x].confirmedIndex <= f
    ensures x in t && SameConfirmation(u[x], t[x])
  {
    assert x in Rollback(u, f);
    assert SameConfirmation(Rollback(u, f)[x], u[x]) && SameConfirmation(Rollback(t, f)[x], t[x]);
  }

  /** Decide one removal, and produce the record its conditions are checked against: one with the
      birth height and timestamp the coin has on the block's own chain. */
  method CheckRemoval(store: CoinStore, b: Block, rem: Coin, forkH: int, additionsSince: SinceFork,
                      removalsSince: set<Coin>, ghost t: CoinTable)
    returns (err: Option<Err>, record: CoinRecord)
    requires store.Valid()
    requires ForkView(store.table, t, forkH, additionsSince, removalsSince)
    modifies store`cache, store`order
    ensures store.Valid()
    ensures err == RemovalVerdict(t, forkH, b, rem)
    ensures err.None? ==> record.coin == rem
    ensures err.None? && rem in b.Created() ==> record.confirmedIndex == b.height && record.timestamp == b.Timestamp()
    ensures err.None? && rem !in b.Created() ==> SameConfirmation(record, t[rem])
  {
    if rem in b.Created() {
      // Ephemeral coin
      return None, CoinRecord(rem, b.height, b.height, true, false, b.Timestamp());
    }
    VerdictFromHeights(t, store.table, forkH, b, rem);
    var unspent := store.GetCoinRecord(rem);
    if unspent.Some? && unspent.value.confirmedIndex <= forkH {
      record := unspent.value;
      if record.spent && record.spentIndex <= forkH {
        return Some(DoubleSpend), record;
      }
      RolledBackConfirmation(t, store.table, forkH, rem);
    } else {
      record := CoinRecord(rem, 0, 0, false, false, 0);
      if rem !in additionsSince {
        return Some(UnknownUnspent), record;
      }
      var (height, timestamp) := additionsSince[rem];
      record := CoinRecord(rem, height, 0, false, false, timestamp);
    }
    if rem in removalsSince {
      return Some(DoubleSpendInFork), record;
    }
    return None, record;
  }

  lemma {:induction false} LaterVerdict(t: CoinTable, f: int, b: Block, removals: seq<Coin>, k: nat)
    requires k <= |removals| && RemovalsVerdict(t, f, b, removals[..k]).Some?
    ensures RemovalsVerdict(t, f, b, removals) == RemovalsVerdict(t, f, b, removals[..k])
  {
    if k == |removals| {
      assert removals[..k] == removals;
    } else {
      assert removals[..|removals| - 1][..k] == removals[..k];
      LaterVerdict(t, f, b, removals[..|removals| - 1], k);
    }
  }

  /** Check 15: every removal is new in this block, or unspent where the block's chain stands. */
  method CheckRemovals(store: CoinStore, b: Block, forkH: int, additionsSince: SinceFork, removalsSince: set<Coin>,
                       ghost t: CoinTable)
    returns (err: Option<Err>, records: map<Coin, CoinRecord>)
    requires store.Valid()
    requires ForkView(store.table, t, forkH, additionsSince, removalsSince)
    modifies store`cache, store`order
    ensures store.Valid()
    ensures err == RemovalsVerdict(t, forkH, b, b.Removals())
    ensures err.None? ==> forall x :: x in b.Removals() ==> x in records
    ensures forall x :: x in records ==> records[x].coin == x
  {
    hide Agrees, ForkView, RemovalVerdict, SameConfirmation, RemovalsOf;
    records := map[];
    var removals := b.Removals();
    for i := 0 to |removals|
      invariant store.Valid() && store.table == old(store.table)
      invariant RemovalsVerdict(t, forkH, b, removals[..i]).None?
      invariant forall k :: 0 <= k < i ==> removals[k] in records
      invariant forall x :: x in records ==> records[x].coin == x
    {
      assert removals[..i + 1][..i] == removals[..i];
      var record;
      err, record := CheckRemoval(store, b, removals[i], forkH, additionsSince, removalsSince, t);
      if err.Some? {
        LaterVerdict(t, forkH, b, removals, i + 1);
        return;
      }
      assert record.coin == removals[i];
      records := records[removals[i] := record];
    }
    assert removals[..|removals|] == removals;
    err := None;
  }

  // ---- Checks 16 to 20 -----------------------------------------------------------------------------------

  method SumOfRecords(names: seq<Coin>, records: map<Coin, CoinRecord>) returns (sum: nat)
    requires forall x :: x in names ==> x in records
    requires forall x :: x in records ==> records[x].coin == x
    ensures sum == SumSeq(names)
  {
    sum := 0;
    for i := 0 to |names|
      invariant sum == SumSeq(names[..i])
    {
      assert names[..i + 1][..i] == names[..i];
      sum := sum + records[names[i]].coin.amount;
    }
    assert names[..|names|] == names;
  }

  method SumOfCoins(coins: seq<Coin>) returns (sum: nat)
    ensures sum == SumSeq(coins)
  {
    sum := 0;
    for i := 0 to |coins|
      invariant sum == SumSeq(coins[..i])
    {
      assert coins[..i + 1][..i] == coins[..i];
      sum := sum + coins[i].amount;
    }
    assert coins[..|coins|] == coins;
  }

  method SumOfReserves(spends: seq<Spend>) returns (ok: bool, sum: int)
    ensures ok <==> ReservesNonNegative(spends)
    ensures ok ==> sum == ReservedSum(spends)
  {
    sum := 0;
    for i := 0 to |spends|
      invariant sum == ReservedSum(spends[..i])
      invariant ReservesNonNegative(spends[..i])
    {
      assert spends[..i + 1][..i] == spends[..i];
      var fees := spends[i].reservedFees;
      var before := sum;
      for k := 0 to |fees|
        invariant sum == before + SumInts(fees[..k])
        invariant forall m :: 0 <= m < k ==> fees[m] >= 0
      {
        assert fees[..k + 1][..k] == fees[..k];
        if fees[k] < 0 { return false, sum; }
        sum := sum + fees[k];
      }
      assert fees[..|fees|] == fees;
    }
    assert spends[..|spends|] == spends;
    return true, sum;
  }

  method PuzzlesMatch(spends: seq<Spend>, records: map<Coin, CoinRecord>) returns (ok: bool)
    requires forall i :: 0 <= i < |spends| ==> spends[i].coin in records
    requires forall x :: x in records ==> records[x].coin == x
    ensures ok <==> forall i :: 0 <= i < |spends| ==> spends[i].coin.puzzleHash == spends[i].puzzleHash
  {
    for i := 0 to |spends|
      invariant forall k :: 0 <= k < i ==> spends[k].coin.puzzleHash == spends[k].puzzleHash
    {
      if records[spends[i].coin].coin.puzzleHash != spends[i].puzzleHash { return false; }
    }
    return true;
  }

  method CheckFees(b: Block, records: map<Coin, CoinRecord>) returns (err: Option<Err>)
    requires forall x :: x in b.Removals() ==> x in records
    requires forall x :: x in records ==> records[x].coin == x
    ensures err == FeesVerdict(b)
  {
    var removed := SumOfRecords(b.Removals(), records);
    var added := SumOfCoins(b.Additions());
    if removed < added { return Some(MintingCoin); }
    var fees := removed - added;
    var nonNegative, reserved := SumOfReserves(b.Spends());
    if !nonNegative { return Some(ReserveFeeConditionFailed); }
    if fees < reserved { return Some(ReserveFeeConditionFailed); }
    if fees + FarmerBase(b.height) > MAX_COIN_AMOUNT { return Some(CoinAmountExceedsMaximum); }
    if b.Fees() != fees { return Some(InvalidBlockFeeAmount); }
    assert forall i :: 0 <= i < |b.Spends()| ==> b.Spends()[i].coin == b.Removals()[i];
    var matches := PuzzlesMatch(b.Spends(), records);
    if !matches { return Some(WrongPuzzleHash); }
    return None;
  }

  // ---- The whole body ------------------------------------------------------------------------------------

  lemma ForkViewHolds(c: seq<Block>, d: seq<Block>, f: int, peakTable: CoinTable,
                      additionsSince: SinceFork, removalsSince: set<Coin>)
    requires ValidChain(c) && ValidChain(d) && IsFork(c, d, f)
    requires peakTable == Replay(d)
    requires additionsSince.Keys == CreatedSince(c, f) && NotedFrom(additionsSince, Replay(c))
    requires removalsSince == RemovedSince(c, f)
    ensures ForkView(peakTable, Replay(c), f, additionsSince, removalsSince)
  {
    ForkViewsAgree(c, d, f);
    SinceByHeight(c, f);
    ReplayInv(c);
    ReplayInv(d);
  }

  lemma NothingSince(c: seq<Block>, f: int)
    requires -1 <= f && |c| <= f + 1
    ensures CreatedSince(c, f) == {} && RemovedSince(c, f) == {}
  {
  }

  /** Checks 13 and 14 and the amounts of check 10. */
  method CheckOutputs(b: Block, rewards: set<Coin>) returns (err: Option<Err>)
    requires rewards == Elements(b.Claims())
    ensures err == if !AmountsValid(b) then Some(CoinAmountExceedsMaximum)
                   else if !DistinctOutputs(b) then Some(DuplicateOutput)
                   else if !NoDuplicates(b.Removals()) then Some(DoubleSpend)
                   else None
  {
    var coinbase := ListCoins(rewards);
    var outputs := b.Additions() + coinbase;
    DistinctParts(b.Additions(), coinbase);
    assert forall x :: x in outputs <==> x in Elements(outputs);
    var amountsOk := AmountsWithinMaximum(outputs);
    if !amountsOk { return Some(CoinAmountExceedsMaximum); }
    var outputsOk := HasNoDuplicates(outputs);
    if !outputsOk { return Some(DuplicateOutput); }
    var removalsOk := HasNoDuplicates(b.Removals());
    if !removalsOk { return Some(DoubleSpend); }
    return None;
  }

  /** The fork height used: -1 without a peak or at height 0, the caller's if given, else searched for. */
  method ForkHeight(blocks: Blocks, peak: Option<Block>, b: Block, forkPoint: Option<int>) returns (forkH: int)
    requires WellFormed(blocks) && Connected(blocks, b)
    requires PeakKnown(blocks, peak)
    requires forkPoint.Some? && peak.Some? ==>
      IsFork(Ancestors(blocks, b), Chain(blocks, peak.value), forkPoint.value)
    ensures IsFork(Ancestors(blocks, b), ChainTo(blocks, peak), forkH)
  {
    if peak.None? || b.height == 0 { return -1; }
    if forkPoint.Some? { return forkPoint.value; }
    forkH := FindForkPoint(blocks, peak.value, blocks[b.prevHash]);
    ForkIsSymmetric(Chain(blocks, peak.value), Ancestors(blocks, b), forkH);
  }

  /** The verdict reached from the peak's view is the verdict of the block's own chain: whether a
      body is accepted does not depend on where the peak is, and the error only on the fork height. */
  method ValidateBlockBody(blocks: Blocks, store: CoinStore, peak: Option<Block>, b: Block, forkPoint: Option<int>)
    returns (err: Option<Err>, ghost forkH: int)
    requires Sound(blocks) && Connected(blocks, b)
    requires HeaderValid(Ancestors(blocks, b), b)
    requires PeakKnown(blocks, peak)
    requires forkPoint.Some? && peak.Some? ==>
      IsFork(Ancestors(blocks, b), Chain(blocks, peak.value), forkPoint.value)
    requires store.Valid()
    requires store.table == Replay(ChainTo(blocks, peak))
    modifies store`cache, store`order
    ensures store.Valid()
    ensures IsFork(Ancestors(blocks, b), ChainTo(blocks, peak), forkH)
    ensures err == if b.IsTx() then BodyVerdict(Ancestors(blocks, b), forkH, b) else None
    ensures err.None? <==> (b.IsTx() ==> BodyValid(Ancestors(blocks, b), b))
  {
    ghost var c := Ancestors(blocks, b);
    AncestorsValid(blocks, b);
    AncestorsLinked(blocks, b);
    hide ValidChain, Replay, BodyValid, RewardsValid, LastTx, Chain, LinkedAt, IsChain, Linked;
    var f := ForkHeight(blocks, peak, b, forkPoint);
    forkH := f;
    if !b.IsTx() {
      return None, f;
    }
    VerdictIsValidity(c, f, b);
    var claimsOk, expected := CheckRewardClaims(blocks, b, c);
    if !claimsOk { return Some(InvalidRewardCoins), f; }
    err := CheckOutputs(b, expected);
    if err.Some? { return err, f; }
    var additionsSince: SinceFork, removalsSince: set<Coin> := map[], {};
    if b.height > 0 {
      additionsSince, removalsSince := CollectSinceFork(blocks, blocks[b.prevHash], f, c);
    } else {
      NothingSince(c, f);
      NothingNoted(Replay(c));
    }
    ForkViewHolds(c, ChainTo(blocks, peak), f, store.table, additionsSince, removalsSince);
    var records;
    err, records := CheckRemovals(store, b, f, additionsSince, removalsSince, Replay(c));
    if err.Some? { return err, f; }
    err := CheckFees(b, records);
  }

  lemma AncestorsLinked(blocks: Blocks, b: Block)
    requires Sound(blocks) && Connected(blocks, b) && HeaderValid(Ancestors(blocks, b), b)
    ensures IsChain(Ancestors(blocks, b)) && Linked(blocks, Ancestors(blocks, b))
    ensures b.IsTx() && b.height > 0 ==>
      (LastTx(Ancestors(blocks, b)) >= 0 && b.body.value.prevTxHash in blocks &&
       blocks[b.body.value.prevTxHash] == Ancestors(blocks, b)[LastTx(Ancestors(blocks, b))])
  {
    AncestorsValid(blocks, b);
    if b.height > 0 {
      var prev, c := blocks[b.prevHash], Ancestors(blocks, b);
      ChainIsLinked(blocks, prev);
      assert IsChain(c);
      if LastTx(c) == prev.height { assert c[LastTx(c)] == prev; }
    }
  }
}
