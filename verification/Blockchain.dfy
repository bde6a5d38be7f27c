/** The blockchain object: receive a block, roll the coin table back to the fork, re-apply the branch. */
module Blockchains {
  import opened Coins
  import opened Ledger
  import opened BlockTree
  import opened ChainState
  import opened CoinStores
  import opened BlockStores
  import opened BodyValidation
  import opened Conservation
  import opened BranchStakes

  // ---- The report of coin changes -------------------------------------------------------------------

  /** The coins whose rows were written above height `f`. */
  function Touched(t: CoinTable, f: int): set<Coin>
  {
    ConfirmedAbove(t, f) + SpentAbove(t, f)
  }

  /** The records reported for a reorganisation from `before` to `after` over a fork at `f`: coins
      confirmed or spent above the fork on the new branch with their new rows, and coins that the
      rollback deleted and the branch did not bring back. */
  function ChangeSet(before: CoinTable, after: CoinTable, f: int): CoinTable
  {
    map x | x in ConfirmedAbove(before, f) + Touched(after, f) ::
      if x in Touched(after, f) then after[x] else before[x].(confirmedIndex := 0, timestamp := 0)
  }

  function RowsOf(t: CoinTable, s: set<Coin>): CoinTable
  {
    map x | x in s && x in t :: t[x]
  }

  lemma NoChangesYet(before: CoinTable, f: int)
    ensures ChangeSet(before, Rollback(before, f), f) == DeletedRows(before, f)
  {
    assert Touched(Rollback(before, f), f) == {};
  }

  lemma ChangeOverwrite(before: CoinTable, t: CoinTable, u: CoinTable, f: int, s: set<Coin>)
    requires Touched(u, f) == Touched(t, f) + s
    requires forall x :: x in Touched(t, f) && x !in s ==> x in u && u[x] == t[x]
    requires s <= u.Keys
    ensures ChangeSet(before, u, f) == ChangeSet(before, t, f) + RowsOf(u, s)
  {
  }

  lemma ChangeStep(before: CoinTable, t: CoinTable, b: Block, f: int)
    requires b.height > f && b.Created() !! t.Keys && SpendsValid(t, b)
    ensures b.Created() + Elements(b.Removals()) <= ApplyBlock(t, b).Keys
    ensures ChangeSet(before, ApplyBlock(t, b), f) ==
            ChangeSet(before, t, f) + RowsOf(ApplyBlock(t, b), b.Created() + Elements(b.Removals()))
  {
    ApplyHeights(t, b, f);
    ApplyLeaves(t, b);
    hide ApplyBlock, SpendsValid;
    ChangeOverwrite(before, t, ApplyBlock(t, b), f, b.Created() + Elements(b.Removals()));
  }

  lemma ApplyLeaves(t: CoinTable, b: Block)
    requires SpendsValid(t, b)
    ensures b.Created() + Elements(b.Removals()) <= ApplyBlock(t, b).Keys
    ensures forall x :: x in t && x !in b.Removals() ==> x in ApplyBlock(t, b) && ApplyBlock(t, b)[x] == t[x]
  {
  }

  predicate SameRow(t: CoinTable, u: CoinTable, x: Coin)
  {
    (x in t <==> x in u) && (x in t ==> t[x] == u[x])
  }

  /** Coins that the reorganisation changes without reporting them: spent above the fork on the old
      branch, confirmed at or below it, and not spent again on the new branch. */
  ghost predicate Unreported(before: CoinTable, after: CoinTable, f: int, x: Coin)
  {
    x in before && before[x].confirmedIndex <= f && before[x].spentIndex > f && x in after && !after[x].spent
  }

  /** The report covers every changed coin exactly when no coin is silently unspent. */
  lemma ReportIsCompleteIff(before: CoinTable, after: CoinTable, f: int)
    requires Rollback(before, f) == Rollback(after, f)
    requires forall x :: x in before ==> (before[x].spent <==> before[x].spentIndex > 0)
    requires forall x :: x in after ==> (after[x].spent <==> after[x].spentIndex > 0)
    ensures (forall x :: !SameRow(before, after, x) ==> x in ChangeSet(before, after, f)) <==>
            (forall x :: !Unreported(before, after, f, x))
  {
    var changes := ChangeSet(before, after, f);
    forall x ensures !SameRow(before, after, x) && x !in changes <==> Unreported(before, after, f, x) {
      RolledBackRow(before, after, f, x);
      if x in before && before[x].confirmedIndex <= f {
        assert x in Rollback(before, f) && x in Rollback(after, f);
      }
    }
  }

  /** On a reorganisation from chain `d` to chain `c` the report is complete exactly when every older
      coin the abandoned branch spent is spent again by the new one. */
  lemma ReportIsCompleteOnChains(c: seq<Block>, d: seq<Block>, f: int)
    requires ValidChain(c) && ValidChain(d) && IsFork(c, d, f)
    ensures (forall x :: !SameRow(Replay(d), Replay(c), x) ==> x in ChangeSet(Replay(d), Replay(c), f)) <==>
            RemovedSince(d, f) - CreatedSince(d, f) <= RemovedSince(c, f)
  {
    hide ValidChain;
    var before, after := Replay(d), Replay(c);
    ForkViewsAgree(c, d, f);
    ReplayInv(c);
    ReplayInv(d);
    SinceByHeight(c, f);
    SinceByHeight(d, f);
    hide Replay, CreatedSince, RemovedSince;
    ReportIsCompleteIff(before, after, f);
    hide ChangeSet, SameRow;
    forall x
      ensures Unreported(before, after, f, x) <==> x in RemovedSince(d, f) - CreatedSince(d, f) - RemovedSince(c, f)
    {
      RolledBackRow(before, after, f, x);
    }
    SilentIffLeftOver(before, after, f, RemovedSince(d, f) - CreatedSince(d, f), RemovedSince(c, f));
  }

  lemma SilentIffLeftOver(before: CoinTable, after: CoinTable, f: int, undone: set<Coin>, redone: set<Coin>)
    requires forall x :: Unreported(before, after, f, x) <==> x in undone - redone
    ensures (forall x :: !Unreported(before, after, f, x)) <==> undone <= redone
  {
    if undone <= redone {
      forall x ensures !Unreported(before, after, f, x) { assert x !in undone - redone; }
    }
    if forall x :: !Unreported(before, after, f, x) {
      forall x | x in undone ensures x in redone { assert !Unreported(before, after, f, x); }
    }
  }

  // ---- Reorganising the coin store ---------------------------------------------------------------------

  method NoteAdditions(added: seq<CoinRecord>, latest: CoinTable, ghost rows: CoinTable, ghost removals: set<Coin>)
    returns (noted: CoinTable)
    requires forall i :: 0 <= i < |added| && added[i].coin !in removals ==>
      added[i].coin in rows && added[i] == rows[added[i].coin]
    ensures noted.Keys == latest.Keys + (set i | 0 <= i < |added| :: added[i].coin)
    ensures forall x :: x in noted && x !in removals ==>
      noted[x] == if x in (set i | 0 <= i < |added| :: added[i].coin) then rows[x] else latest[x]
  {
    noted := latest;
    for i := 0 to |added|
      invariant noted.Keys == latest.Keys + (set k | 0 <= k < i :: added[k].coin)
      invariant forall x :: x in noted && x !in removals ==>
        noted[x] == if x in (set k | 0 <= k < i :: added[k].coin) then rows[x] else latest[x]
    {
      noted := noted[added[i].coin := added[i]];
    }
  }

  method NoteRemovals(store: CoinStore, removals: seq<Coin>, latest: CoinTable) returns (noted: CoinTable)
    requires store.Valid()
    requires forall x :: x in removals ==> x in store.table
    modifies store`cache, store`order
    ensures store.Valid()
    ensures noted == latest + RowsOf(store.table, Elements(removals))
  {
    noted := latest;
    for i := 0 to |removals|
      invariant store.Valid() && store.table == old(store.table)
      invariant forall x :: x in noted <==> x in latest || x in removals[..i]
      invariant forall x :: x in noted ==> noted[x] == if x in removals[..i] then store.table[x] else latest[x]
    {
      assert removals[..i + 1] == removals[..i] + [removals[i]];
      var record := store.GetCoinRecord(removals[i]);
      assert record.Some?;
      noted := noted[removals[i] := record.value];
    }
    assert removals[..|removals|] == removals;
  }

  /** Record a block's coins: additions first, then removals, so that an ephemeral coin shows as spent. */
  method NoteChanges(store: CoinStore, added: seq<CoinRecord>, removals: seq<Coin>, latest: CoinTable,
                     ghost names: set<Coin>)
    returns (noted: CoinTable)
    requires store.Valid()
    requires forall x :: x in removals ==> x in store.table
    requires names == set i | 0 <= i < |added| :: added[i].coin
    requires names <= store.table.Keys
    requires forall i :: 0 <= i < |added| && added[i].coin !in removals ==>
      added[i].coin in store.table && added[i] == store.table[added[i].coin]
    modifies store`cache, store`order
    ensures store.Valid()
    ensures noted == latest + RowsOf(store.table, names + Elements(removals))
  {
    noted := NoteAdditions(added, latest, store.table, Elements(removals));
    noted := NoteRemovals(store, removals, noted);
  }

  lemma PrefixSnoc(c: seq<Block>, i: nat)
    requires ValidChain(c) && i < |c|
    ensures ValidChain(c[..i + 1]) && c[..i + 1][..i] == c[..i] && c[..i + 1][i] == c[i]
  {
    ValidPrefix(c, i + 1);
  }

  /** Everything the coin store relies on when it is given the block at height `i` of a valid chain. */
  lemma NextApplies(c: seq<Block>, i: nat)
    requires ValidChain(c) && i < |c|
    ensures c[i].height == i
    ensures c[i].IsTx() ==> Replay(c[..i + 1]) == ApplyBlock(Replay(c[..i]), c[i])
    ensures !c[i].IsTx() ==> Replay(c[..i + 1]) == Replay(c[..i])
    ensures c[i].Created() !! Replay(c[..i]).Keys && SpendsValid(Replay(c[..i]), c[i])
    ensures DistinctOutputs(c[i])
    ensures c[i].IsTx() ==> if i == 0 then |Elements(c[i].Claims())| == 0 else |Elements(c[i].Claims())| >= 2
  {
    PrefixSnoc(c, i);
    TipApplies(c[..i + 1]);
    BlockIsDistinct(c, i);
    if c[i].IsTx() { RewardCount(c[..i], c[i]); }
  }

  lemma RewardCount(c: seq<Block>, b: Block)
    requires ValidChain(c) && RewardsValid(c, b)
    ensures if c == [] then |Elements(b.Claims())| == 0 else |Elements(b.Claims())| >= 2
  {
    if c == [] {
      ExpectedWithin(c);
    } else {
      ExpectedRewardsSum(c);
    }
  }

  /** Apply one block of the branch to the coin store and to the report. */
  method ReapplyBlock(store: CoinStore, b: Block, latest: CoinTable, ghost f: int, ghost before: CoinTable)
    returns (noted: CoinTable)
    requires store.Valid() && b.IsTx() && b.height > f
    requires b.Created() !! store.table.Keys && SpendsValid(store.table, b) && DistinctOutputs(b)
    requires if b.height == 0 then |Elements(b.Claims())| == 0 else |Elements(b.Claims())| >= 2
    requires latest == ChangeSet(before, store.table, f)
    modifies store
    ensures store.Valid()
    ensures store.table == ApplyBlock(old(store.table), b)
    ensures noted == ChangeSet(before, store.table, f)
  {
    hide ApplyCoins, ChangeSet, SpendsValid, RowsOf;
    ChangeStep(before, store.table, b, f);
    var removals := b.Removals();
    ghost var t := store.table;
    var added, inserted := store.NewBlock(b.height, b.Timestamp(), Elements(b.Claims()), b.Additions(), removals);
    assert inserted;
    AddedAreRows(t, b, added);
    assert forall x :: x in removals ==> x in Elements(removals);
    noted := NoteChanges(store, added, removals, latest, b.Created());
  }

  lemma AddedAreRows(t: CoinTable, b: Block, added: seq<CoinRecord>)
    requires b.Created() !! t.Keys
    requires forall i :: 0 <= i < |added| ==>
      added[i] == NewRecord(b.height, b.Timestamp(), b.Additions(), added[i].coin)
    requires (set i | 0 <= i < |added| :: added[i].coin) == Elements(b.Additions()) + Elements(b.Claims())
    ensures forall i :: 0 <= i < |added| ==> added[i].coin in ApplyBlock(t, b)
    ensures forall i :: 0 <= i < |added| && added[i].coin !in b.Removals() ==>
      added[i] == ApplyBlock(t, b)[added[i].coin]
  {
    forall i | 0 <= i < |added|
      ensures added[i].coin in ApplyBlock(t, b)
      ensures added[i].coin !in b.Removals() ==> added[i] == ApplyBlock(t, b)[added[i].coin]
    {
      assert added[i].coin in (set k | 0 <= k < |added| :: added[k].coin);
      assert added[i].coin in b.Created();
    }
  }

  /** The branch from the new tip down to, not including, the fork. */
  method CollectBlocksToAdd(fullBlocks: Blocks, heightToHash: map<nat, Hash>, tip: Block, f: int, ghost c: seq<Block>)
    returns (toAdd: seq<Block>)
    requires Linked(fullBlocks, c) && c != [] && c[|c| - 1] == tip && -1 <= f < |c|
    requires forall i :: 0 <= i < |c| ==> c[i].hash in fullBlocks && fullBlocks[c[i].hash] == c[i]
    requires f >= 0 ==> f in heightToHash && heightToHash[f] == c[f].hash
    ensures |toAdd| == |c| - 1 - f
    ensures forall k :: 0 <= k < |toAdd| ==> toAdd[k] == c[|c| - 1 - k]
  {
    toAdd := [];
    var curr := tip.hash;
    while f < 0 || curr != heightToHash[f]
      invariant |toAdd| <= |c| - 1 - f && |toAdd| < |c|
      invariant curr == c[|c| - 1 - |toAdd|].hash
      invariant forall k :: 0 <= k < |toAdd| ==> toAdd[k] == c[|c| - 1 - k]
      decreases |c| - |toAdd|
    {
      var block := fullBlocks[curr];
      assert block == c[|c| - 1 - |toAdd|];
      toAdd := toAdd + [block];
      if block.height == 0 { break; }
      assert ParentAt(fullBlocks, c, block.height);
      curr := block.prevHash;
    }
    if |toAdd| < |c| {
      assert fullBlocks[c[|c| - 1 - |toAdd|].hash].height == |c| - 1 - |toAdd|;
    }
  }

  method ReapplyAt(store: CoinStore, b: Block, latest: CoinTable, ghost f: int, ghost c: seq<Block>, ghost j: nat,
                   ghost before: CoinTable)
    returns (noted: CoinTable)
    requires ValidChain(c) && j < |c| && b == c[j] && f < j
    requires store.Valid() && store.table == Replay(c[..j])
    requires latest == ChangeSet(before, store.table, f)
    modifies store
    ensures store.Valid() && store.table == Replay(c[..j + 1])
    ensures noted == ChangeSet(before, store.table, f)
  {
    hide ValidChain, Replay, ApplyBlock, ChangeSet, SpendsValid, DistinctOutputs;
    NextApplies(c, j);
    noted := latest;
    if b.IsTx() {
      noted := ReapplyBlock(store, b, noted, f, before);
    }
  }

  /** Re-apply the collected branch, lowest block first. */
  method ReapplyBranch(store: CoinStore, toAdd: seq<Block>, f: int, latest: CoinTable,
                       ghost c: seq<Block>, ghost before: CoinTable)
    returns (records: seq<Block>, noted: CoinTable)
    requires ValidChain(c) && -1 <= f < |c|
    requires |toAdd| == |c| - 1 - f && forall k :: 0 <= k < |toAdd| ==> toAdd[k] == c[|c| - 1 - k]
    requires store.Valid() && store.table == Replay(c[..f + 1])
    requires latest == ChangeSet(before, store.table, f)
    modifies store
    ensures store.Valid() && store.table == Replay(c)
    ensures records == c[f + 1..]
    ensures noted == ChangeSet(before, store.table, f)
  {
    hide ValidChain, Replay, ChangeSet;
    records, noted := [], latest;
    for i := |toAdd| downto 0
      invariant store.Valid() && store.table == Replay(c[..|c| - i])
      invariant |records| == |c| - i - (f + 1)
      invariant forall k :: 0 <= k < |records| ==> records[k] == c[f + 1 + k]
      invariant noted == ChangeSet(before, store.table, f)
    {
      noted := ReapplyAt(store, toAdd[i], noted, f, c, |c| - 1 - i, before);
      records := records + [toAdd[i]];
    }
    assert c[..|c|] == c;
  }

  // ---- Fork facts ------------------------------------------------------------------------------------------

  lemma AppendFork(d: seq<Block>, b: Block)
    ensures IsFork(d + [b], d, |d| - 1)
  {
  }

  /** A block the index test does not report is not on the peak's path. */
  lemma NotOnPath(v: View, b: Block)
    requires ViewInv(v) && v.peak.Some? && !InPeakChain(v, b.hash) && SameUnderHash(v.blocks, b)
    ensures b !in PeakChain(v)
  {
    hide ValidChain, LinkedAt, Indexes, IndexOk, Sound;
    var d := PeakChain(v);
    forall i | 0 <= i < |d| ensures d[i] != b {
      IndexedAt(v, i);
      PathKnown(v, i);
    }
  }

  lemma SummaryPrefix(c: seq<Block>, f: int)
    requires -1 <= f < |c|
    ensures SummaryMap(c[..f + 1]) == map i | i in SummaryMap(c) && i <= f :: SummaryMap(c)[i]
  {
  }

  lemma IndexTail(index: map<nat, Hash>, updated: map<nat, Hash>, c: seq<Block>, f: int)
    requires -1 <= f < |c| && Indexes(index, c[..f + 1])
    requires forall i: nat :: i in updated <==> i in index || f < i < |c|
    requires forall i :: i in updated ==> updated[i] == if f < i < |c| then c[i].hash else index[i]
    ensures updated == index + PathMap(c)
  {
    forall i | i in updated ensures updated[i] == (index + PathMap(c))[i] {
      if 0 <= i <= f { assert c[..f + 1][i] == c[i]; }
    }
    assert forall i: nat :: i <= f ==> i in index;
  }

  // ---- The object -------------------------------------------------------------------------------------------

  /** A summary is held for exactly the heights at which the chain includes one. */
  ghost predicate SummariesOf(summaries: map<nat, Summary>, c: seq<Block>)
  {
    && (forall h: nat :: h in summaries <==> h < |c| && c[h].summary.Some?)
    && (forall h: nat :: h in summaries && h < |c| ==> c[h].summary == Some(summaries[h]))
  }

  lemma SummariesHeld(c: seq<Block>)
    ensures SummariesOf(SummaryMap(c), c)
  {
  }

  /** The error returned with a result: none unless the block is refused, and then the first rule it breaks.
      For a body that is its verdict on its own ancestors, which fork from the peak's chain at `f`. */
  ghost predicate ErrorNames(v: View, b: Block, f: int, result: ReceiveResult, err: Option<Err>)
    requires ViewInv(v)
  {
    match result
    case DisconnectedBlock => err == Some(InvalidPrevBlockHash)
    case InvalidBlock =>
      if WellFormed(v.blocks) && Connected(v.blocks, b) then
        var c := Ancestors(v.blocks, b);
        if !HeaderValid(c, b) then err == Some(if c == [] then InvalidIsTransactionBlock else InvalidPrevBlockHash)
        else b.IsTx() && IsFork(c, PeakChain(v), f) && err.Some? && err == BodyVerdict(c, f, b)
      else b.height != 0 && b.prevHash in v.blocks && err == Some(InvalidHeight)
    case _ => err.None?
  }

  class Blockchain {
    var blockRecords: Blocks
    var heightToHash: map<nat, Hash>
    var summaries: map<nat, Summary>
    var peakHeight: Option<nat>
    const coinStore: CoinStore
    const blockStore: BlockStore

    ghost function PeakBlock(): Option<Block>
      reads this
    {
      if peakHeight.Some? && peakHeight.value in heightToHash && heightToHash[peakHeight.value] in blockRecords
      then Some(blockRecords[heightToHash[peakHeight.value]]) else None
    }

    ghost function ViewOf(): View
      reads this
    {
      View(blockRecords, PeakBlock(), heightToHash)
    }

    /** The indexes in memory describe one sound view. */
    ghost predicate IndexesValid()
      reads this
    {
      && ViewInv(ViewOf())
      && (peakHeight.Some? <==> PeakBlock().Some?)
      && (peakHeight.Some? ==> PeakBlock().value.height == peakHeight.value)
    }

    /** The coin table is the replay of the peak's chain, the summaries are those of its path, and
        the stored blocks and peak flag are those in memory. */
    ghost predicate Valid()
      reads this, coinStore, blockStore
    {
      && IndexesValid()
      && coinStore.Valid() && coinStore.table == Replay(PeakChain(ViewOf()))
      && summaries == SummaryMap(PeakChain(ViewOf()))
      && blockStore.Valid() && blockStore.fullBlocks == blockRecords && blockStore.PeakIs(PeakBlock())
    }

    constructor (coins: CoinStore, blocks: BlockStore)
      requires coins.Valid() && coins.table == map[]
      requires blocks.Valid() && blocks.fullBlocks == map[]
      ensures Valid() && ViewOf() == EMPTY && coinStore == coins && blockStore == blocks
    {
      blockRecords := map[];
      heightToHash := map[];
      summaries := map[];
      peakHeight := None;
      coinStore := coins;
      blockStore := blocks;
    }

    method SetMemory(blocks: Blocks, index: map<nat, Hash>, ses: map<nat, Summary>, height: Option<nat>)
      modifies this
      ensures blockRecords == blocks && heightToHash == index && summaries == ses && peakHeight == height
    {
      blockRecords := blocks;
      heightToHash := index;
      summaries := ses;
      peakHeight := height;
    }

    /** Restart: whatever is in memory, rebuild it from the two stores. */
    method LoadChainFromStore(ghost peak: Option<Block>)
      requires coinStore.Valid() && blockStore.Valid() && blockStore.PeakIs(peak)
      requires Sound(blockStore.fullBlocks) && PeakKnown(blockStore.fullBlocks, peak)
      requires peak.None? ==> blockStore.fullBlocks == map[]
      requires coinStore.table == Replay(ChainTo(blockStore.fullBlocks, peak))
      modifies this
      ensures Valid()
      ensures ViewOf() == View(blockStore.fullBlocks, peak, PathMap(ChainTo(blockStore.fullBlocks, peak)))
    {
      hide Replay, ValidChain, SummaryMap, PathMap, Sound, Chain, ChainTo;
      LoadedView(blockStore.fullBlocks, peak);
      hide PeakOk;
      var index, ses := blockStore.GetPeakHeightDicts(peak);
      var peakRow := blockStore.PeakRow(peak);
      SetMemory(blockStore.fullBlocks, index, ses, if peakRow.None? then None else Some(peakRow.value.height));
      assert PeakBlock() == peak;
    }

    method GetPeak() returns (peak: Option<Block>)
      requires IndexesValid()
      ensures peak == PeakBlock()
    {
      if peakHeight.None? { return None; }
      return Some(blockRecords[heightToHash[peakHeight.value]]);
    }

    method ContainsBlockInPeakChain(hash: Hash) returns (r: bool)
      ensures r <==> InPeakChain(ViewOf(), hash)
    {
      if hash !in blockRecords { return false; }
      var height := blockRecords[hash].height;
      return height in heightToHash && heightToHash[height] == hash;
    }

    method DeleteSummariesAbove(f: int)
      modifies `summaries
      ensures summaries == map i | i in old(summaries) && i <= f :: old(summaries)[i]
    {
      var toDelete: set<nat> := {};
      var rest := summaries.Keys;
      while rest != {}
        invariant rest <= summaries.Keys
        invariant forall i :: i in toDelete <==> i in summaries && i !in rest && i > f
        decreases |rest|
      {
        var height :| height in rest;
        rest := rest - {height};
        if height > f { toDelete := toDelete + {height}; }
      }
      while toDelete != {}
        invariant forall i :: i in toDelete ==> i in summaries && i > f
        invariant forall i :: i in summaries <==> i in old(summaries) && (i <= f || i in toDelete)
        invariant forall i :: i in summaries ==> summaries[i] == old(summaries)[i]
        decreases |toDelete|
      {
        var height :| height in toDelete;
        summaries := summaries - {height};
        toDelete := toDelete - {height};
      }
    }

    /** The fork of the new block with the peak's chain. */
    method ForkWithPeak(b: Block, peak: Block, forkPoint: Option<int>) returns (f: int)
      requires IndexesValid() && PeakBlock() == Some(peak)
      requires Connected(blockRecords, b) && SameUnderHash(blockRecords, b) && b !in PeakChain(ViewOf())
      requires forkPoint.Some? ==> IsFork(Ancestors(blockRecords, b), PeakChain(ViewOf()), forkPoint.value)
      requires b.height > 0
      ensures IsFork(Chain(blockRecords, b), PeakChain(ViewOf()), f)
      ensures b.prevHash == peak.hash ==> f == peak.height
    {
      ghost var d := PeakChain(ViewOf());
      if b.prevHash == peak.hash {
        AppendFork(d, b);
        return peak.height;
      }
      if forkPoint.Some? {
        ForkOfChild(Ancestors(blockRecords, b), b, d, forkPoint.value);
        return forkPoint.value;
      }
      assert peak == d[peak.height];
      f := FindForkPoint(blockRecords, b, peak);
    }

    /** Make the branch `c` ending in `b` the one the stores describe: roll back to the fork, forget
        the summaries above it, re-apply the branch and move the peak flag. */
    method AdoptBranch(b: Block, f: int, appended: bool, ghost c: seq<Block>, ghost d: seq<Block>)
      returns (records: seq<Block>, changes: CoinTable)
      requires ValidChain(c) && ValidChain(d) && c != [] && c[|c| - 1] == b
      requires -1 <= f < |c| && f < |d| && c[..f + 1] == d[..f + 1]
      requires appended ==> f == |d| - 1
      requires f >= 0 ==> f in heightToHash && heightToHash[f] == c[f].hash
      requires coinStore.Valid() && coinStore.table == Replay(d)
      requires summaries == SummaryMap(d)
      requires blockStore.Valid() && StoresChain(blockStore.fullBlocks, c)
      modifies coinStore, blockStore`rows, `summaries
      ensures coinStore.Valid() && coinStore.table == Replay(c)
      ensures records == c[f + 1..]
      ensures changes == ChangeSet(old(coinStore.table), coinStore.table, f)
      ensures summaries == SummaryMap(c[..f + 1])
      ensures blockStore.Valid() && blockStore.PeakIs(Some(b))
    {
      hide ValidChain, Replay, ChangeSet, SummaryMap, Rollback;
      ghost var before := coinStore.table;
      RollbackToPrefix(d, f + 1);
      NoChangesYet(before, f);
      changes := map[];
      if !appended {
        changes := coinStore.RollbackToBlock(f);
      } else {
        NothingToRollBack(d, before, f);
      }
      SummaryPrefix(d, f);
      DeleteSummariesAbove(f);
      var toAdd := CollectBlocksToAdd(blockStore.fullBlocks, heightToHash, b, f, c);
      records, changes := ReapplyBranch(coinStore, toAdd, f, changes, c, before);
      blockStore.SetPeak(b.hash);
    }

    /** The first block: nothing to roll back, and nothing it could spend. */
    method AdoptGenesis(b: Block) returns (changes: CoinTable)
      requires ValidChain([b]) && coinStore.Valid() && coinStore.table == map[]
      requires blockStore.Valid() && b.hash in blockStore.fullBlocks && blockStore.fullBlocks[b.hash] == b
      modifies coinStore, blockStore`rows
      ensures coinStore.Valid() && coinStore.table == Replay([b])
      ensures changes == ChangeSet(map[], coinStore.table, -1)
      ensures blockStore.Valid() && blockStore.PeakIs(Some(b))
    {
      hide ValidChain, SpendsValid, DistinctOutputs;
      NextApplies([b], 0);
      assert [b][..0] == [] && [b][..1] == [b];
      GenesisIsTx(b);
      assert ChangeSet(map[], map[], -1) == map[];
      changes := ReapplyBlock(coinStore, b, map[], -1, map[]);
      blockStore.SetPeak(b.hash);
    }

    /** Point the height index and the summaries at the adopted blocks. */
    method IndexRecords(records: seq<Block>, ghost c: seq<Block>, ghost f: int)
      requires -1 <= f < |c| && records == c[f + 1..]
      requires forall i :: 0 <= i < |c| ==> c[i].height == i
      requires Indexes(heightToHash, c[..f + 1]) && summaries == SummaryMap(c[..f + 1])
      modifies `heightToHash, `summaries
      ensures heightToHash == old(heightToHash) + PathMap(c)
      ensures summaries == SummaryMap(c)
    {
      hide SummaryMap, PathMap, Indexes;
      ghost var index := heightToHash;
      for k := 0 to |records|
        invariant forall i: nat :: i in heightToHash <==> i in index || f < i <= f + k
        invariant forall i :: i in heightToHash ==> heightToHash[i] == if f < i <= f + k then c[i].hash else index[i]
        invariant summaries == SummaryMap(c[..f + 1 + k])
      {
        assert records[k] == c[f + 1 + k];
        heightToHash := heightToHash[records[k].height := records[k].hash];
        SummaryNext(c, f + 1 + k);
        if records[k].summary.Some? {
          summaries := summaries[records[k].height := records[k].summary.value];
        }
      }
      assert c[..|c|] == c;
      IndexTail(index, heightToHash, c, f);
    }

    /** Classify a received block; only the coin cache may change. */
    method Classify(b: Block, forkPoint: Option<int>)
      returns (result: ReceiveResult, err: Option<Err>, ghost forkH: int)
      requires Valid() && SameUnderHash(blockRecords, b)
      requires forkPoint.Some? && Connected(blockRecords, b) && PeakBlock().Some? ==>
        IsFork(Ancestors(blockRecords, b), PeakChain(ViewOf()), forkPoint.value)
      modifies coinStore`cache, coinStore`order
      ensures Valid()
      ensures result == Outcome(ViewOf(), b) && ErrorNames(ViewOf(), b, forkH, result, err)
    {
      hide ValidChain, Replay, BodyValid, BodyVerdict, HeaderValid, SummaryMap, Indexes, IsFork, LastTx, Chain,
        LinkedAt;
      err, forkH := None, 0;
      var have := ContainsBlockInPeakChain(b.hash);
      if have { return AlreadyHaveBlock, None, 0; }
      if b.height != 0 && b.prevHash !in blockRecords { return DisconnectedBlock, Some(InvalidPrevBlockHash), 0; }
      if b.height != 0 && blockRecords[b.prevHash].height + 1 != b.height {
        return InvalidBlock, Some(InvalidHeight), 0;
      }
      result, err, forkH := ClassifyConnected(b, forkPoint);
    }

    method ClassifyConnected(b: Block, forkPoint: Option<int>)
      returns (result: ReceiveResult, err: Option<Err>, ghost forkH: int)
      requires Valid() && Connected(blockRecords, b) && !InPeakChain(ViewOf(), b.hash)
      requires forkPoint.Some? && PeakBlock().Some? ==>
        IsFork(Ancestors(blockRecords, b), PeakChain(ViewOf()), forkPoint.value)
      modifies coinStore`cache, coinStore`order
      ensures Valid()
      ensures result == Outcome(ViewOf(), b) && ErrorNames(ViewOf(), b, forkH, result, err)
    {
      hide ValidChain, Replay, BodyValid, BodyVerdict, HeaderValid, SummaryMap, Indexes, IsFork, LastTx, Chain,
        LinkedAt, InPeakChain;
      err, forkH := None, 0;
      AncestorsValid(blockRecords, b);
      ValidIsChain(Ancestors(blockRecords, b));
      err := CheckHeader(blockRecords, b, Ancestors(blockRecords, b));
      if err.Some? { return InvalidBlock, err, 0; }
      var peak := GetPeak();
      err, forkH := ValidateBlockBody(blockRecords, coinStore, peak, b, forkPoint);
      if err.Some? { return InvalidBlock, err, forkH; }
      if b.height == 0 && peak.Some? { return AddedAsOrphan, None, forkH; }
      return NewPeak, None, forkH;
    }

    /** A genesis block beside an existing chain is stored and nothing else. */
    method StoreOrphan(b: Block)
      requires Valid() && SameUnderHash(blockRecords, b) && Outcome(ViewOf(), b) == AddedAsOrphan
      modifies `blockRecords, blockStore
      ensures Valid() && ViewOf() == After(old(ViewOf()), b, AddedAsOrphan)
    {
      hide ValidChain, Replay, Acceptable, SummaryMap, Indexes, IndexOk, Chain, LinkedAt;
      ghost var v := ViewOf();
      OutcomeMeans(v, b);
      AfterKeepsInv(v, b, AddedAsOrphan);
      ChainStable(v.blocks, b, v.peak.value);
      NotThePeak(v, b);
      blockStore.AddFullBlock(b);
      blockRecords := blockRecords[b.hash := b];
    }

    /** The database part: store the block and adopt its branch. */
    method AdoptInStores(b: Block, forkPoint: Option<int>, ghost c: seq<Block>, ghost d: seq<Block>)
      returns (f: int, records: seq<Block>, changes: CoinTable)
      requires Valid() && d == PeakChain(ViewOf()) && ValidChain(d)
      requires Connected(blockRecords, b) && SameUnderHash(blockRecords, b) && c == Chain(blockRecords, b)
      requires ValidChain(c) && StoresChain(blockRecords[b.hash := b], c)
      requires !InPeakChain(ViewOf(), b.hash) && (PeakBlock().Some? ==> b.height > 0)
      requires forkPoint.Some? && PeakBlock().Some? ==> IsFork(Ancestors(blockRecords, b), d, forkPoint.value)
      modifies coinStore, blockStore, `summaries
      ensures IsFork(c, d, f)
      ensures coinStore.Valid() && coinStore.table == Replay(c)
      ensures records == c[f + 1..]
      ensures changes == ChangeSet(old(coinStore.table), coinStore.table, f)
      ensures summaries == SummaryMap(c[..f + 1])
      ensures blockStore.Valid() && blockStore.PeakIs(Some(b))
      ensures blockStore.fullBlocks == blockRecords[b.hash := b]
    {
      hide ValidChain, ChangeSet, SummaryMap, Sound, StoresChain, LinkedAt;
      var peak := GetPeak();
      if peak.Some? { NotOnPath(ViewOf(), b); }
      hide PeakOk, InPeakChain;
      assert blockStore.fullBlocks == blockRecords;
      hide ViewInv, Chain, Replay;
      if peak.None? {
        assert c == [b];
        ReplayNothing();
        f, records := -1, [b];
        NewlyStored(blockRecords, b);
        blockStore.AddFullBlock(b);
        changes := AdoptGenesis(b);
      } else {
        f := ForkWithPeak(b, peak.value, forkPoint);
        ForkPrefix(c, d, f);
        IndexedAt(ViewOf(), f);
        blockStore.AddFullBlock(b);
        records, changes := AdoptBranch(b, f, b.prevHash == peak.value.hash, c, d);
      }
    }

    /** The memory part, after the database has committed. */
    method UpdateMemory(b: Block, records: seq<Block>, ghost c: seq<Block>, ghost f: int)
      requires -1 <= f < |c| && records == c[f + 1..] && c != [] && c[|c| - 1] == b
      requires forall i :: 0 <= i < |c| ==> c[i].height == i
      requires Indexes(heightToHash, c[..f + 1]) && summaries == SummaryMap(c[..f + 1])
      modifies this
      ensures summaries == SummaryMap(c) && peakHeight == Some(b.height)
      ensures ViewOf() == View(old(blockRecords)[b.hash := b], Some(b), old(heightToHash) + PathMap(c))
    {
      hide SummaryMap, Indexes, PathMap;
      blockRecords := blockRecords[b.hash := b];
      IndexRecords(records, c, f);
      peakHeight := Some(b.height);
      PathEnds(c, b);
    }

    /** Adopt an accepted block and its branch, in the stores and then in memory. */
    method BecomePeak(b: Block, forkPoint: Option<int>)
      returns (f: int, changes: CoinTable)
      requires Valid() && SameUnderHash(blockRecords, b) && Outcome(ViewOf(), b) == NewPeak
      requires forkPoint.Some? && Connected(blockRecords, b) && PeakBlock().Some? ==>
        IsFork(Ancestors(blockRecords, b), PeakChain(ViewOf()), forkPoint.value)
      modifies this, coinStore, blockStore
      ensures Valid()
      ensures Connected(old(blockRecords), b)
      ensures ViewOf() == After(old(ViewOf()), b, NewPeak)
      ensures IsFork(Chain(old(blockRecords), b), old(PeakChain(ViewOf())), f)
      ensures changes == ChangeSet(old(coinStore.table), coinStore.table, f)
    {
      hide ValidChain, Replay, Acceptable, ChangeSet, SummaryMap, Sound, StoresChain, Indexes, WellFormed,
        Connected, PeakOk, PathMap, Outcome, InPeakChain, Chain, LinkedAt, IsFork, SameUnderHash;
      ghost var v := ViewOf();
      NewPeakFacts(v, b);
      ghost var c, d := Chain(v.blocks, b), PeakChain(v);
      var records;
      f, records, changes := AdoptInStores(b, forkPoint, c, d);
      IndexedBelow(v, c, f);
      ForkBounds(c, d, f);
      UpdateMemory(b, records, c, f);
    }

    /** Receive a block.  Whatever the depth or direction of the reorganisation, the object ends in the
        state the view machine prescribes, and its coin table in the replay of the new peak's chain. */
    method ReceiveBlock(b: Block, forkPoint: Option<int>)
      returns (result: ReceiveResult, err: Option<Err>, forkHeight: Option<nat>, changes: CoinTable, ghost f: int)
      requires Valid() && SameUnderHash(blockRecords, b)
      requires forkPoint.Some? && Connected(blockRecords, b) && PeakBlock().Some? ==>
        IsFork(Ancestors(blockRecords, b), PeakChain(ViewOf()), forkPoint.value)
      modifies this, coinStore, blockStore
      ensures Valid()
      ensures result == Outcome(old(ViewOf()), b) && ErrorNames(old(ViewOf()), b, f, result, err)
      ensures ViewOf() == Receive(old(ViewOf()), b)
      ensures result == NewPeak ==>
        && Connected(old(blockRecords), b)
        && IsFork(Chain(old(blockRecords), b), old(PeakChain(ViewOf())), f)
        && forkHeight == Some(if f < 0 then 0 else f)
        && changes == ChangeSet(old(coinStore.table), coinStore.table, f)
      ensures result != NewPeak ==> coinStore.table == old(coinStore.table) && forkHeight.None? && changes == map[]
    {
      hide ValidChain, Replay, Acceptable, ChangeSet, SummaryMap, Sound, PeakOk;
      forkHeight, changes := None, map[];
      result, err, f := Classify(b, forkPoint);
      if result == NewPeak {
        var fork;
        fork, changes := BecomePeak(b, forkPoint);
        f := fork;
        forkHeight := Some(if fork < 0 then 0 else fork);
      } else if result == AddedAsOrphan {
        StoreOrphan(b);
      }
    }

    /** Restart in whatever state a run has left. */
    method RestartNode()
      requires Valid()
      modifies this
      ensures Valid() && ViewOf() == Restart(old(ViewOf())) && PeakChain(ViewOf()) == old(PeakChain(ViewOf()))
    {
      hide Replay, ValidChain, SummaryMap, PathMap, Sound, Chain, Indexes, IndexOk;
      RestartKeepsInv(ViewOf());
      LoadChainFromStore(PeakBlock());
    }

    /** A whole run: starting empty, the object follows the view machine event by event. */
    method HandleAll(es: seq<Event>, ghost naming: Blocks)
      requires Valid() && ViewOf() == EMPTY && Named(naming, es)
      modifies this, coinStore, blockStore
      ensures Valid() && ViewOf() == Run(naming, es)
      ensures coinStore.table == Replay(PeakChain(Run(naming, es)))
      ensures SummariesOf(summaries, PeakChain(Run(naming, es)))
    {
      hide Replay, ValidChain, Outcome, After, Restart, Sound, PeakOk, IndexOk;
      hide SummaryMap, SummariesOf;
      assert Named(naming, es[..0]);
      for i := 0 to |es|
        invariant Valid() && Named(naming, es[..i]) && ViewOf() == Run(naming, es[..i])
      {
        assert es[..i + 1][..i] == es[..i] && es[..i + 1][i] == es[i];
        if es[i].Received? {
          var _, _, _, _, _ := ReceiveBlock(es[i].block, None);
        } else {
          RestartNode();
        }
      }
      assert es[..|es|] == es;
      SummariesHeld(PeakChain(ViewOf()));
    }

    /** Records by height, through the index; none if a height is not indexed. */
    method FetchIndexed(target: nat, count: nat) returns (r: Option<seq<Block>>)
      requires IndexOk(ViewOf())
      ensures r.None? <==> count > 0 && target + count - 1 !in heightToHash
      ensures r.Some? ==> IsIndexed(ViewOf(), target, r.value) && |r.value| == count
    {
      var list := [];
      for k := 0 to count
        invariant |list| == k && IsIndexed(ViewOf(), target, list) && (k > 0 ==> target + k - 1 in heightToHash)
      {
        if target + k !in heightToHash { return None; }
        list := list + [blockRecords[heightToHash[target + k]]];
      }
      return Some(list);
    }

    /** Blocks by height: through the index when `prev` is indexed, else by walking back from it, as far
        as there are any. An index entry left above the peak sends the search to the peak's path: the
        blocks found are then ancestors of `prev` exactly up to the fork of the two. */
    method GetBlocksAtHeight(prev: Block, target: nat, count: nat) returns (r: Option<seq<Block>>)
      requires IndexesValid() && peakHeight.Some?
      requires prev.hash in blockRecords && blockRecords[prev.hash] == prev
      ensures !InPeakChain(ViewOf(), prev.hash) ==> r == Some(Stretch(Chain(blockRecords, prev), target, count))
      ensures InPeakChain(ViewOf(), prev.hash) ==>
        && (r.None? <==> count > 0 && target + count - 1 !in heightToHash)
        && (r.Some? ==> IsIndexed(ViewOf(), target, r.value) && |r.value| == count)
      ensures InPeakChain(ViewOf(), prev.hash) && target + count <= peakHeight.value + 1 ==>
        r == Some(Stretch(PeakChain(ViewOf()), target, count))
      ensures InPeakChain(ViewOf(), prev.hash) && prev.height <= peakHeight.value
              && target + count <= prev.height + 1 ==>
        r == Some(Stretch(Chain(blockRecords, prev), target, count))
      ensures InPeakChain(ViewOf(), prev.hash) && 0 < count && target + count <= prev.height + 1
              && target + count <= peakHeight.value + 1 ==>
        forall f :: IsFork(Chain(blockRecords, prev), PeakChain(ViewOf()), f) ==>
          (r == Some(Stretch(Chain(blockRecords, prev), target, count)) <==> target + count - 1 <= f)
      ensures InPeakChain(ViewOf(), prev.hash) && target + count <= prev.height + 1 ==>
        && r.Some?
        && (r == Some(Stretch(Chain(blockRecords, prev), target, count)) <==>
            forall h :: target <= h < target + count ==> NamesAncestor(ViewOf(), prev, h))
    {
      hide Replay, ValidChain, Sound, PeakOk, LinkedAt, Indexes;
      ViewIsWellFormed(ViewOf());
      if prev.height in heightToHash && heightToHash[prev.height] == prev.hash {
        r := FetchIndexed(target, count);
        if target + count <= prev.height + 1 { IndexedOwnIff(ViewOf(), prev, target, count, r.value); }
        if target + count <= peakHeight.value + 1 {
          if count > 0 { IndexedAt(ViewOf(), target + count - 1); }
          IndexedIsPath(ViewOf(), target, r.value);
          StretchAgreesIff(Chain(blockRecords, prev), PeakChain(ViewOf()), target, count);
          if prev.height <= peakHeight.value && target + count <= prev.height + 1 {
            OnPathShares(ViewOf(), prev, target, count);
          }
        }
      } else {
        ChainIsLinked(blockRecords, prev);
        var list := WalkTo(blockRecords, prev, target, count, Chain(blockRecords, prev));
        r := Some(list);
      }
    }

    /** A farmer's stake as of a block: what the peak's chain below the block's height, or all of it if
        the block lies above, leaves unspent on the puzzle hash. */
    method GetPeakFarmerStaking(ph: PuzzleHash, peak: Option<Block>) returns (stake: nat)
      requires Valid()
      ensures peak.Some? ==> stake == StakeOn(Prefix(PeakChain(ViewOf()), peak.value.height), ph)
      ensures peak.None? ==> stake == 0
    {
      hide ValidChain, Replay, SumSet;
      ghost var c := PeakChain(ViewOf());
      var height := if peak.Some? then peak.value.height else 0;
      var coins := coinStore.GetUnspentCoinsBeforeHeight(ph, height);
      PeakChainValid(ViewOf());
      StakeIsPrefixUnspent(c, ph, height);
      stake := SumRecords(coins, coinStore.table, StakedCoins(coinStore.table, ph, height));
      SumNone();
    }

    /** The stake read when a block of the given height is validated: as of the indexed block one height
        below, or of the highest indexed below that. At height 1 and 0 none is read. */
    method StakeForBlock(ph: PuzzleHash, height: nat) returns (stake: Option<nat>)
      requires Valid() && peakHeight.Some?
      ensures stake.None? <==> height <= 1
      ensures height > 1 && height - 1 in heightToHash ==>
        stake == Some(StakeOn(Prefix(PeakChain(ViewOf()), height - 1), ph))
      ensures height > 1 && height - 1 !in heightToHash ==>
        exists u: nat :: LastIndexed(ViewOf(), u) && stake == Some(StakeOn(Prefix(PeakChain(ViewOf()), u), ph))
    {
      hide Replay, ValidChain, Sound, PeakOk, SummaryMap, StakeOn;
      if height <= 1 { return None; }
      var h := height - 1;
      IndexedAt(ViewOf(), 0);
      while h !in heightToHash && h > 0
        invariant 0 <= h <= height - 1 && (h < height - 1 ==> h + 1 !in heightToHash)
        decreases h
      {
        h := h - 1;
      }
      var block := blockRecords[heightToHash[h]];
      var s := GetPeakFarmerStaking(ph, Some(block));
      assert h < height - 1 ==> LastIndexed(ViewOf(), h);
      return Some(s);
    }
  }

  ghost predicate LastIndexed(v: View, u: nat) { u in v.heightToHash && u + 1 !in v.heightToHash }

  /** The stake read for a block on `c`, from the first `u` blocks of the peak's chain, is the one its own
      ancestors leave exactly when the two gained the same for the puzzle hash since their fork. */
  lemma StakeReadIsOwn(v: View, c: seq<Block>, ph: PuzzleHash, height: nat, u: nat, f: int)
    requires ViewInv(v) && ValidChain(c) && |c| == height && height > 1
    requires IsFork(Prefix(PeakChain(v), u), c[..height - 1], f)
    ensures StakeOn(Prefix(PeakChain(v), u), ph) == SumSet(StakedCoins(Replay(c), ph, height - 1)) <==>
            GainSince(Prefix(PeakChain(v), u), ph, f) == GainSince(c[..height - 1], ph, f)
    ensures Prefix(PeakChain(v), u) == c[..height - 1] ==>
      StakeOn(Prefix(PeakChain(v), u), ph) == SumSet(StakedCoins(Replay(c), ph, height - 1))
  {
    PeakChainValid(v);
    var d := PeakChain(v);
    hide ValidChain, Replay, SumSet, StakedCoins, UnspentCoins, PeakChain, ViewInv, GainSince, IsFork;
    StakeIsPrefixUnspent(c, ph, height - 1);
    ValidPrefix(c, height - 1);
    if u <= |d| { ValidPrefix(d, u); }
    StakesAgreeIff(Prefix(d, u), c[..height - 1], ph, f);
  }

  /** The index names the ancestor of a block at a height up to its own. */
  ghost predicate NamesAncestor(v: View, prev: Block, h: int)
    requires WellFormed(v.blocks) && Connected(v.blocks, prev) && 0 <= h <= prev.height
  {
    h in v.heightToHash && v.heightToHash[h] == Chain(v.blocks, prev)[h].hash
  }

  lemma NamesAncestorIff(v: View, prev: Block, h: nat)
    requires WellFormed(v.blocks) && prev.hash in v.blocks && v.blocks[prev.hash] == prev && h <= prev.height
    requires h in v.heightToHash && v.heightToHash[h] in v.blocks
    ensures NamesAncestor(v, prev, h) <==> v.blocks[v.heightToHash[h]] == Chain(v.blocks, prev)[h]
  {
    assert Chain(v.blocks, prev)[h].hash in v.blocks;
    hide Chain;
  }

  lemma {:induction false} IndexedOwnIff(v: View, prev: Block, target: nat, count: nat, r: seq<Block>)
    requires WellFormed(v.blocks) && prev.hash in v.blocks && v.blocks[prev.hash] == prev
    requires target + count <= prev.height + 1 && |r| == count && IsIndexed(v, target, r)
    ensures r == Stretch(Chain(v.blocks, prev), target, count) <==>
            forall h :: target <= h < target + count ==> NamesAncestor(v, prev, h)
  {
    var own := Stretch(Chain(v.blocks, prev), target, count);
    hide Chain, NamesAncestor, WellFormed;
    forall i | 0 <= i < count ensures NamesAncestor(v, prev, target + i) <==> r[i] == own[i] {
      var b := r[i];
      NamesAncestorIff(v, prev, target + i);
    }
    hide Stretch, IsIndexed;
    if r == own {
      forall h | target <= h < target + count ensures NamesAncestor(v, prev, h) {
        assert r[h - target] == own[h - target];
      }
    }
    if forall h :: target <= h < target + count ==> NamesAncestor(v, prev, h) {
      forall i | 0 <= i < count ensures r[i] == own[i] { assert NamesAncestor(v, prev, target + i); }
    }
  }

  /** The blocks of `c` from height `target`, at most `count`, as far as there are any. */
  function Stretch(c: seq<Block>, target: nat, count: nat): seq<Block>
  {
    var hi := if target + count <= |c| then target + count else |c|;
    c[(if target <= hi then target else hi)..hi]
  }

  /** `list` holds the blocks the index names from height `target` on. */
  ghost predicate IsIndexed(v: View, target: nat, list: seq<Block>)
  {
    forall k :: 0 <= k < |list| ==>
      && target + k in v.heightToHash && v.heightToHash[target + k] in v.blocks
      && list[k] == v.blocks[v.heightToHash[target + k]]
  }

  /** Up to the peak, what the index names is the peak's path. */
  lemma IndexedIsPath(v: View, target: nat, list: seq<Block>)
    requires ViewInv(v) && IsIndexed(v, target, list) && target + |list| <= |PeakChain(v)|
    ensures list == Stretch(PeakChain(v), target, |list|)
  {
    hide ValidChain, LinkedAt, Chain, Indexes, IndexOk, IsChain, Connected;
    var d := PeakChain(v);
    forall k | 0 <= k < |list| ensures list[k] == d[target + k] {
      IndexedAt(v, target + k);
      PathKnown(v, target + k);
    }
  }

  lemma IndexedMeansOnPath(v: View, prev: Block)
    requires ViewInv(v) && v.peak.Some? && prev.hash in v.blocks && v.blocks[prev.hash] == prev
    requires InPeakChain(v, prev.hash) && prev.height <= v.peak.value.height
    ensures PeakChain(v)[prev.height] == prev
  {
    hide ValidChain, LinkedAt, Indexes, IndexOk;
    IndexedAt(v, prev.height);
    PathKnown(v, prev.height);
  }

  /** An indexed block up to the peak's height is on the peak's path, with all its ancestors. */
  lemma OnPathShares(v: View, prev: Block, target: nat, count: nat)
    requires ViewInv(v) && v.peak.Some? && prev.hash in v.blocks && v.blocks[prev.hash] == prev
    requires InPeakChain(v, prev.hash) && prev.height <= v.peak.value.height && target + count <= prev.height + 1
    ensures WellFormed(v.blocks)
    ensures Stretch(Chain(v.blocks, prev), target, count) == Stretch(PeakChain(v), target, count)
  {
    hide ValidChain, LinkedAt, Indexes, IndexOk, IsChain, LastTx, Connected, Chain, Stretch;
    IndexedMeansOnPath(v, prev);
    ViewIsWellFormed(v);
    CommonBelow(v.blocks, prev, v.peak.value, prev.height);
    StretchBelow(Chain(v.blocks, prev), PeakChain(v), target, count, prev.height + 1);
  }

  lemma StretchBelow(c: seq<Block>, d: seq<Block>, target: nat, count: nat, n: nat)
    requires target + count <= n <= |c| && n <= |d| && c[..n] == d[..n]
    ensures Stretch(c, target, count) == Stretch(d, target, count)
  {
    assert forall i :: 0 <= i < n ==> c[i] == c[..n][i] == d[..n][i] == d[i];
  }

  /** A stretch of two chains is the same exactly when it ends at or below their fork. */
  lemma StretchAgreesIff(c: seq<Block>, d: seq<Block>, target: nat, count: nat)
    ensures forall f :: IsFork(c, d, f) && count > 0 && target + count <= |c| && target + count <= |d| ==>
      (Stretch(d, target, count) == Stretch(c, target, count) <==> target + count - 1 <= f)
  {
    forall f | IsFork(c, d, f) && count > 0 && target + count <= |c| && target + count <= |d|
      ensures Stretch(d, target, count) == Stretch(c, target, count) <==> target + count - 1 <= f
    {
      assert Stretch(c, target, count)[count - 1] == c[target + count - 1];
      assert Stretch(d, target, count)[count - 1] == d[target + count - 1];
    }
  }

  /** After the four blocks that leave a stale entry, fetching height 1 for the refused block gives its
      parent's rival. */
  lemma StaleFetch()
    ensures Named(NAMING, STALE_RUN)
    ensures var v := Run(NAMING, STALE_RUN);
      && InPeakChain(v, A2.hash) && IsIndexed(v, 1, [B1])
      && WellFormed(v.blocks) && Connected(v.blocks, A2) && Chain(v.blocks, A2)[1] == A1 != B1
  {
    hide ValidChain, LinkedAt, InPeakChain, Indexes, IndexOk, Sound, PeakOk, Run, Outcome;
    StaleEntryRun();
    var v := Run(NAMING, STALE_RUN);
    ViewIsWellFormed(v);
    ParentInChain(v.blocks, A2);
    IndexedAt(v, 1);
    assert v.blocks[4] == B1;
  }

  lemma ParentInChain(blocks: Blocks, b: Block)
    requires WellFormed(blocks) && Connected(blocks, b) && b.height > 0
    ensures Chain(blocks, b)[b.height - 1] == blocks[b.prevHash]
  {
  }

  /** The view a restart comes up with: the same path, and an index of nothing else. */
  lemma LoadedView(blocks: Blocks, peak: Option<Block>)
    requires Sound(blocks) && PeakKnown(blocks, peak) && (peak.None? ==> blocks == map[])
    ensures WellFormed(blocks)
    ensures ViewInv(View(blocks, peak, PathMap(ChainTo(blocks, peak))))
    ensures peak.None? ==> PathMap(ChainTo(blocks, peak)) == map[]
    ensures peak.Some? ==>
      (peak.value.height in PathMap(ChainTo(blocks, peak)) &&
       PathMap(ChainTo(blocks, peak))[peak.value.height] == peak.value.hash)
  {
    hide ValidChain;
    if peak.Some? {
      var c := Chain(blocks, peak.value);
      PathEnds(c, peak.value);
      PathIndexed(c);
      hide PathMap, Indexes;
    }
  }

  lemma PathIndexed(c: seq<Block>)
    ensures Indexes(PathMap(c), c)
  {
  }

  /** The whole chain `c` is stored under its hashes. */
  ghost predicate StoresChain(blocks: Blocks, c: seq<Block>)
  {
    Linked(blocks, c) && forall i :: 0 <= i < |c| ==> c[i].hash in blocks && blocks[c[i].hash] == c[i]
  }

  lemma GenesisIsTx(b: Block)
    requires ValidChain([b])
    ensures b.IsTx() && b.height == 0
  {
    assert [b][0] == b;
  }

  lemma NotThePeak(v: View, b: Block)
    requires ViewInv(v) && v.peak.Some? && !InPeakChain(v, b.hash)
    ensures b.hash != v.peak.value.hash
  {
    var p := v.peak.value;
    assert v.heightToHash[p.height] == Chain(v.blocks, p)[p.height].hash;
  }

  /** What an accepted block brings: a valid chain that can be stored and indexed as the new path. */
  lemma NewPeakFacts(v: View, b: Block)
    requires ViewInv(v) && SameUnderHash(v.blocks, b)
    requires WellFormed(v.blocks) ==> Outcome(v, b) == NewPeak
    ensures WellFormed(v.blocks) && Connected(v.blocks, b) && !InPeakChain(v, b.hash)
    ensures v.peak.Some? ==> b.height > 0
    ensures ValidChain(Chain(v.blocks, b)) && ValidChain(PeakChain(v))
    ensures StoresChain(v.blocks[b.hash := b], Chain(v.blocks, b))
    ensures ViewInv(After(v, b, NewPeak)) && PeakChain(After(v, b, NewPeak)) == Chain(v.blocks, b)
  {
    ViewIsWellFormed(v);
    OutcomeMeans(v, b);
    hide Acceptable, ValidChain;
    AcceptedGrows(v, b);
    AfterKeepsInv(v, b, NewPeak);
    PeakChainValid(v);
    BranchStored(v.blocks, b);
  }

  lemma ViewIsWellFormed(v: View)
    requires ViewInv(v)
    ensures WellFormed(v.blocks)
  {
  }

  lemma ForkBounds(c: seq<Block>, d: seq<Block>, f: int)
    requires IsFork(c, d, f)
    ensures -1 <= f < |c| && f < |d|
  {
  }

  lemma ReplayNothing()
    ensures Replay([]) == map[] && SummaryMap([]) == map[]
  {
  }

  lemma NewlyStored(blocks: Blocks, b: Block)
    ensures b.hash in blocks[b.hash := b] && blocks[b.hash := b][b.hash] == b
  {
  }

  /** Up to the fork the index already points at the new branch. */
  lemma IndexedBelow(v: View, c: seq<Block>, f: int)
    requires ViewInv(v) && IsFork(c, PeakChain(v), f)
    ensures Indexes(v.heightToHash, c[..f + 1])
  {
    var d := PeakChain(v);
    forall i: nat | i < f + 1 ensures i in v.heightToHash && v.heightToHash[i] == c[..f + 1][i].hash {
      IndexedAt(v, i);
      assert c[i] == d[i];
    }
  }

  lemma PathEnds(c: seq<Block>, b: Block)
    requires c != [] && c[|c| - 1] == b && b.height == |c| - 1
    ensures b.height in PathMap(c) && PathMap(c)[b.height] == b.hash
  {
  }

  method WalkTo(blocks: Blocks, prev: Block, target: nat, count: nat, ghost c: seq<Block>) returns (list: seq<Block>)
    requires Linked(blocks, c) && |c| == prev.height + 1 && c[prev.height] == prev
    ensures list == Stretch(c, target, count)
  {
    ghost var hi := if target + count <= |c| then target + count else |c|;
    list := [];
    var curr := prev;
    while curr.height >= target
      invariant curr.height < |c| && curr == c[curr.height] && (curr.height + 1 >= target || curr == prev)
      invariant list == c[(if curr.height + 1 <= hi then curr.height + 1 else hi)..hi]
      decreases curr.height
    {
      if curr.height < target + count {
        list := [curr] + list;
      }
      if curr.height == 0 { break; }
      assert ParentAt(blocks, c, curr.height);
      curr := blocks[curr.prevHash];
    }
  }

  method SumRecords(records: set<CoinRecord>, ghost t: CoinTable, ghost s: set<Coin>) returns (sum: nat)
    requires s <= t.Keys && records == set x | x in s :: t[x]
    requires forall x :: x in t ==> t[x].coin == x
    ensures sum == SumSet(s)
  {
    hide SumSet;
    sum := 0;
    var rest := records;
    ghost var done: set<Coin> := {};
    SumNone();
    while rest != {}
      invariant done <= s
      invariant forall x :: x in s && x !in done ==> t[x] in rest
      invariant forall r :: r in rest ==> r.coin in s && r.coin !in done && r == t[r.coin]
      invariant sum == SumSet(done)
      decreases |rest|
    {
      var r :| r in rest;
      SumSetRemove(done + {r.coin}, r.coin);
      assert done + {r.coin} - {r.coin} == done;
      sum := sum + r.coin.amount;
      rest := rest - {r};
      done := done + {r.coin};
    }
    assert done == s;
  }

  lemma PeakChainValid(v: View)
    requires ViewInv(v)
    ensures ValidChain(PeakChain(v))
  {
  }

  lemma NothingToRollBack(d: seq<Block>, before: CoinTable, f: int)
    requires ValidChain(d) && before == Replay(d) && f == |d| - 1
    ensures DeletedRows(before, f) == map[] && Rollback(before, f) == before
  {
    ReplayInv(d);
    RollbackNothing(before, f);
  }

  /** Once `b` is stored, its whole chain is. */
  lemma BranchStored(blocks: Blocks, b: Block)
    requires WellFormed(blocks) && Connected(blocks, b) && SameUnderHash(blocks, b)
    ensures StoresChain(blocks[b.hash := b], Chain(blocks, b))
  {
    var c := Chain(blocks, b);
    ChainStable(blocks, b, b);
    ChainIsLinked(blocks[b.hash := b], b);
    forall i | 0 <= i < |c| ensures c[i].hash in blocks[b.hash := b] && blocks[b.hash := b][c[i].hash] == c[i] {
      if i < |c| - 1 { assert c[i].hash in blocks && blocks[c[i].hash] == c[i]; }
    }
  }

  lemma SummaryNext(c: seq<Block>, i: nat)
    requires i < |c|
    ensures SummaryMap(c[..i + 1]) ==
            if c[i].summary.Some? then SummaryMap(c[..i])[i := c[i].summary.value] else SummaryMap(c[..i])
  {
    forall k: nat ensures k in SummaryMap(c[..i + 1]) <==> k in SummaryMap(c[..i]) || (k == i && c[i].summary.Some?) {
      if k < i { assert c[..i + 1][k] == c[..i][k]; }
    }
  }
}
