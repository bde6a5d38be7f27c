/** On every chain a spendable coin can be spent by one next block and left alone by its rival: what the
    coin report of a reorganisation and the stake read for a branch then make of it. */
module SpendingChains {
  import opened Coins
  import opened Ledger
  import opened BlockTree
  import opened ChainState
  import opened Conservation
  import opened Blockchains

  /** The coins of a set in some order. */
  ghost function Listed(s: set<Coin>): (r: seq<Coin>)
    ensures Elements(r) == s && |r| == |s|
  {
    if s == {} then [] else
      var x :| x in s;
      var rest := Listed(s - {x});
      assert s == {x} + Elements(rest);
      [x] + rest
  }

  /** The transaction block that follows `c`, claims what is due and makes the given spends free of fees;
      its timestamp is one above that of the last transaction block, which it names. */
  ghost function ClaimingBlock(c: seq<Block>, hash: Hash, spends: seq<Spend>): Block
    requires c != [] && LastTx(c) >= 0
  {
    var last := c[LastTx(c)];
    var body := TxBody(last.Timestamp() + 1, last.hash, Listed(ExpectedRewards(c)), 0, spends);
    Block(hash, c[|c| - 1].hash, |c|, 0, 0, None, Some(body))
  }

  /** Moves a coin as a whole to another puzzle hash. */
  function Move(x: Coin, to: PuzzleHash): Spend
  {
    Spend(x, x.puzzleHash, [Output(to, x.amount)], [])
  }

  ghost function Idle(c: seq<Block>, hash: Hash): seq<Block>
    requires c != [] && LastTx(c) >= 0
  {
    c + [ClaimingBlock(c, hash, [])]
  }

  ghost function Moved(c: seq<Block>, hash: Hash, x: Coin, to: PuzzleHash): seq<Block>
    requires c != [] && LastTx(c) >= 0
  {
    c + [ClaimingBlock(c, hash, [Move(x, to)])]
  }

  // ---- Both are valid ----------------------------------------------------------------------------------

  lemma {:induction false} AmountsFit(c: seq<Block>, x: Coin)
    requires ValidChain(c) && x in Replay(c)
    ensures x.amount <= MAX_COIN_AMOUNT
  {
    var front, b := c[..|c| - 1], c[|c| - 1];
    if x in Replay(front) {
      AmountsFit(front, x);
    } else {
      hide ValidChain;
      TipApplies(c) by { assert ValidChain(c); }
      assert x in b.Created();
      FitsBlock(c);
    }
  }

  lemma {:induction false} FitsBlock(c: seq<Block>)
    requires ValidChain(c) && c != [] && c[|c| - 1].IsTx()
    ensures AmountsValid(c[|c| - 1])
  {
    hide RewardsValid, DistinctOutputs, SpendsValid, FeesValid, PuzzlesValid, AmountsValid, IsChain, Replay;
  }

  lemma {:induction false} NextLinks(c: seq<Block>, hash: Hash, spends: seq<Spend>)
    requires c != [] && IsChain(c)
    ensures IsChain(c + [ClaimingBlock(c, hash, spends)]) && HeaderValid(c, ClaimingBlock(c, hash, spends))
  {
    hide ExpectedRewards, LastTx;
    var d := c + [ClaimingBlock(c, hash, spends)];
    forall i | 0 < i < |d| ensures LinkedAt(d, i) {
      if i < |c| { assert LinkedAt(c, i); }
    }
  }

  lemma {:induction false} DueAreRewards(c: seq<Block>, x: Coin)
    requires IsChain(c) && x in ExpectedRewards(c)
    ensures !x.parent.SpentCoin?
  {
    ExpectedWithin(c);
    hide ExpectedRewards;
  }

  /** The block is valid whenever its spends are. */
  lemma {:induction false} NextIsValid(c: seq<Block>, hash: Hash, spends: seq<Spend>)
    requires ValidChain(c) && c != [] && LastTx(c) >= 0
    requires var b := ClaimingBlock(c, hash, spends);
      && (forall x :: x in b.Additions() ==> x.amount <= MAX_COIN_AMOUNT)
      && NoDuplicates(b.Additions())
      && SpendsValid(Replay(c), b) && FeesValid(b) && PuzzlesValid(b)
    ensures ValidChain(c + [ClaimingBlock(c, hash, spends)]) && HeaderValid(c, ClaimingBlock(c, hash, spends))
  {
    hide ValidChain, Replay, SpendsValid, FeesValid, PuzzlesValid, NoDuplicates, ExpectedRewards, AdditionsOf,
      RemovalsOf;
    var b := ClaimingBlock(c, hash, spends);
    ValidIsChain(c);
    NextLinks(c, hash, spends);
    hide IsChain, LastTx, HeaderValid;
    RewardCoinsFit(c);
    assert b.Claims() == Listed(ExpectedRewards(c));
    assert AmountsValid(b);
    assert Elements(b.Additions()) !! Elements(b.Claims()) by {
      forall x | x in b.Claims() ensures x !in b.Additions() {
        assert x in Elements(b.Claims());
        DueAreRewards(c, x);
      }
    }
    assert BodyValid(c, b);
    hide BodyValid;
    ValidSnoc(c, b);
  }

  lemma FarmerBaseFits(h: nat)
    ensures FarmerBase(h) <= MAX_COIN_AMOUNT
  {
  }

  lemma {:induction false} IdleIsValid(c: seq<Block>, hash: Hash)
    requires ValidChain(c) && c != []
    ensures ValidChain(Idle(c, hash)) && HeaderValid(c, ClaimingBlock(c, hash, []))
  {
    ValidIsChain(c);
    hide ValidChain, Replay, ExpectedRewards, FarmerBase;
    var b := ClaimingBlock(c, hash, []);
    assert b.Removals() == [] && b.Additions() == [] && SumSeq([]) == 0 && ReservedSum([]) == 0;
    FarmerBaseFits(b.height);
    NextIsValid(c, hash, []);
  }

  lemma {:induction false} MoveEffect(c: seq<Block>, hash: Hash, x: Coin, to: PuzzleHash)
    requires c != [] && LastTx(c) >= 0
    ensures var b := ClaimingBlock(c, hash, [Move(x, to)]);
      b.Removals() == [x] && b.Additions() == [Coin(SpentCoin(x), to, x.amount)]
  {
    hide ExpectedRewards;
    var spends := [Move(x, to)];
    assert spends[..0] == [] && AdditionsOf(spends) == AdditionsOf(spends[..0]) + OutputsOf(spends[0]);
    assert OutputsOf(spends[0]) == [Coin(SpentCoin(x), to, x.amount)];
  }

  lemma SumOne(x: Coin)
    ensures SumSeq([x]) == x.amount
  {
    assert [x][..0] == [] && SumSeq([]) == 0;
  }

  lemma {:induction false} MovePays(c: seq<Block>, hash: Hash, x: Coin, to: PuzzleHash)
    requires c != [] && LastTx(c) >= 0
    ensures FeesValid(ClaimingBlock(c, hash, [Move(x, to)]))
  {
    hide ExpectedRewards, FarmerBase, AdditionsOf;
    var b := ClaimingBlock(c, hash, [Move(x, to)]);
    var y := Coin(SpentCoin(x), to, x.amount);
    MoveEffect(c, hash, x, to);
    SumOne(x);
    SumOne(y);
    assert [Move(x, to)][..0] == [] && ReservedSum([Move(x, to)]) == 0;
    FarmerBaseFits(b.height);
  }

  lemma {:induction false} MovedIsValid(c: seq<Block>, hash: Hash, x: Coin, to: PuzzleHash)
    requires ValidChain(c) && c != [] && Spendable(Replay(c), x)
    ensures ValidChain(Moved(c, hash, x, to)) && HeaderValid(c, ClaimingBlock(c, hash, [Move(x, to)]))
  {
    AmountsFit(c, x);
    ValidIsChain(c);
    hide ValidChain, Replay, ExpectedRewards, FeesValid, AdditionsOf, RemovalsOf;
    MoveEffect(c, hash, x, to);
    MovePays(c, hash, x, to);
    NextIsValid(c, hash, [Move(x, to)]);
  }

  lemma ClaimedIsSpendable(t: CoinTable, b: Block, claims: set<Coin>)
    requires b.Removals() == [] && Elements(b.Claims()) == claims && b.Created() !! t.Keys
    ensures forall x :: x in claims ==> Spendable(ApplyBlock(t, b), x)
  {
  }

  /** Every valid chain can be extended so as to hold a spendable coin: the rewards due are never none, and
      once claimed they can be spent. */
  lemma {:induction false} SomethingIsSpendable(c: seq<Block>, hash: Hash)
    requires ValidChain(c) && c != []
    ensures ValidChain(Idle(c, hash)) && ExpectedRewards(c) != {}
    ensures forall x :: x in ExpectedRewards(c) ==> Spendable(Replay(Idle(c, hash)), x)
  {
    hide ValidChain, Replay, ExpectedRewards, LastTx, ClaimedBelow, IssuedBelow, SumSet, AdditionsOf;
    ValidIsChain(c);
    hide IsChain;
    assert ExpectedRewards(c) != {} by { ExpectedRewardsSum(c); }
    var d, b := Idle(c, hash), ClaimingBlock(c, hash, []);
    IdleIsValid(c, hash);
    TipApplies(d);
    assert d[..|d| - 1] == c;
    NoSpends(b);
    ClaimedIsSpendable(Replay(c), b, ExpectedRewards(c));
  }

  // ---- What becomes of the coin ------------------------------------------------------------------------

  lemma {:induction false} IdleRow(c: seq<Block>, hash: Hash, x: Coin)
    requires ValidChain(c) && c != [] && Spendable(Replay(c), x)
    ensures var t := Replay(Idle(c, hash));
      x in t && t[x] == Replay(c)[x] && !t[x].spent && t[x].spentIndex == 0 && t[x].confirmedIndex < |c|
  {
    var d := Idle(c, hash);
    ReplayInv(c);
    IdleIsValid(c, hash);
    TipApplies(d);
    assert d[..|d| - 1] == c;
    hide Replay, ValidChain, ExpectedRewards;
  }

  lemma {:induction false} MovedRow(c: seq<Block>, hash: Hash, x: Coin, to: PuzzleHash)
    requires ValidChain(c) && c != [] && Spendable(Replay(c), x)
    ensures var t := Replay(Moved(c, hash, x, to));
      x in t && t[x] == MarkSpent(Replay(c)[x], |c|)
  {
    var d := Moved(c, hash, x, to);
    MovedIsValid(c, hash, x, to);
    MoveEffect(c, hash, x, to);
    TipApplies(d);
    assert d[..|d| - 1] == c;
    hide Replay, ValidChain, ExpectedRewards, AdditionsOf;
  }

  /** The coin report of a reorganisation from chain `d` to chain `c` leaves out a coin whose row changed. */
  ghost predicate ReportMisses(c: seq<Block>, d: seq<Block>, f: int, x: Coin)
  {
    && ValidChain(c) && ValidChain(d) && IsFork(c, d, f)
    && !SameRow(Replay(d), Replay(c), x) && x !in ChangeSet(Replay(d), Replay(c), f)
  }

  lemma SpendGoesUnreported(t: CoinTable, u: CoinTable, f: nat, x: Coin)
    requires x in u && !u[x].spent && u[x].spentIndex == 0 && u[x].confirmedIndex <= f
    requires x in t && t[x] == MarkSpent(u[x], f + 1)
    ensures !SameRow(t, u, x) && x !in ChangeSet(t, u, f)
  {
  }

  lemma {:induction false} ForkAtTip(c: seq<Block>, a: Block, b: Block)
    requires a != b
    ensures IsFork(c + [a], c + [b], |c| - 1)
  {
  }

  /** Every spendable coin can be missed: the abandoned branch spends it and the new one does not. */
  lemma {:induction false} SpendableCanBeMissed(c: seq<Block>, hash: Hash, other: Hash, x: Coin, to: PuzzleHash)
    requires ValidChain(c) && c != [] && Spendable(Replay(c), x)
    ensures ReportMisses(Idle(c, hash), Moved(c, other, x, to), |c| - 1, x)
  {
    ValidIsChain(c);
    hide Replay, ValidChain, ExpectedRewards, IsFork, SameRow, ChangeSet, IsChain, HeaderValid, LastTx;
    IdleIsValid(c, hash);
    MovedIsValid(c, other, x, to);
    IdleRow(c, hash, x);
    MovedRow(c, other, x, to);
    SpendGoesUnreported(Replay(Moved(c, other, x, to)), Replay(Idle(c, hash)), |c| - 1, x);
    ForkAtTip(c, ClaimingBlock(c, hash, []), ClaimingBlock(c, other, [Move(x, to)]));
  }

  lemma StakeAfter(t: CoinTable, a: Block, b: Block, x: Coin, y: Coin)
    requires Spendable(t, x) && t[x].confirmedIndex <= a.height == b.height && y.puzzleHash != x.puzzleHash
    requires a.Claims() == b.Claims() && a.Additions() == [] && a.Removals() == []
    requires b.Additions() == [y] && b.Removals() == [x]
    ensures x in StakedCoins(ApplyBlock(t, a), x.puzzleHash, a.height + 1)
    ensures StakedCoins(ApplyBlock(t, b), x.puzzleHash, b.height + 1) ==
            StakedCoins(ApplyBlock(t, a), x.puzzleHash, a.height + 1) - {x}
  {
    var after, moved := ApplyBlock(t, a), ApplyBlock(t, b);
    forall z: Coin | z.puzzleHash == x.puzzleHash && z != x
      ensures z in moved <==> z in after
      ensures z in after ==> SameStake(moved[z], after[z])
    {
    }
  }

  predicate SameStake(r: CoinRecord, s: CoinRecord)
  {
    r.confirmedIndex == s.confirmedIndex && r.spent == s.spent && r.spentIndex == s.spentIndex
  }

  lemma {:induction false} MoveStakes(c: seq<Block>, hash: Hash, other: Hash, x: Coin, to: PuzzleHash)
    requires c != [] && LastTx(c) >= 0 && ValidChain(c) && Spendable(Replay(c), x) && to != x.puzzleHash
    requires ValidChain(Idle(c, hash)) && ValidChain(Moved(c, other, x, to))
    ensures x in StakedCoins(Replay(Idle(c, hash)), x.puzzleHash, |c| + 1)
    ensures StakedCoins(Replay(Moved(c, other, x, to)), x.puzzleHash, |c| + 1) ==
            StakedCoins(Replay(Idle(c, hash)), x.puzzleHash, |c| + 1) - {x}
  {
    hide Replay, ValidChain, ExpectedRewards, AdditionsOf, RemovalsOf, StakedCoins, ApplyBlock, LastTx, Listed;
    var a, b := ClaimingBlock(c, hash, []), ClaimingBlock(c, other, [Move(x, to)]);
    IdleRow(c, hash, x);
    MoveEffect(c, other, x, to);
    TipTable(c, a);
    TipTable(c, b);
    NoSpends(a);
    StakeAfter(Replay(c), a, b, x, Coin(SpentCoin(x), to, x.amount));
  }

  /** Two branches that share all but their last block disagree on the stake by exactly the moved coin. */
  lemma {:induction false} StakeCanDiffer(c: seq<Block>, hash: Hash, other: Hash, x: Coin, to: PuzzleHash)
    requires ValidChain(c) && c != [] && Spendable(Replay(c), x) && to != x.puzzleHash
    ensures ValidChain(Idle(c, hash)) && ValidChain(Moved(c, other, x, to))
    ensures x in StakedCoins(Replay(Idle(c, hash)), x.puzzleHash, |c| + 1)
    ensures StakedCoins(Replay(Moved(c, other, x, to)), x.puzzleHash, |c| + 1) ==
            StakedCoins(Replay(Idle(c, hash)), x.puzzleHash, |c| + 1) - {x}
  {
    hide Replay, StakedCoins, HeaderValid, ClaimingBlock, Move;
    IdleIsValid(c, hash);
    MovedIsValid(c, other, x, to);
    MoveStakes(c, hash, other, x, to);
  }

  lemma {:induction false} TipTable(c: seq<Block>, b: Block)
    requires ValidChain(c + [b]) && b.IsTx()
    ensures Replay(c + [b]) == ApplyBlock(Replay(c), b)
  {
    assert (c + [b])[..|c|] == c;
    hide ApplyBlock;
  }

  lemma NoSpends(b: Block)
    requires b.Spends() == []
    ensures b.Additions() == [] && b.Removals() == []
  {
  }

  lemma FirstIsValid(g: Block)
    requires BodyValid([], g) && g.height == 0 && g.IsTx()
    ensures ValidChain([g])
  {
    hide BodyValid, ValidChain;
    assert [] + [g] == [g];
    ValidSnoc([], g);
    assert ValidChain([]) by { EmptyIsValid(); }
  }

  lemma EmptyIsValid()
    ensures ValidChain([])
  {
  }

  // ---- Over runs ---------------------------------------------------------------------------------------------

  /** A new block, not the first, that follows a known chain and meets the rules. */
  ghost predicate IsNextOn(v: View, c: seq<Block>, b: Block)
    requires WellFormed(v.blocks)
  {
    && b.hash !in v.blocks && b.height == |c| > 0 && ValidChain(c + [b]) && HeaderValid(c, b)
    && c[|c| - 1].hash == b.prevHash && b.prevHash in v.blocks && v.blocks[b.prevHash] == c[|c| - 1]
    && Chain(v.blocks, c[|c| - 1]) == c
  }

  lemma {:induction false} MeetsRules(v: View, c: seq<Block>, b: Block)
    requires WellFormed(v.blocks) && v.peak.Some? && IsNextOn(v, c, b)
    ensures Connected(v.blocks, b) && Acceptable(v.blocks, b) && Outcome(v, b) == NewPeak
    ensures Chain(v.blocks, b) == c + [b]
  {
    hide ValidChain, BodyValid, HeaderValid, Chain;
    ValidSnoc(c, b);
    assert Ancestors(v.blocks, b) == c;
  }

  /** Such a block becomes the peak. */
  lemma {:induction false} BecomesPeak(v: View, c: seq<Block>, b: Block)
    requires ViewInv(v) && WellFormed(v.blocks) && v.peak.Some? && IsNextOn(v, c, b)
    ensures Outcome(v, b) == NewPeak && ViewInv(Receive(v, b)) && PeakChain(Receive(v, b)) == c + [b]
    ensures Receive(v, b).blocks == v.blocks[b.hash := b] && Receive(v, b).peak == Some(b)
  {
    MeetsRules(v, c, b);
    hide IsNextOn, Outcome, Acceptable, Chain, Sound, PeakOk, IndexOk, PathMap;
    AcceptedGrows(v, b);
    ReceiveKeepsInv(v, b);
  }

  lemma PeakIsChain(v: View)
    requires ViewInv(v) && v.peak.Some?
    ensures PeakChain(v) != [] && ValidChain(PeakChain(v)) && LastTx(PeakChain(v)) >= 0
  {
    PeakChainValid(v);
    hide ValidChain;
    ValidIsChain(PeakChain(v));
  }

  /** The block on the peak that moves a coin, and its rival that leaves it alone. */
  ghost function SpendingBlock(v: View, hash: Hash, x: Coin, to: PuzzleHash): (b: Block)
    requires ViewInv(v) && v.peak.Some?
    ensures b.hash == hash
  {
    PeakIsChain(v);
    ClaimingBlock(PeakChain(v), hash, [Move(x, to)])
  }

  ghost function RivalBlock(v: View, hash: Hash): (b: Block)
    requires ViewInv(v) && v.peak.Some?
    ensures b.hash == hash
  {
    PeakIsChain(v);
    ClaimingBlock(PeakChain(v), hash, [])
  }

  /** Receiving the spending block and then its rival: both become the peak, and the second report misses
      the coin. */
  lemma {:induction false} ReorganisationMisses(v: View, hash: Hash, other: Hash, x: Coin, to: PuzzleHash)
    requires ViewInv(v) && v.peak.Some? && hash != other && hash !in v.blocks && other !in v.blocks
    requires Spendable(Replay(PeakChain(v)), x)
    ensures var spending, rival := SpendingBlock(v, other, x, to), RivalBlock(v, hash);
      && Outcome(v, spending) == NewPeak && ViewInv(Receive(v, spending)) && Receive(v, spending).peak == Some(spending)
      && Outcome(Receive(v, spending), rival) == NewPeak && ViewInv(Receive(Receive(v, spending), rival))
      && ReportMisses(PeakChain(Receive(Receive(v, spending), rival)), PeakChain(Receive(v, spending)),
                      |PeakChain(v)| - 1, x)
  {
    var c := PeakChain(v);
    ViewIsWellFormed(v);
    PeakIsChain(v);
    PathKnown(v, |c| - 1);
    assert Chain(v.blocks, c[|c| - 1]) == c;
    hide ValidChain, Replay, ExpectedRewards, ReportMisses, HeaderValid, LastTx, Outcome, After, Chain, ViewInv, Listed,
      WellFormed;
    var spending, rival := ClaimingBlock(c, other, [Move(x, to)]), ClaimingBlock(c, hash, []);
    MovedIsValid(c, other, x, to);
    IdleIsValid(c, hash);
    assert IsNextOn(v, c, spending);
    BecomesPeak(v, c, spending);
    ChainStable(v.blocks, spending, c[|c| - 1]);
    assert IsNextOn(Receive(v, spending), c, rival);
    hide IsNextOn, ClaimingBlock;
    BecomesPeak(Receive(v, spending), c, rival);
    SpendableCanBeMissed(c, hash, other, x, to);
  }

  /** The next block `b` of a run reorganises, and the report misses the change of a coin. */
  ghost predicate RunMisses(naming: Blocks, es: seq<Event>, b: Block, f: int, x: Coin)
  {
    && Named(naming, es) && Named(naming, es + [Received(b)])
    && Run(naming, es).peak.Some? && Outcome(Run(naming, es), b) == NewPeak
    && ReportMisses(PeakChain(Run(naming, es + [Received(b)])), PeakChain(Run(naming, es)), f, x)
  }

  /** Any run that leaves a spendable coin can go on so. */
  lemma {:induction false} EveryRunCanMiss(naming: Blocks, es: seq<Event>, hash: Hash, other: Hash, x: Coin,
                                           to: PuzzleHash)
    requires Named(naming, es) && Run(naming, es).peak.Some? && Spendable(Replay(PeakChain(Run(naming, es))), x)
    requires hash != other && hash !in Run(naming, es).blocks && other !in Run(naming, es).blocks
    requires other in naming && naming[other] == SpendingBlock(Run(naming, es), other, x, to)
    requires hash in naming && naming[hash] == RivalBlock(Run(naming, es), hash)
    ensures RunMisses(naming, es + [Received(naming[other])], naming[hash], |PeakChain(Run(naming, es))| - 1, x)
  {
    hide Run, ViewInv, Outcome, After, Replay, ReportMisses, SpendingBlock, RivalBlock;
    ReorganisationMisses(Run(naming, es), hash, other, x, to);
    RunNext(naming, es, naming[other]);
    RunNext(naming, es + [Received(naming[other])], naming[hash]);
  }

  /** A genesis block and one that claims its rewards. */
  lemma ClaimedRun(naming: Blocks, g: Block, b: Block)
    requires Named(naming, [Received(g)]) && Run(naming, [Received(g)]).peak == Some(g) && ValidChain([g])
    requires Run(naming, [Received(g)]).blocks == map[g.hash := g] && g.height == 0 && LastTx([g]) == 0
    requires b == ClaimingBlock([g], b.hash, []) && b.hash != g.hash && b.hash in naming && naming[b.hash] == b
    ensures var es := [Received(g)] + [Received(b)];
      && Named(naming, es) && Run(naming, es).peak == Some(b)
      && Run(naming, es).blocks == map[g.hash := g, b.hash := b] && PeakChain(Run(naming, es)) == [g] + [b]
  {
    var v := Run(naming, [Received(g)]);
    hide Run, ValidChain, Replay, ExpectedRewards, Outcome, After, HeaderValid, LastTx, ViewInv;
    IdleIsValid([g], b.hash);
    ViewIsWellFormed(v);
    assert Chain(v.blocks, g) == [g];
    hide Chain;
    BecomesPeak(v, [g], b);
    RunNext(naming, [Received(g)], b);
  }

  /** Such runs exist. */
  lemma ReportCanMiss()
    ensures exists naming, es, b, f, x :: RunMisses(naming, es, b, f, x)
  {
    hide ValidChain, Replay, ExpectedRewards, BodyValid, RunMisses, Run, ViewInv, HeaderValid;
    var g := EmptyGenesis();
    EmptyGenesisValid();
    FirstIsValid(g);
    assert LastTx([g]) == 0;
    forall naming: Blocks | 1 in naming && naming[1] == g ensures StartsWith(naming, g) { GenesisNext(naming); }
    MissingRun(g);
  }

  lemma MissingRun(g: Block)
    requires ValidChain([g]) && g.hash == 1 && g.height == 0 && LastTx([g]) == 0
    requires forall naming: Blocks :: 1 in naming && naming[1] == g ==> StartsWith(naming, g)
    ensures exists naming, es, b, f, x :: RunMisses(naming, es, b, f, x)
  {
    hide ValidChain, Replay, ExpectedRewards, BodyValid, RunMisses, Run, ViewInv, HeaderValid, LastTx;
    SomethingIsSpendable([g], 2);
    var x :| x in ExpectedRewards([g]);
    var c, b := Idle([g], 2), ClaimingBlock([g], 2, []);
    assert LastTx(c) >= 0 by { ValidIsChain(c); }
    var naming := map[1 := g, 2 := b, 3 := ClaimingBlock(c, 3, []), 4 := ClaimingBlock(c, 4, [Move(x, 0)])];
    assert StartsWith(naming, g);
    ClaimedRun(naming, g, b);
    EveryRunCanMiss(naming, [Received(g)] + [Received(b)], 3, 4, x, 0);
  }

  ghost predicate StartsWith(naming: Blocks, g: Block)
  {
    && Named(naming, [Received(g)]) && Run(naming, [Received(g)]).peak == Some(g)
    && Run(naming, [Received(g)]).blocks == map[g.hash := g]
  }
}
