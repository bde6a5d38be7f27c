/** Coins, coin records, blocks as the ledger sees them, and the reward schedule. */
module Coins {

  datatype Option<+T> = None | Some(value: T)

  type Hash = nat
  type PuzzleHash = nat

  /** A coin's name hashes its parent name, puzzle hash and amount.  Hashing is taken to be
      injective, so a coin stands for its own name and its parent is either another coin or
      one of the two reward parent ids of a height. */
  datatype Parent = PoolReward(height: nat) | FarmerReward(height: nat) | SpentCoin(coin: Coin)
  datatype Coin = Coin(parent: Parent, puzzleHash: PuzzleHash, amount: nat)

  datatype CoinRecord = CoinRecord(
    coin: Coin,
    confirmedIndex: nat,
    spentIndex: nat,
    spent: bool,
    coinbase: bool,
    timestamp: nat)

  type CoinTable = map<Coin, CoinRecord>

  /** One spend of a block's generator result: the coin spent, the hash of the puzzle that was
      revealed for it, the coins it creates and the fees it reserves. */
  datatype Output = Output(puzzleHash: PuzzleHash, amount: nat)
  datatype Spend = Spend(coin: Coin, puzzleHash: PuzzleHash, outputs: seq<Output>, reservedFees: seq<int>)

  datatype TxBody = TxBody(
    timestamp: nat,
    prevTxHash: Hash,
    rewardClaims: seq<Coin>,
    fees: nat,
    spends: seq<Spend>)

  datatype Summary = Summary(id: nat)

  /** A block; `body` is present exactly when it is a transaction block. */
  datatype Block = Block(
    hash: Hash,
    prevHash: Hash,
    height: nat,
    poolPuzzleHash: PuzzleHash,
    farmerPuzzleHash: PuzzleHash,
    summary: Option<Summary>,
    body: Option<TxBody>)
  {
    predicate IsTx() { body.Some? }
    function Spends(): seq<Spend> { if body.Some? then body.value.spends else [] }
    function Fees(): nat { if body.Some? then body.value.fees else 0 }
    function Timestamp(): nat { if body.Some? then body.value.timestamp else 0 }
    function Claims(): seq<Coin> { if body.Some? then body.value.rewardClaims else [] }
    function Removals(): seq<Coin> { RemovalsOf(Spends()) }
    function Additions(): seq<Coin> { AdditionsOf(Spends()) }
    /** Every coin the block inserts, generator outputs and reward claims alike. */
    function Created(): set<Coin> { Elements(Additions()) + Elements(Claims()) }
  }

  function Elements<T>(s: seq<T>): set<T> { set x | x in s }

  function RemovalsOf(spends: seq<Spend>): (r: seq<Coin>)
    ensures |r| == |spends|
    ensures forall i :: 0 <= i < |r| ==> r[i] == spends[i].coin
  {
    seq(|spends|, i requires 0 <= i < |spends| => spends[i].coin)
  }

  function OutputsOf(s: Spend): (r: seq<Coin>)
    ensures forall c :: c in r ==> c.parent == SpentCoin(s.coin)
  {
    seq(|s.outputs|, i requires 0 <= i < |s.outputs| =>
      Coin(SpentCoin(s.coin), s.outputs[i].puzzleHash, s.outputs[i].amount))
  }

  /** The generator's additions: every created coin is a child of a coin spent in the same block. */
  function AdditionsOf(spends: seq<Spend>): (r: seq<Coin>)
    ensures forall c :: c in r ==> c.parent.SpentCoin? && c.parent.coin in RemovalsOf(spends)
  {
    if spends == [] then [] else
      var front := spends[..|spends| - 1];
      var last := spends[|spends| - 1];
      assert last.coin == RemovalsOf(spends)[|spends| - 1];
      assert forall c :: c in RemovalsOf(front) ==> c in RemovalsOf(spends) by {
        forall c | c in RemovalsOf(front) ensures c in RemovalsOf(spends) {
          var i :| 0 <= i < |front| && RemovalsOf(front)[i] == c;
          assert RemovalsOf(spends)[i] == c;
        }
      }
      AdditionsOf(front) + OutputsOf(last)
  }

  predicate NoDuplicates<T(==)>(s: seq<T>)
  {
    forall i, j :: 0 <= i < j < |s| ==> s[i] != s[j]
  }

  const MAX_COIN_AMOUNT: nat := 0xFFFF_FFFF_FFFF_FFFF

  // ---- Reward schedule -------------------------------------------------------------------

  const MOJO_PER_COIN: nat := 1_000_000_000_000
  const BLOCKS_PER_YEAR: nat := 1_681_920
  const PREFARM: nat := 1_000_000
  const REWARD_HARDFORK_HEIGHT: nat := 0xFFFF_FFFF

  function BlockReward(height: nat): nat
  {
    if height == 0 then PREFARM * MOJO_PER_COIN
    else if height < 3 * BLOCKS_PER_YEAR then MOJO_PER_COIN
    else if height < 6 * BLOCKS_PER_YEAR then MOJO_PER_COIN / 2
    else if height < 9 * BLOCKS_PER_YEAR then MOJO_PER_COIN / 4
    else MOJO_PER_COIN / 8
  }

  function PoolBase(height: nat): nat
  {
    if height >= REWARD_HARDFORK_HEIGHT then 0
    else if height == 0 then 875_000 * MOJO_PER_COIN
    else if height < 3 * BLOCKS_PER_YEAR then 875_000_000_000
    else if height < 6 * BLOCKS_PER_YEAR then 437_500_000_000
    else if height < 9 * BLOCKS_PER_YEAR then 218_750_000_000
    else 109_375_000_000
  }

  function FarmerBase(height: nat): nat
  {
    if height >= REWARD_HARDFORK_HEIGHT then 125_000_000_000
    else if height == 0 then 125_000 * MOJO_PER_COIN
    else if height < 3 * BLOCKS_PER_YEAR then 125_000_000_000
    else if height < 6 * BLOCKS_PER_YEAR then 62_500_000_000
    else if height < 9 * BLOCKS_PER_YEAR then 31_250_000_000
    else 15_625_000_000
  }

  /** The issuance of a height is halved every three years, for nine years; the first height is apart. */
  lemma RewardHalves(height: nat)
    requires height > 0
    ensures height < 3 * BLOCKS_PER_YEAR ==> BlockReward(height) == 1_000_000_000_000
    ensures height < 6 * BLOCKS_PER_YEAR ==> 2 * BlockReward(height + 3 * BLOCKS_PER_YEAR) == BlockReward(height)
    ensures height >= 9 * BLOCKS_PER_YEAR ==> 8 * BlockReward(height) == BlockReward(1)
    ensures BlockReward(0) == 1_000_000 * BlockReward(1)
  {
  }

  /** The split moves to the farmer at the reward hard fork; the issuance of a height does not change. */
  lemma RewardSplit(height: nat)
    ensures PoolBase(height) + FarmerBase(height) == BlockReward(height)
    ensures PoolBase(height) == 7 * FarmerBase(height) || height >= REWARD_HARDFORK_HEIGHT
  {
  }

  function PoolCoin(b: Block): Coin
  {
    Coin(PoolReward(b.height), b.poolPuzzleHash, PoolBase(b.height))
  }

  function FarmerCoin(b: Block, fees: nat): Coin
  {
    Coin(FarmerReward(b.height), b.farmerPuzzleHash, FarmerBase(b.height) + fees)
  }

  // ---- Sums over coins -------------------------------------------------------------------

  ghost function SumSet(s: set<Coin>): nat
  {
    if s == {} then 0 else
      var c :| c in s;
      c.amount + SumSet(s - {c})
  }

  function SumSeq(s: seq<Coin>): nat
  {
    if s == [] then 0 else SumSeq(s[..|s| - 1]) + s[|s| - 1].amount
  }

  lemma {:induction false} SumSetRemove(s: set<Coin>, x: Coin)
    requires x in s
    ensures SumSet(s) == x.amount + SumSet(s - {x})
    decreases |s|
  {
    var c :| c in s && SumSet(s) == c.amount + SumSet(s - {c});
    if c != x {
      SumSetRemove(s - {c}, x);
      SumSetRemove(s - {x}, c);
      assert s - {c} - {x} == s - {x} - {c};
    }
  }

  lemma {:induction false} SumSetUnion(a: set<Coin>, b: set<Coin>)
    requires a !! b
    ensures SumSet(a + b) == SumSet(a) + SumSet(b)
    decreases |b|
  {
    if b == {} {
      assert a + b == a;
    } else {
      var x :| x in b;
      SumSetRemove(a + b, x);
      SumSetRemove(b, x);
      assert (a + b) - {x} == a + (b - {x});
      SumSetUnion(a, b - {x});
    }
  }

  lemma SumSetMinus(a: set<Coin>, b: set<Coin>)
    requires b <= a
    ensures SumSet(a - b) == SumSet(a) - SumSet(b)
  {
    SumSetUnion(a - b, b);
    assert (a - b) + b == a;
  }

  lemma {:induction false} SumSeqElements(s: seq<Coin>)
    requires NoDuplicates(s)
    ensures SumSeq(s) == SumSet(Elements(s))
  {
    if s != [] {
      var front, last := s[..|s| - 1], s[|s| - 1];
      SumSeqElements(front);
      assert last in Elements(s);
      SumSetRemove(Elements(s), last);
      assert Elements(s) - {last} == Elements(front) by {
        assert forall c :: c in Elements(s) <==> c in Elements(front) || c == last;
      }
    }
  }
}
