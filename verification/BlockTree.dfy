/** Blocks keyed by header hash, the chain a block ends, and the fork of two chains. */
module BlockTree {
  import opened Coins
  import opened Ledger

  type Blocks = map<Hash, Block>

  /** The parent is present one height below; a block at height 0 needs none. */
  predicate Connected(blocks: Blocks, b: Block)
  {
    b.height == 0 || (b.prevHash in blocks && blocks[b.prevHash].height + 1 == b.height)
  }

  ghost predicate WellFormed(blocks: Blocks)
  {
    forall h :: h in blocks ==> blocks[h].hash == h && Connected(blocks, blocks[h])
  }

  /** A header hash names one block: a block under a known hash is the known block. */
  predicate SameUnderHash(blocks: Blocks, b: Block)
  {
    b.hash in blocks ==> blocks[b.hash] == b
  }

  /** The ancestors of `b` and `b`, from height 0 up. */
  ghost function Chain(blocks: Blocks, b: Block): (c: seq<Block>)
    requires WellFormed(blocks) && Connected(blocks, b)
    ensures |c| == b.height + 1 && c[b.height] == b
    ensures forall i :: 0 <= i < |c| ==> c[i].height == i
    ensures forall i :: 0 <= i < |c| - 1 ==> c[i].hash in blocks && blocks[c[i].hash] == c[i]
    ensures forall i :: 0 < i < |c| ==> LinkedAt(c, i)
    decreases b.height
  {
    if b.height == 0 then [b]
    else
      var below := Chain(blocks, blocks[b.prevHash]);
      assert forall i :: 0 < i < |below| ==> LinkedAt(below, i) && LinkedAt(below + [b], i);
      below + [b]
  }

  /** The chain below `b`: empty for a block at height 0. */
  ghost function Ancestors(blocks: Blocks, b: Block): (c: seq<Block>)
    requires WellFormed(blocks) && Connected(blocks, b)
    ensures |c| == b.height && Chain(blocks, b) == c + [b]
  {
    if b.height == 0 then [] else Chain(blocks, blocks[b.prevHash])
  }

  /** The chain to a peak, if there is one. */
  ghost function ChainTo(blocks: Blocks, peak: Option<Block>): seq<Block>
    requires WellFormed(blocks) && (peak.Some? ==> Connected(blocks, peak.value))
  {
    if peak.Some? then Chain(blocks, peak.value) else []
  }

  /** The peak, if there is one, is a known block. */
  ghost predicate PeakKnown(blocks: Blocks, peak: Option<Block>)
  {
    peak.Some? ==> peak.value.hash in blocks && blocks[peak.value.hash] == peak.value
  }

  lemma {:induction false} ChainOfAncestor(blocks: Blocks, b: Block, i: nat)
    requires WellFormed(blocks) && Connected(blocks, b) && i <= b.height
    ensures Connected(blocks, Chain(blocks, b)[i])
    ensures Chain(blocks, Chain(blocks, b)[i]) == Chain(blocks, b)[..i + 1]
    decreases b.height
  {
    var c := Chain(blocks, b);
    if i == b.height {
      assert c[..i + 1] == c;
    } else {
      var p := blocks[b.prevHash];
      ChainOfAncestor(blocks, p, i);
      assert c[..i + 1] == Chain(blocks, p)[..i + 1];
    }
  }

  /** Adding a block changes no chain. */
  lemma {:induction false} ChainStable(blocks: Blocks, x: Block, b: Block)
    requires WellFormed(blocks) && Connected(blocks, x) && SameUnderHash(blocks, x)
    requires Connected(blocks, b)
    ensures WellFormed(blocks[x.hash := x]) && Connected(blocks[x.hash := x], b)
    ensures Chain(blocks[x.hash := x], b) == Chain(blocks, b)
    decreases b.height
  {
    if b.height != 0 { ChainStable(blocks, x, blocks[b.prevHash]); }
  }

  // ---- Fork points ----------------------------------------------------------------------------

  /** `f` is the height of the highest block two chains share, -1 if they share none. */
  ghost predicate IsFork(c: seq<Block>, d: seq<Block>, f: int)
  {
    && -1 <= f < |c| && f < |d|
    && (forall i :: 0 <= i <= f ==> c[i] == d[i])
    && (forall i :: f < i < |c| && i < |d| ==> c[i] != d[i])
  }

  lemma ForkPrefix(c: seq<Block>, d: seq<Block>, f: int)
    requires IsFork(c, d, f)
    ensures c[..f + 1] == d[..f + 1]
  {
  }

  lemma ForkIsUnique(c: seq<Block>, d: seq<Block>, f: int, g: int)
    requires IsFork(c, d, f) && IsFork(c, d, g)
    ensures f == g
  {
    if f + 1 < |c| && f + 1 < |d| { assert c[f + 1] != d[f + 1]; }
    if g + 1 < |c| && g + 1 < |d| { assert c[g + 1] != d[g + 1]; }
  }

  lemma ForkIsSymmetric(c: seq<Block>, d: seq<Block>, f: int)
    ensures IsFork(c, d, f) <==> IsFork(d, c, f)
  {
  }

  /** A block off the other chain forks from it exactly where its parent does. */
  lemma ForkOfChild(c: seq<Block>, b: Block, d: seq<Block>, f: int)
    requires b !in d
    ensures IsFork(c + [b], d, f) <==> IsFork(c, d, f)
  {
    var e := c + [b];
    assert forall i :: 0 <= i < |c| ==> e[i] == c[i];
    assert e[|c|] == b;
    assert |c| < |d| ==> e[|c|] != d[|c|];
  }

  /** Two chains through the same block share everything below it. */
  lemma CommonBelow(blocks: Blocks, a: Block, b: Block, i: nat)
    requires WellFormed(blocks) && Connected(blocks, a) && Connected(blocks, b)
    requires i <= a.height && i <= b.height && Chain(blocks, a)[i] == Chain(blocks, b)[i]
    ensures Chain(blocks, a)[..i + 1] == Chain(blocks, b)[..i + 1]
  {
    ChainOfAncestor(blocks, a, i);
    ChainOfAncestor(blocks, b, i);
  }

  /** The parent of the block at height `i` is found under the hash that block names. */
  ghost predicate ParentAt(blocks: Blocks, c: seq<Block>, i: nat)
    requires 0 < i < |c|
  {
    c[i].prevHash == c[i - 1].hash && c[i].prevHash in blocks && blocks[c[i].prevHash] == c[i - 1]
  }

  /** What a walk back along `c` may rely on. */
  ghost predicate Linked(blocks: Blocks, c: seq<Block>)
  {
    && (forall i :: 0 <= i < |c| ==> c[i].height == i)
    && (forall i :: 0 < i < |c| ==> ParentAt(blocks, c, i))
  }

  ghost predicate SharesBelow(c: seq<Block>, d: seq<Block>)
  {
    forall i, k :: 0 <= k <= i < |c| && i < |d| && c[i].hash == d[i].hash ==> c[k] == d[k]
  }

  lemma ChainIsLinked(blocks: Blocks, b: Block)
    requires WellFormed(blocks) && Connected(blocks, b)
    ensures Linked(blocks, Chain(blocks, b))
  {
    var c := Chain(blocks, b);
    forall i | 0 < i < |c| ensures ParentAt(blocks, c, i) {
      assert LinkedAt(c, i) && c[i - 1].hash in blocks;
    }
  }

  lemma ChainsShareBelow(blocks: Blocks, a: Block, b: Block)
    requires WellFormed(blocks) && Connected(blocks, a) && Connected(blocks, b)
    requires SameUnderHash(blocks, a) && SameUnderHash(blocks, b)
    requires a.hash == b.hash ==> a == b
    ensures SharesBelow(Chain(blocks, a), Chain(blocks, b))
  {
    var c, d := Chain(blocks, a), Chain(blocks, b);
    forall i, k | 0 <= k <= i < |c| && i < |d| && c[i].hash == d[i].hash ensures c[k] == d[k] {
      CommonBelow(blocks, a, b, i);
      assert c[..i + 1][k] == d[..i + 1][k];
    }
  }

  method WalkToFork(blocks: Blocks, block1: Block, block2: Block, ghost c: seq<Block>, ghost d: seq<Block>)
    returns (height: int)
    requires Linked(blocks, c) && Linked(blocks, d) && SharesBelow(c, d)
    requires |c| == block1.height + 1 && c[block1.height] == block1
    requires |d| == block2.height + 1 && d[block2.height] == block2
    ensures IsFork(c, d, height)
  {
    var b1, b2 := block1, block2;
    while b2.height > 0 || b1.height > 0
      invariant b1.height < |c| && b2.height < |d|
      invariant b1 == c[b1.height] && b2 == d[b2.height]
      invariant forall i :: b1.height < i < |c| && i < |d| ==> c[i] != d[i]
      invariant forall i :: b2.height < i < |c| && i < |d| ==> c[i] != d[i]
      decreases b1.height + b2.height
    {
      assert b2.height > 0 ==> ParentAt(blocks, d, b2.height);
      assert b1.height > 0 ==> ParentAt(blocks, c, b1.height);
      if b2.height > b1.height {
        b2 := blocks[b2.prevHash];
      } else if b1.height > b2.height {
        b1 := blocks[b1.prevHash];
      } else {
        if b2.hash == b1.hash {
          return b2.height;
        }
        b2 := blocks[b2.prevHash];
        b1 := blocks[b1.prevHash];
      }
    }
    if b2 != b1 {
      return -1;
    }
    return 0;
  }

  method FindForkPoint(blocks: Blocks, block1: Block, block2: Block) returns (height: int)
    requires WellFormed(blocks) && Connected(blocks, block1) && Connected(blocks, block2)
    requires SameUnderHash(blocks, block1) && SameUnderHash(blocks, block2)
    requires block1.hash == block2.hash ==> block1 == block2
    ensures IsFork(Chain(blocks, block1), Chain(blocks, block2), height)
  {
    ChainIsLinked(blocks, block1);
    ChainIsLinked(blocks, block2);
    ChainsShareBelow(blocks, block1, block2);
    height := WalkToFork(blocks, block1, block2, Chain(blocks, block1), Chain(blocks, block2));
  }

  // ---- Sound trees --------------------------------------------------------------------------

  /** Header rules the body relies on: the first block is a transaction block, and a later
      transaction block names the last transaction block below it. */
  predicate HeaderValid(c: seq<Block>, b: Block)
  {
    if c == [] then b.IsTx()
    else b.IsTx() && LastTx(c) >= 0 ==> b.body.value.prevTxHash == c[LastTx(c)].hash
  }

  /** Every block heads a valid chain. */
  ghost predicate Sound(blocks: Blocks)
  {
    WellFormed(blocks) && forall h :: h in blocks ==> ValidChain(Chain(blocks, blocks[h]))
  }

  lemma AncestorsValid(blocks: Blocks, b: Block)
    requires Sound(blocks) && Connected(blocks, b)
    ensures ValidChain(Ancestors(blocks, b))
  {
    if b.height != 0 {
      assert b.prevHash in blocks;
    }
  }

  /** On valid ancestors, header and body validity are exactly what makes the longer chain valid. */
  lemma ExtendValid(c: seq<Block>, b: Block)
    requires ValidChain(c) && HeaderValid(c, b)
    requires b.height == |c| && (c != [] ==> b.prevHash == c[|c| - 1].hash)
    ensures ValidChain(c + [b]) <==> (b.IsTx() ==> BodyValid(c, b))
  {
    ValidSnoc(c, b);
    ValidIsChain(c);
    hide ValidChain, BodyValid;
    forall i | 0 < i < |c + [b]| ensures LinkedAt(c + [b], i) {
      if i < |c| { assert LinkedAt(c, i); }
    }
    assert IsChain(c + [b]);
  }

  lemma SoundGrows(blocks: Blocks, b: Block)
    requires Sound(blocks) && Connected(blocks, b) && SameUnderHash(blocks, b)
    requires ValidChain(Chain(blocks, b))
    ensures Sound(blocks[b.hash := b])
    ensures Chain(blocks[b.hash := b], b) == Chain(blocks, b)
  {
    var more := blocks[b.hash := b];
    ChainStable(blocks, b, b);
    forall h | h in more ensures ValidChain(Chain(more, more[h])) {
      if h != b.hash { ChainStable(blocks, b, blocks[h]); }
    }
  }
}
