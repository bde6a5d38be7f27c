/** The chain state as a state machine over received blocks, and what every run of it keeps. */
module ChainState {
  import opened Coins
  import opened Ledger
  import opened BlockTree
  import opened Conservation

  datatype ReceiveResult = NewPeak | AddedAsOrphan | InvalidBlock | AlreadyHaveBlock | DisconnectedBlock

  /** Known blocks, the peak, and the height index, which is only ever overwritten. */
  datatype View = View(blocks: Blocks, peak: Option<Block>, heightToHash: map<nat, Hash>)

  function PathMap(c: seq<Block>): map<nat, Hash>
  {
    map i: nat | 0 <= i < |c| :: c[i].hash
  }

  function SummaryMap(c: seq<Block>): map<nat, Summary>
  {
    map i: nat | 0 <= i < |c| && c[i].summary.Some? :: c[i].summary.value
  }

  /** The index agrees with the path `c` at every height of the path. */
  ghost predicate Indexes(heightToHash: map<nat, Hash>, c: seq<Block>)
  {
    forall i: nat :: i < |c| ==> i in heightToHash && heightToHash[i] == c[i].hash
  }

  ghost predicate PeakOk(v: View)
    requires WellFormed(v.blocks)
  {
    match v.peak
    case None => v.blocks == map[] && v.heightToHash == map[]
    case Some(p) =>
      p.hash in v.blocks && v.blocks[p.hash] == p && Indexes(v.heightToHash, Chain(v.blocks, p))
  }

  /** Every entry names a known block of its height, and below an entry there is no gap. */
  ghost predicate IndexOk(v: View)
  {
    && (forall h :: h in v.heightToHash ==>
          v.heightToHash[h] in v.blocks && v.blocks[v.heightToHash[h]].height == h)
    && (forall h, i: nat :: h in v.heightToHash && i <= h ==> i in v.heightToHash)
  }

  ghost predicate ViewInv(v: View)
  {
    Sound(v.blocks) && PeakOk(v) && IndexOk(v)
  }

  ghost function PeakChain(v: View): seq<Block>
    requires ViewInv(v)
  {
    ChainTo(v.blocks, v.peak)
  }

  /** The test used for "already have this block": the index entry at the known block's height. */
  predicate InPeakChain(v: View, hash: Hash)
  {
    hash in v.blocks && v.blocks[hash].height in v.heightToHash && v.heightToHash[v.blocks[hash].height] == hash
  }

  ghost predicate Acceptable(blocks: Blocks, b: Block)
    requires WellFormed(blocks) && Connected(blocks, b)
  {
    HeaderValid(Ancestors(blocks, b), b) && (b.IsTx() ==> BodyValid(Ancestors(blocks, b), b))
  }

  /** How a received block is classified.  The rules modelled here never refer to the old peak. */
  ghost function Outcome(v: View, b: Block): ReceiveResult
    requires WellFormed(v.blocks)
  {
    if InPeakChain(v, b.hash) then AlreadyHaveBlock
    else if b.height != 0 && b.prevHash !in v.blocks then DisconnectedBlock
    else if b.height != 0 && v.blocks[b.prevHash].height + 1 != b.height then InvalidBlock
    else if !Acceptable(v.blocks, b) then InvalidBlock
    else if b.height == 0 && v.peak.Some? then AddedAsOrphan
    else NewPeak
  }

  /** The state after a block of that class.  Every acceptable block that is not at height 0 becomes
      the peak, higher or lower than the old one. */
  ghost function After(v: View, b: Block, r: ReceiveResult): View
    requires r == NewPeak ==> WellFormed(v.blocks) && Connected(v.blocks, b)
  {
    match r
    case NewPeak => View(v.blocks[b.hash := b], Some(b), v.heightToHash + PathMap(Chain(v.blocks, b)))
    case AddedAsOrphan => v.(blocks := v.blocks[b.hash := b])
    case _ => v
  }

  ghost function Receive(v: View, b: Block): View
    requires ViewInv(v)
  {
    After(v, b, Outcome(v, b))
  }

  /** When each of the five results comes. A block already stored is refused only if the index names it;
      otherwise only its own chain counts, not where the peak is. */
  lemma ResultsAre(v: View, b: Block)
    requires ViewInv(v)
    ensures Outcome(v, b) == AlreadyHaveBlock <==> exists h :: NamesAt(v, h, b.hash)
    ensures Outcome(v, b) == DisconnectedBlock <==>
      Outcome(v, b) != AlreadyHaveBlock && b.height > 0 && b.prevHash !in v.blocks
    ensures Outcome(v, b) == InvalidBlock <==>
      && Outcome(v, b) != AlreadyHaveBlock && (b.height > 0 ==> b.prevHash in v.blocks)
      && !(Connected(v.blocks, b) && ValidChain(Chain(v.blocks, b)) && HeaderValid(Ancestors(v.blocks, b), b))
    ensures Outcome(v, b) == AddedAsOrphan <==>
      Outcome(v, b) != AlreadyHaveBlock && b.height == 0 && v.peak.Some? && ValidChain([b]) && HeaderValid([], b)
    ensures Outcome(v, b) == NewPeak <==>
      && Outcome(v, b) != AlreadyHaveBlock && (b.height == 0 ==> v.peak.None?)
      && Connected(v.blocks, b) && ValidChain(Chain(v.blocks, b)) && HeaderValid(Ancestors(v.blocks, b), b)
  {
    hide ValidChain, LinkedAt, Indexes, PeakOk, IndexOk, HeaderValid, Chain, Acceptable, Ancestors, InPeakChain;
    if b.height == 0 { FirstAlone(v.blocks, b); }
    IndexedIff(v, b.hash);
    if Connected(v.blocks, b) { AcceptableIff(v.blocks, b); }
  }

  lemma FirstAlone(blocks: Blocks, b: Block)
    requires WellFormed(blocks) && b.height == 0
    ensures Chain(blocks, b) == [b] && Ancestors(blocks, b) == []
  {
  }

  lemma IndexedIff(v: View, hash: Hash)
    requires IndexOk(v) && WellFormed(v.blocks)
    ensures InPeakChain(v, hash) <==> exists h :: NamesAt(v, h, hash)
  {
    if InPeakChain(v, hash) { assert NamesAt(v, v.blocks[hash].height, hash); }
  }

  /** A connected block is accepted exactly when the chain it ends is valid, headers included. */
  lemma AcceptableIff(blocks: Blocks, b: Block)
    requires Sound(blocks) && Connected(blocks, b)
    ensures Acceptable(blocks, b) <==> HeaderValid(Ancestors(blocks, b), b) && ValidChain(Chain(blocks, b))
  {
    AncestorsValid(blocks, b);
    hide ValidChain, LinkedAt, BodyValid;
    if HeaderValid(Ancestors(blocks, b), b) { ExtendValid(Ancestors(blocks, b), b); }
  }

  predicate NamesAt(v: View, h: nat, hash: Hash) { h in v.heightToHash && v.heightToHash[h] == hash }

  lemma AcceptedGrows(v: View, b: Block)
    requires ViewInv(v) && Connected(v.blocks, b) && SameUnderHash(v.blocks, b) && Acceptable(v.blocks, b)
    ensures Sound(v.blocks[b.hash := b])
    ensures ValidChain(Chain(v.blocks, b))
    ensures Chain(v.blocks[b.hash := b], b) == Chain(v.blocks, b)
  {
    AncestorsValid(v.blocks, b);
    ExtendValid(Ancestors(v.blocks, b), b);
    SoundGrows(v.blocks, b);
  }

  lemma OrphanKeepsInv(v: View, b: Block)
    requires ViewInv(v) && v.peak.Some?
    requires Connected(v.blocks, b) && SameUnderHash(v.blocks, b) && Acceptable(v.blocks, b)
    ensures ViewInv(v.(blocks := v.blocks[b.hash := b]))
  {
    hide ValidChain, LinkedAt, Acceptable, Indexes, IndexOk, Chain;
    AcceptedGrows(v, b);
    ChainStable(v.blocks, b, v.peak.value);
    StoreKeepsIndexOk(v, b);
  }

  lemma StoreKeepsIndexOk(v: View, b: Block)
    requires IndexOk(v) && SameUnderHash(v.blocks, b)
    ensures IndexOk(v.(blocks := v.blocks[b.hash := b]))
  {
  }

  lemma PathIndexes(index: map<nat, Hash>, c: seq<Block>)
    ensures Indexes(index + PathMap(c), c)
  {
  }

  /** Overwriting along a known path keeps the index gap-free and its entries known. */
  lemma PathKeepsIndexOk(v: View, b: Block)
    requires IndexOk(v) && WellFormed(v.blocks) && Connected(v.blocks, b) && SameUnderHash(v.blocks, b)
    ensures IndexOk(View(v.blocks[b.hash := b], Some(b), v.heightToHash + PathMap(Chain(v.blocks, b))))
  {
    hide LinkedAt;
  }

  lemma NewPeakKeepsInv(v: View, b: Block)
    requires ViewInv(v)
    requires Connected(v.blocks, b) && SameUnderHash(v.blocks, b) && Acceptable(v.blocks, b)
    ensures ViewInv(View(v.blocks[b.hash := b], Some(b), v.heightToHash + PathMap(Chain(v.blocks, b))))
  {
    hide ValidChain, LinkedAt, Acceptable, Indexes, PathMap;
    AcceptedGrows(v, b);
    PathIndexes(v.heightToHash, Chain(v.blocks, b));
    PathKeepsIndexOk(v, b);
    hide IndexOk;
  }

  lemma OutcomeMeans(v: View, b: Block)
    requires WellFormed(v.blocks)
    ensures Outcome(v, b) in {NewPeak, AddedAsOrphan} ==> Connected(v.blocks, b) && Acceptable(v.blocks, b)
    ensures Outcome(v, b) == AddedAsOrphan ==> v.peak.Some?
  {
  }

  lemma AfterKeepsInv(v: View, b: Block, r: ReceiveResult)
    requires ViewInv(v) && SameUnderHash(v.blocks, b)
    requires r in {NewPeak, AddedAsOrphan} ==> Connected(v.blocks, b) && Acceptable(v.blocks, b)
    requires r == AddedAsOrphan ==> v.peak.Some?
    ensures ViewInv(After(v, b, r))
  {
    if r == NewPeak { NewPeakKeepsInv(v, b); }
    if r == AddedAsOrphan { OrphanKeepsInv(v, b); }
  }

  lemma ReceiveKeepsInv(v: View, b: Block)
    requires ViewInv(v) && SameUnderHash(v.blocks, b)
    ensures ViewInv(Receive(v, b))
  {
    OutcomeMeans(v, b);
    AfterKeepsInv(v, b, Outcome(v, b));
  }

  /** A restart rebuilds the index from the peak's path. */
  ghost function Restart(v: View): View
    requires ViewInv(v)
  {
    v.(heightToHash := PathMap(PeakChain(v)))
  }

  lemma RestartKeepsInv(v: View)
    requires ViewInv(v)
    ensures ViewInv(Restart(v)) && PeakChain(Restart(v)) == PeakChain(v)
  {
    hide ValidChain, LinkedAt;
    var w := Restart(v);
    if v.peak.Some? {
      forall i: nat | i < |PeakChain(v)|
        ensures PeakChain(v)[i].hash in v.blocks && v.blocks[PeakChain(v)[i].hash].height == i
      {
        PathKnown(v, i);
      }
      assert IndexOk(w);
    }
  }

  // ---- Runs ----------------------------------------------------------------------------------------

  /** What happens to a node: it receives a block, or it is restarted. */
  datatype Event = Received(block: Block) | Restarted

  ghost function Step(v: View, e: Event): View
    requires ViewInv(v)
  {
    match e
    case Received(b) => Receive(v, b)
    case Restarted => Restart(v)
  }

  /** `naming` says which block each header hash names; it stands for the hash function. */
  ghost predicate Named(naming: Blocks, es: seq<Event>)
  {
    forall i :: 0 <= i < |es| && es[i].Received? ==>
      es[i].block.hash in naming && naming[es[i].block.hash] == es[i].block
  }

  ghost predicate KnownFrom(naming: Blocks, blocks: Blocks)
  {
    forall h :: h in blocks ==> h in naming && naming[h] == blocks[h]
  }

  const EMPTY: View := View(map[], None, map[])

  /** The state after the events `es` in order, starting with nothing. */
  ghost function Run(naming: Blocks, es: seq<Event>): (v: View)
    requires Named(naming, es)
    ensures ViewInv(v) && KnownFrom(naming, v.blocks)
  {
    if es == [] then EMPTY
    else
      RunStep(naming, Run(naming, es[..|es| - 1]), es[|es| - 1]);
      Step(Run(naming, es[..|es| - 1]), es[|es| - 1])
  }

  lemma AfterKnown(naming: Blocks, v: View, b: Block, r: ReceiveResult)
    requires r == NewPeak ==> WellFormed(v.blocks) && Connected(v.blocks, b)
    requires KnownFrom(naming, v.blocks) && b.hash in naming && naming[b.hash] == b
    ensures KnownFrom(naming, After(v, b, r).blocks)
  {
  }

  lemma RunStep(naming: Blocks, v: View, e: Event)
    requires ViewInv(v) && KnownFrom(naming, v.blocks)
    requires e.Received? ==> e.block.hash in naming && naming[e.block.hash] == e.block
    ensures ViewInv(Step(v, e)) && KnownFrom(naming, Step(v, e).blocks)
  {
    match e
    case Received(b) =>
      ReceiveKeepsInv(v, b);
      AfterKnown(naming, v, b, Outcome(v, b));
    case Restarted =>
      RestartKeepsInv(v);
  }

  /** After any run of received blocks and restarts, whatever was reorganised on the way: the peak
      heads a valid chain, every reward below the last claim is on it exactly once, and the unspent
      coins are worth what was issued. */
  lemma EveryRunConserves(naming: Blocks, es: seq<Event>)
    requires Named(naming, es) && Run(naming, es).peak.Some?
    ensures var c := PeakChain(Run(naming, es));
      && ValidChain(c)
      && RewardRows(Replay(c)) == CoinsBetween(c, 0, ClaimedBelow(c))
      && SumSet(UnspentCoins(Replay(c))) + c[LastTx(c)].Fees() == IssuedBelow(ClaimedBelow(c))
  {
    var c := PeakChain(Run(naming, es));
    RewardsClaimedOnce(c);
    Conserved(c);
  }

  // ---- The "already have" test and stale index entries ---------------------------------------------------

  lemma IndexedAt(v: View, f: int)
    requires ViewInv(v) && -1 <= f < |PeakChain(v)|
    ensures f >= 0 ==> f in v.heightToHash && v.heightToHash[f] == PeakChain(v)[f].hash
  {
  }

  lemma PathKnown(v: View, i: nat)
    requires ViewInv(v) && i < |PeakChain(v)|
    ensures PeakChain(v)[i].hash in v.blocks && v.blocks[PeakChain(v)[i].hash] == PeakChain(v)[i]
  {
    hide ValidChain, LinkedAt, Indexes;
    if i == v.peak.value.height {
      assert PeakChain(v)[i] == v.peak.value;
    }
  }

  /** At heights up to the peak's the test means "on the peak's path". */
  lemma TestBelowPeak(v: View, hash: Hash)
    requires ViewInv(v) && v.peak.Some? && hash in v.blocks && v.blocks[hash].height <= v.peak.value.height
    ensures InPeakChain(v, hash) <==> v.blocks[hash] in PeakChain(v)
  {
    hide ValidChain, LinkedAt, IndexOk;
    var b, c := v.blocks[hash], PeakChain(v);
    PathKnown(v, b.height);
    IndexedAt(v, b.height);
    if b in c {
      var i :| 0 <= i < |c| && c[i] == b;
      assert i == b.height;
    }
  }

  /** The test "is in the current chain" is right for every known block exactly when the index has no
      entry above the peak. */
  lemma InPeakChainExact(v: View)
    requires ViewInv(v) && v.peak.Some?
    ensures (forall hash :: hash in v.blocks ==> (InPeakChain(v, hash) <==> v.blocks[hash] in PeakChain(v))) <==>
            (forall h :: h in v.heightToHash ==> h <= v.peak.value.height)
  {
    hide ValidChain, LinkedAt, Indexes, Chain;
    var c := PeakChain(v);
    if forall h :: h in v.heightToHash ==> h <= v.peak.value.height {
      forall hash | hash in v.blocks ensures InPeakChain(v, hash) <==> v.blocks[hash] in c {
        if v.blocks[hash].height <= v.peak.value.height { TestBelowPeak(v, hash); }
      }
    } else {
      var h :| h in v.heightToHash && h > v.peak.value.height;
      assert v.heightToHash[h] in v.blocks && InPeakChain(v, v.heightToHash[h]);
    }
  }

  function PeakHeight(v: View): int { if v.peak.Some? then v.peak.value.height else -1 }

  function Higher(a: int, b: int): int { if a >= b then a else b }

  /** The highest peak since the last restart, the present one included; -1 if there was none. */
  ghost function HighestPeak(naming: Blocks, es: seq<Event>): (h: int)
    requires Named(naming, es)
    ensures h >= PeakHeight(Run(naming, es))
  {
    if es == [] then -1
    else if es[|es| - 1].Restarted? then PeakHeight(Run(naming, es))
    else Higher(HighestPeak(naming, es[..|es| - 1]), PeakHeight(Run(naming, es)))
  }

  lemma ReceiveReaches(v: View, b: Block, top: int)
    requires ViewInv(v) && SameUnderHash(v.blocks, b) && top >= PeakHeight(v)
    requires forall h: nat :: h in v.heightToHash <==> h <= top
    ensures forall h: nat :: h in Receive(v, b).heightToHash <==> h <= Higher(top, PeakHeight(Receive(v, b)))
  {
    hide ValidChain, LinkedAt, Acceptable, Indexes, InPeakChain;
    OutcomeMeans(v, b);
  }

  /** The index has an entry at exactly the heights up to the highest peak since the last restart. */
  lemma {:induction false} IndexReaches(naming: Blocks, es: seq<Event>)
    requires Named(naming, es)
    ensures forall h: nat :: h in Run(naming, es).heightToHash <==> h <= HighestPeak(naming, es)
  {
    hide ViewInv, Receive;
    if es != [] {
      var front, e := es[..|es| - 1], es[|es| - 1];
      IndexReaches(naming, front);
      match e {
        case Received(b) => ReceiveReaches(Run(naming, front), b, HighestPeak(naming, front));
        case Restarted => RestartReaches(Run(naming, front));
      }
    }
  }

  lemma RestartReaches(v: View)
    requires ViewInv(v)
    ensures forall h: nat :: h in Restart(v).heightToHash <==> h <= PeakHeight(Restart(v))
  {
    hide ValidChain, LinkedAt;
  }

  /** After any run the test is right for every known block exactly when no peak since the last restart
      was higher than the present one. */
  lemma TestIsRightIff(naming: Blocks, es: seq<Event>)
    requires Named(naming, es) && Run(naming, es).peak.Some?
    ensures var v := Run(naming, es);
      (forall hash :: hash in v.blocks ==> (InPeakChain(v, hash) <==> v.blocks[hash] in PeakChain(v))) <==>
      HighestPeak(naming, es) == v.peak.value.height
  {
    hide ViewInv, Run, InPeakChain, HighestPeak;
    InPeakChainExact(Run(naming, es));
    IndexReaches(naming, es);
    HighestIsReached(naming, es);
  }

  lemma HighestIsReached(naming: Blocks, es: seq<Event>)
    requires Named(naming, es) && forall h: nat :: h in Run(naming, es).heightToHash <==> h <= HighestPeak(naming, es)
    ensures (forall h :: h in Run(naming, es).heightToHash ==> h <= PeakHeight(Run(naming, es))) <==>
            HighestPeak(naming, es) == PeakHeight(Run(naming, es))
  {
    var top := HighestPeak(naming, es);
    if top >= 0 { assert top in Run(naming, es).heightToHash; }
  }

  /** Right after a restart the test is right for every known block. */
  lemma RestartMakesTestExact(v: View, hash: Hash)
    requires ViewInv(v) && v.peak.Some? && hash in v.blocks
    ensures ViewInv(Restart(v)) && PeakChain(Restart(v)) == PeakChain(v)
    ensures InPeakChain(Restart(v), hash) <==> v.blocks[hash] in PeakChain(v)
  {
    hide ValidChain, Indexes, InPeakChain, Chain;
    RestartKeepsInv(v);
    InPeakChainExact(Restart(v));
    RestartReaches(v);
  }

  lemma AfterIndex(v: View, b: Block, orphan: Block)
    requires WellFormed(v.blocks) && Connected(v.blocks, b) && SameUnderHash(v.blocks, b)
    requires orphan.hash in v.blocks && v.blocks[orphan.hash] == orphan && b.height < orphan.height
    requires orphan.height in v.heightToHash && v.heightToHash[orphan.height] == orphan.hash
    ensures InPeakChain(After(v, b, NewPeak), orphan.hash)
    ensures orphan !in Chain(v.blocks, b)
  {
    hide LinkedAt;
  }

  /** Every reorganisation to a lower peak leaves the abandoned path's blocks above it in the index:
      they are off the new path, still pass the test, and are refused when received again. */
  lemma LowerPeakLeavesStale(v: View, b: Block, i: nat)
    requires ViewInv(v) && SameUnderHash(v.blocks, b) && v.peak.Some? && Outcome(v, b) == NewPeak
    requires b.height < i <= v.peak.value.height
    ensures ViewInv(Receive(v, b))
    ensures InPeakChain(Receive(v, b), PeakChain(v)[i].hash) && PeakChain(v)[i] !in PeakChain(Receive(v, b))
    ensures Outcome(Receive(v, b), PeakChain(v)[i]) == AlreadyHaveBlock
  {
    hide ValidChain, Acceptable, LinkedAt, Indexes, Chain;
    ReceiveKeepsInv(v, b);
    OutcomeMeans(v, b);
    AcceptedGrows(v, b);
    PathKnown(v, i);
    IndexedAt(v, i);
    AfterIndex(v, b, PeakChain(v)[i]);
  }

  // ---- Blocks that come again ---------------------------------------------------------------------------------

  /** What receiving changes: an accepted block is stored; unless it is a second genesis it becomes the peak,
      and the index then names its chain as far as that goes and is as before above. */
  lemma ReceiveDoes(v: View, b: Block)
    requires ViewInv(v)
    ensures Outcome(v, b) !in {NewPeak, AddedAsOrphan} ==> Receive(v, b) == v
    ensures Outcome(v, b) in {NewPeak, AddedAsOrphan} ==> Receive(v, b).blocks == v.blocks[b.hash := b]
    ensures Outcome(v, b) == AddedAsOrphan ==>
      Receive(v, b).peak == v.peak && Receive(v, b).heightToHash == v.heightToHash
    ensures Outcome(v, b) == NewPeak ==>
      && Receive(v, b).peak == Some(b) && Connected(v.blocks, b)
      && IndexMovesTo(v.heightToHash, Receive(v, b).heightToHash, Chain(v.blocks, b))
  {
    OutcomeMeans(v, b);
    hide Outcome, Acceptable, Sound, PeakOk, IndexOk, PathMap, IndexMovesTo, Chain;
    if Connected(v.blocks, b) { PathOverwrites(v.heightToHash, Chain(v.blocks, b)); }
  }

  /** The index names the chain `c` as far as it goes, and above it what it named before. */
  ghost predicate IndexMovesTo(before: map<nat, Hash>, after: map<nat, Hash>, c: seq<Block>)
  {
    && (forall h: nat :: h < |c| ==> h in after && after[h] == c[h].hash)
    && (forall h: nat :: h >= |c| ==> (h in after <==> h in before))
    && (forall h: nat :: h >= |c| && h in before ==> after[h] == before[h])
  }

  lemma PathOverwrites(index: map<nat, Hash>, c: seq<Block>)
    ensures IndexMovesTo(index, index + PathMap(c), c)
  {
  }

  /** Every known block meets the header rules on its own ancestors. */
  ghost predicate HeadersOk(blocks: Blocks)
    requires WellFormed(blocks)
  {
    forall h :: h in blocks ==> HeaderValid(Ancestors(blocks, blocks[h]), blocks[h])
  }

  lemma StoringKeepsHeaders(blocks: Blocks, b: Block)
    requires WellFormed(blocks) && Connected(blocks, b) && SameUnderHash(blocks, b)
    requires HeadersOk(blocks) && HeaderValid(Ancestors(blocks, b), b)
    ensures WellFormed(blocks[b.hash := b]) && HeadersOk(blocks[b.hash := b])
  {
    hide HeaderValid, Chain;
    ChainStable(blocks, b, b);
    var after := blocks[b.hash := b];
    forall h | h in after ensures HeaderValid(Ancestors(after, after[h]), after[h]) {
      ChainStable(blocks, b, after[h]);
      SameBelow(blocks, after, after[h]);
    }
  }

  lemma SameBelow(blocks: Blocks, after: Blocks, x: Block)
    requires WellFormed(blocks) && WellFormed(after) && Connected(blocks, x) && Connected(after, x)
    requires Chain(blocks, x) == Chain(after, x)
    ensures Ancestors(blocks, x) == Ancestors(after, x)
  {
    assert Ancestors(blocks, x) == Chain(blocks, x)[..x.height] == Ancestors(after, x);
  }

  lemma ReceiveKeepsHeaders(v: View, b: Block)
    requires ViewInv(v) && SameUnderHash(v.blocks, b) && HeadersOk(v.blocks)
    ensures WellFormed(Receive(v, b).blocks) && HeadersOk(Receive(v, b).blocks)
  {
    OutcomeMeans(v, b);
    ReceiveDoes(v, b);
    hide HeadersOk, Chain, Outcome, PeakOk, IndexOk, After;
    if Outcome(v, b) in {NewPeak, AddedAsOrphan} { StoringKeepsHeaders(v.blocks, b); }
  }

  lemma {:induction false} RunKeepsHeaders(naming: Blocks, es: seq<Event>)
    requires Named(naming, es)
    ensures WellFormed(Run(naming, es).blocks) && HeadersOk(Run(naming, es).blocks)
  {
    if es != [] {
      var front, e := es[..|es| - 1], es[|es| - 1];
      RunKeepsHeaders(naming, front);
      assert Run(naming, es) == Step(Run(naming, front), e);
      hide Run, ViewInv;
      StepKeepsHeaders(naming, Run(naming, front), e);
    }
  }

  lemma StepKeepsHeaders(naming: Blocks, v: View, e: Event)
    requires ViewInv(v) && KnownFrom(naming, v.blocks) && HeadersOk(v.blocks)
    requires e.Received? ==> e.block.hash in naming && naming[e.block.hash] == e.block
    ensures ViewInv(Step(v, e)) && HeadersOk(Step(v, e).blocks)
  {
    hide HeadersOk, Receive, PeakOk, IndexOk;
    RunStep(naming, v, e);
    if e.Received? { ReceiveKeepsHeaders(v, e.block); }
  }

  /** `t` is the last transaction block below height `j`. */
  predicate TxBeforeIs(c: seq<Block>, t: int, j: int)
  {
    0 <= t < j <= |c| && c[t].IsTx() && forall i :: t < i < j ==> !c[i].IsTx()
  }

  /** In every chain known after a run the first block is a transaction block, and every later transaction
      block names the last one below it. */
  lemma KnownChainsNameLastTx(naming: Blocks, es: seq<Event>, b: Block, j: nat)
    requires Named(naming, es) && b.hash in Run(naming, es).blocks && Run(naming, es).blocks[b.hash] == b
    requires j <= b.height
    ensures var v := Run(naming, es);
      && WellFormed(v.blocks) && Connected(v.blocks, b)
      && var c := Chain(v.blocks, b);
      && (j == 0 ==> c[j].IsTx())
      && (forall t :: TxBeforeIs(c, t, j) && c[j].IsTx() ==> c[j].body.value.prevTxHash == c[t].hash)
  {
    RunKeepsHeaders(naming, es);
    hide Run, HeadersOk, Chain;
    HeadersNameLastTx(Run(naming, es).blocks, b, j);
  }

  lemma HeadersNameLastTx(blocks: Blocks, b: Block, j: nat)
    requires WellFormed(blocks) && HeadersOk(blocks) && b.hash in blocks && blocks[b.hash] == b && j <= b.height
    ensures var c := Chain(blocks, b);
      && (j == 0 ==> c[j].IsTx())
      && (forall t :: TxBeforeIs(c, t, j) && c[j].IsTx() ==> c[j].body.value.prevTxHash == c[t].hash)
  {
    AncestorsAt(blocks, b, j);
    hide Chain, WellFormed, Ancestors;
    var c := Chain(blocks, b);
    assert HeaderValid(c[..j], c[j]);
    hide HeadersOk;
    RuleNamesLastTx(c, j);
  }

  lemma AncestorsAt(blocks: Blocks, b: Block, j: nat)
    requires WellFormed(blocks) && b.hash in blocks && blocks[b.hash] == b && j <= b.height
    ensures var c := Chain(blocks, b);
      c[j].hash in blocks && blocks[c[j].hash] == c[j] && Ancestors(blocks, c[j]) == c[..j]
  {
    var c := Chain(blocks, b);
    ChainOfAncestor(blocks, b, j);
    hide Chain;
    assert Chain(blocks, c[j])[..j] == Ancestors(blocks, c[j]);
    assert c[..j + 1][..j] == c[..j];
  }

  lemma {:induction false} RuleNamesLastTx(c: seq<Block>, j: nat)
    requires j < |c| && HeaderValid(c[..j], c[j])
    ensures j == 0 ==> c[j].IsTx()
    ensures forall t :: TxBeforeIs(c, t, j) && c[j].IsTx() ==> c[j].body.value.prevTxHash == c[t].hash
  {
    forall t | TxBeforeIs(c, t, j) && c[j].IsTx() ensures c[j].body.value.prevTxHash == c[t].hash {
      assert TxBeforeIs(c[..j], t, j);
      LastTxOf(c[..j], t);
    }
  }

  lemma LastTxOf(d: seq<Block>, t: int)
    requires TxBeforeIs(d, t, |d|)
    ensures LastTx(d) == t
  {
  }

  /** A known block that the index does not name is received again as if it were new: it becomes the peak,
      whatever the peak is, or, at height 0, stays an orphan. */
  lemma KnownBlockReturns(naming: Blocks, es: seq<Event>, b: Block)
    requires Named(naming, es) && b.hash in Run(naming, es).blocks && Run(naming, es).blocks[b.hash] == b
    requires forall h :: !NamesAt(Run(naming, es), h, b.hash)
    ensures var v := Run(naming, es);
      && Outcome(v, b) == (if b.height > 0 then NewPeak else AddedAsOrphan)
      && (b.height > 0 ==> Receive(v, b).peak == Some(b))
  {
    var v := Run(naming, es);
    RunKeepsHeaders(naming, es);
    hide Run;
    assert HeaderValid(Ancestors(v.blocks, b), b) && ValidChain(Chain(v.blocks, b));
    ResultsAre(v, b);
    ReceiveDoes(v, b);
    hide ValidChain, HeaderValid, HeadersOk, Outcome, IndexOk, After, Chain;
    if b.height == 0 { FirstAlone(v.blocks, b); }
  }

  // ---- A concrete run of that kind ------------------------------------------------------------------------

  function EmptyGenesis(): Block
  {
    Block(1, 0, 0, 0, 0, None, Some(TxBody(0, 0, [], 0, [])))
  }

  function PlainBlock(hash: Hash, prevHash: Hash, height: nat): Block
  {
    Block(hash, prevHash, height, 0, 0, None, None)
  }

  lemma EmptyGenesisValid()
    ensures BodyValid([], EmptyGenesis())
  {
    var g := EmptyGenesis();
    assert g.Removals() == [] && g.Additions() == [] && g.Claims() == [] && g.Spends() == [];
    ExpectedWithin([]);
    assert RewardsValid([], g);
    assert g.Created() == {};
    hide RewardsValid, ExpectedRewards;
    assert SpendsValid(Replay([]), g);
  }

  lemma RunNext(naming: Blocks, es: seq<Event>, b: Block)
    requires Named(naming, es) && b.hash in naming && naming[b.hash] == b
    ensures Named(naming, es + [Received(b)])
    ensures Run(naming, es + [Received(b)]) == Receive(Run(naming, es), b)
  {
    assert (es + [Received(b)])[..|es|] == es;
  }

  lemma PlainAccepted(v: View, b: Block)
    requires ViewInv(v) && v.peak.Some? && b.hash !in v.blocks
    requires !b.IsTx() && b.height > 0 && b.prevHash in v.blocks && v.blocks[b.prevHash].height + 1 == b.height
    ensures Outcome(v, b) == NewPeak
    ensures Receive(v, b).peak == Some(b) && Receive(v, b).blocks == v.blocks[b.hash := b]
  {
    hide Chain, PathMap, ValidChain, BodyValid, Indexes, IndexOk;
  }

  /** A block without transactions on a known parent is accepted and becomes the peak. */
  lemma PlainBlockNext(naming: Blocks, es: seq<Event>, b: Block)
    requires Named(naming, es) && b.hash in naming && naming[b.hash] == b
    requires Run(naming, es).peak.Some? && b.hash !in Run(naming, es).blocks
    requires !b.IsTx() && b.height > 0 && b.prevHash in Run(naming, es).blocks
    requires Run(naming, es).blocks[b.prevHash].height + 1 == b.height
    ensures Outcome(Run(naming, es), b) == NewPeak && Named(naming, es + [Received(b)])
    ensures Run(naming, es + [Received(b)]).peak == Some(b)
    ensures Run(naming, es + [Received(b)]).blocks == Run(naming, es).blocks[b.hash := b]
  {
    hide Run, ViewInv, Outcome, After;
    RunNext(naming, es, b);
    PlainAccepted(Run(naming, es), b);
  }

  /** Two blocks on a genesis, then a rival of the first. */
  const G: Block := EmptyGenesis()
  const A1: Block := PlainBlock(2, 1, 1)
  const A2: Block := PlainBlock(3, 2, 2)
  const B1: Block := PlainBlock(4, 1, 1)
  const NAMING: Blocks := map[1 := G, 2 := A1, 3 := A2, 4 := B1]
  const STALE_RUN: seq<Event> := [Received(G)] + [Received(A1)] + [Received(A2)] + [Received(B1)]

  /** The peak moves down to height 1, and the second block is refused as already present in a chain it
      is not on. */
  lemma StaleEntryRun()
    ensures Named(NAMING, STALE_RUN)
    ensures var v := Run(NAMING, STALE_RUN);
      && v.peak == Some(B1) && v.blocks == map[1 := G, 2 := A1, 3 := A2, 4 := B1]
      && InPeakChain(v, A2.hash) && A2 !in PeakChain(v) && Outcome(v, A2) == AlreadyHaveBlock
  {
    hide ValidChain, Acceptable, InPeakChain, Indexes, BodyValid;
    GenesisNext(NAMING);
    var es := [Received(G)];
    PlainBlockNext(NAMING, es, A1);
    PlainBlockNext(NAMING, es + [Received(A1)], A2);
    PlainBlockNext(NAMING, es + [Received(A1)] + [Received(A2)], B1);
    var v := Run(NAMING, es + [Received(A1)] + [Received(A2)]);
    RunNext(NAMING, es + [Received(A1)] + [Received(A2)], B1);
    assert PeakChain(v)[2] == A2;
    LowerPeakLeavesStale(v, B1, 2);
  }

  lemma GenesisNext(naming: Blocks)
    requires 1 in naming && naming[1] == EmptyGenesis()
    ensures Named(naming, [Received(EmptyGenesis())])
    ensures Run(naming, [Received(EmptyGenesis())]).peak == Some(EmptyGenesis())
    ensures Run(naming, [Received(EmptyGenesis())]).blocks == map[1 := EmptyGenesis()]
  {
    var g := EmptyGenesis();
    EmptyGenesisValid();
    hide BodyValid;
    assert [] + [Received(g)] == [Received(g)];
    RunNext(naming, [], g);
    assert Outcome(EMPTY, g) == NewPeak;
  }
}
