/** The block store: full blocks, and block-record rows of which one is flagged as the peak. */
module BlockStores {
  import opened Coins
  import opened BlockTree
  import opened ChainState

  datatype Row = Row(block: Block, isPeak: bool)

  class BlockStore {
    var fullBlocks: Blocks
    var rows: map<Hash, Row>

    ghost predicate Valid()
      reads this
    {
      rows.Keys == fullBlocks.Keys && forall h :: h in rows ==> rows[h].block == fullBlocks[h]
    }

    ghost predicate PeakIs(peak: Option<Block>)
      reads this
    {
      forall h :: h in rows ==> (rows[h].isPeak <==> peak.Some? && peak.value.hash == h)
    }

    constructor ()
      ensures Valid() && fullBlocks == map[] && PeakIs(None)
    {
      fullBlocks := map[];
      rows := map[];
    }

    /** Replaces whatever row the hash had; the new row is not flagged as peak. */
    method AddFullBlock(b: Block)
      requires Valid()
      modifies this
      ensures Valid() && fullBlocks == old(fullBlocks)[b.hash := b]
      ensures rows == old(rows)[b.hash := Row(b, false)]
    {
      fullBlocks := fullBlocks[b.hash := b];
      rows := rows[b.hash := Row(b, false)];
    }

    method SetPeak(hash: Hash)
      requires Valid() && hash in fullBlocks && fullBlocks[hash].hash == hash
      modifies `rows
      ensures Valid() && PeakIs(Some(fullBlocks[hash]))
    {
      rows := map h | h in rows :: if rows[h].isPeak then rows[h].(isPeak := false) else rows[h];
      rows := map h | h in rows :: if h == hash then rows[h].(isPeak := true) else rows[h];
    }

    /** The block of the flagged row. */
    method PeakRow(ghost peak: Option<Block>) returns (block: Option<Block>)
      requires Valid() && PeakIs(peak) && PeakKnown(fullBlocks, peak)
      ensures block == peak
    {
      var flagged := set h | h in rows && rows[h].isPeak;
      assert peak.Some? ==> peak.value.hash in flagged;
      if flagged == {} { return None; }
      var hash :| hash in flagged;
      return Some(rows[hash].block);
    }

    /** Walk back from the flagged row, rebuilding the height index and the summaries of its path. */
    method GetPeakHeightDicts(ghost peak: Option<Block>)
      returns (heightToHash: map<nat, Hash>, summaries: map<nat, Summary>)
      requires Valid() && WellFormed(fullBlocks) && PeakIs(peak)
      requires PeakKnown(fullBlocks, peak)
      ensures heightToHash == PathMap(ChainTo(fullBlocks, peak))
      ensures summaries == SummaryMap(ChainTo(fullBlocks, peak))
    {
      heightToHash, summaries := map[], map[];
      var row := PeakRow(peak);
      if row.Some? {
        ChainIsLinked(fullBlocks, row.value);
        heightToHash, summaries := WalkBack(row.value.hash, Chain(fullBlocks, row.value));
      }
    }

    method WalkBack(peakHash: Hash, ghost c: seq<Block>)
      returns (heightToHash: map<nat, Hash>, summaries: map<nat, Summary>)
      requires Valid() && Linked(fullBlocks, c)
      requires forall i :: 0 <= i < |c| ==> c[i].hash in fullBlocks && fullBlocks[c[i].hash] == c[i]
      requires c != [] && c[|c| - 1].hash == peakHash
      ensures heightToHash == PathMap(c) && summaries == SummaryMap(c)
    {
      heightToHash, summaries := map[], map[];
      var hash := peakHash;
      var height: nat := rows[hash].block.height;
      while true
        invariant hash in rows && height < |c| && rows[hash].block == c[height] && c[height].hash == hash
        invariant forall i: nat :: i in heightToHash <==> height < i < |c|
        invariant forall i :: i in heightToHash ==> heightToHash[i] == c[i].hash
        invariant forall i: nat :: i in summaries <==> height < i < |c| && c[i].summary.Some?
        invariant forall i :: i in summaries ==> summaries[i] == c[i].summary.value
        decreases height
      {
        heightToHash := heightToHash[height := hash];
        if rows[hash].block.summary.Some? {
          summaries := summaries[height := rows[hash].block.summary.value];
        }
        if height == 0 { break; }
        assert ParentAt(fullBlocks, c, height);
        hash := rows[hash].block.prevHash;
        height := rows[hash].block.height;
      }
    }
  }
}
