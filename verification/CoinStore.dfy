/** The coin store: a table of coin records and a least-recently-used cache in front of it. */
module CoinStores {
  import opened Coins
  import opened Ledger

  /** The records of a rollback's report: the deleted rows, with confirmation height and timestamp zeroed. */
  function DeletedRows(t: CoinTable, f: int): CoinTable
  {
    map x | x in t && t[x].confirmedIndex > f :: t[x].(confirmedIndex := 0, timestamp := 0)
  }

  /** The report names exactly the coins confirmed above the height, each without its confirmation. */
  ghost predicate ReportsDeleted(changes: CoinTable, t: CoinTable, f: int)
  {
    && (forall x :: x in changes <==> x in t && t[x].confirmedIndex > f)
    && (forall x :: x in changes && x in t ==>
          changes[x] == CoinRecord(x, 0, t[x].spentIndex, t[x].spent, t[x].coinbase, 0))
  }

  lemma DeletedAre(t: CoinTable, f: int)
    requires forall x :: x in t ==> t[x].coin == x
    ensures ReportsDeleted(DeletedRows(t, f), t, f)
  {
  }

  /** The cached rows are rows of the table, and each row is the row of its coin. */
  ghost predicate Agrees(cache: CoinTable, t: CoinTable)
  {
    && (forall x :: x in cache ==> x in t && cache[x] == t[x])
    && (forall x :: x in t ==> t[x].coin == x)
  }

  lemma RollbackKeepsCoherent(cache: CoinTable, t: CoinTable, f: int)
    requires Agrees(cache, t)
    ensures Agrees(Rollback(cache, f), Rollback(t, f))
  {
  }

  function KeptRows(t: CoinTable, f: int): CoinTable
  {
    map x | x in t && t[x].confirmedIndex <= f :: t[x]
  }

  function SpendsUndone(t: CoinTable, f: int): CoinTable
  {
    map x | x in t :: if t[x].spentIndex > f then MarkUnspent(t[x]) else t[x]
  }

  /** Deleting and then undoing spends is the rollback; in between nothing is left to report. */
  lemma RollbackSteps(t: CoinTable, f: int)
    ensures SpendsUndone(KeptRows(t, f), f) == Rollback(t, f)
    ensures UnspentRows(KeptRows(t, f), f) + DeletedRows(t, f) == DeletedRows(t, f)
  {
    assert UnspentRows(KeptRows(t, f), f) == map[];
  }

  /** The rows confirmed above a height, as unspent. */
  function UnspentRows(t: CoinTable, f: int): CoinTable
  {
    map x | x in t && t[x].confirmedIndex > f :: MarkUnspent(t[x])
  }

  /** The records of `names` that are spent above a height, as unspent; the rest as they are. */
  function UnspentAmong(t: CoinTable, names: set<Coin>, f: int): CoinTable
  {
    map x | x in t :: if x in names && t[x].spentIndex > f then MarkUnspent(t[x]) else t[x]
  }

  lemma UnspentAmongStep(t: CoinTable, names: seq<Coin>, i: nat, f: int)
    requires i < |names| && names[i] in t
    ensures names[i] in UnspentAmong(t, Elements(names[..i]), f)
    ensures UnspentAmong(t, Elements(names[..i + 1]), f) ==
            if t[names[i]].spentIndex > f
            then UnspentAmong(t, Elements(names[..i]), f)[names[i] := MarkUnspent(t[names[i]])]
            else UnspentAmong(t, Elements(names[..i]), f)
  {
    assert names[..i + 1] == names[..i] + [names[i]];
    assert Elements(names[..i + 1]) == Elements(names[..i]) + {names[i]};
    hide MarkUnspent;
  }

  function SpendAll(t: CoinTable, names: set<Coin>, height: nat): CoinTable
  {
    map x | x in t :: if x in names then MarkSpent(t[x], height) else t[x]
  }

  function Without(s: seq<Coin>, x: Coin): (r: seq<Coin>)
    ensures forall y :: y in r <==> y in s && y != x
    ensures |r| <= |s|
    ensures NoDuplicates(s) ==> NoDuplicates(r)
    ensures NoDuplicates(s) && x in s ==> |r| == |s| - 1
    ensures x !in s ==> r == s
  {
    if s == [] then []
    else
      var front, last := s[..|s| - 1], s[|s| - 1];
      assert s == front + [last];
      var r := Without(front, x);
      if last == x then r else
        assert NoDuplicates(s) ==> last !in front;
        r + [last]
  }

  /** `x` has moved to the end, the others keep their order. */
  predicate IsMostRecent(oldest: seq<Coin>, x: Coin, order: seq<Coin>) { order == Without(oldest, x) + [x] }

  /** Storing makes the key the most recent, and drops the oldest entry exactly when there is no room. */
  predicate IsPut(before: CoinTable, oldest: seq<Coin>, x: Coin, r: CoinRecord, capacity: nat,
                  after: CoinTable, order: seq<Coin>)
  {
    if x in before || |oldest| < capacity then after == before[x := r] && IsMostRecent(oldest, x, order)
    else oldest != [] && after == before[x := r] - {oldest[0]} && order == oldest[1..] + [x]
  }

  lemma MovesToEnd(cache: CoinTable, order: seq<Coin>, x: Coin, r: CoinRecord)
    requires Elements(order) == cache.Keys && NoDuplicates(order)
    ensures var moved := Without(order, x) + [x];
      && Elements(moved) == cache[x := r].Keys && NoDuplicates(moved)
      && |moved| == (if x in cache then |order| else |order| + 1)
      && (x !in cache ==> Without(order, x) == order)
  {
    assert x in cache <==> x in Elements(order);
  }

  lemma DropsOldest(cache: CoinTable, order: seq<Coin>)
    requires Elements(order) == cache.Keys && NoDuplicates(order) && order != []
    ensures Elements(order[1..]) == (cache - {order[0]}).Keys && NoDuplicates(order[1..])
  {
    assert order == [order[0]] + order[1..];
  }

  class CoinStore {
    var table: CoinTable
    var cache: map<Coin, CoinRecord>
    var order: seq<Coin>
    const capacity: nat

    /** Cache keys in order of use, oldest first, and never more than the capacity. */
    ghost predicate CacheValid()
      reads this
    {
      Elements(order) == cache.Keys && NoDuplicates(order) && |order| <= capacity && capacity > 0
    }

    /** Every cached record is its table row, and every row is keyed by its coin. */
    ghost predicate Coherent()
      reads this
    {
      Agrees(cache, table)
    }

    ghost predicate Valid()
      reads this
    {
      CacheValid() && Coherent()
    }

    constructor (cacheSize: nat)
      requires cacheSize > 0
      ensures Valid() && table == map[] && capacity == cacheSize
    {
      table := map[];
      cache := map[];
      order := [];
      capacity := cacheSize;
    }

    // ---- The cache -----------------------------------------------------------------------------

    method CacheGet(x: Coin) returns (r: Option<CoinRecord>)
      requires CacheValid()
      modifies `order
      ensures CacheValid()
      ensures r == if x in cache then Some(cache[x]) else None
      ensures x in cache ==> IsMostRecent(old(order), x, order)
      ensures x !in cache ==> order == old(order)
    {
      if x !in cache { return None; }
      assert x in Elements(order);
      order := Without(order, x) + [x];
      assert Elements(order) == cache.Keys;
      return Some(cache[x]);
    }

    /** Storing may forget the least recently used entry, but only to make room for a new one. */
    method CachePut(x: Coin, r: CoinRecord)
      requires CacheValid()
      modifies `cache, `order
      ensures CacheValid()
      ensures x in cache && cache[x] == r
      ensures forall y :: y in cache && y != x ==> y in old(cache) && cache[y] == old(cache)[y]
      ensures x in old(cache) ==> cache == old(cache)[x := r]
      ensures IsPut(old(cache), old(order), x, r, capacity, cache, order)
    {
      MovesToEnd(cache, order, x, r);
      cache := cache[x := r];
      order := Without(order, x) + [x];
      if |order| > capacity {
        DropsOldest(cache, order);
        cache := cache - {order[0]};
        order := order[1..];
      }
    }

    method CacheRemove(x: Coin)
      requires CacheValid() && x in cache
      modifies `cache, `order
      ensures CacheValid() && cache == old(cache) - {x}
    {
      cache := cache - {x};
      order := Without(order, x);
      assert Elements(order) == cache.Keys;
    }

    // ---- Lookup ----------------------------------------------------------------------------------

    /** Whatever the cache holds, a lookup answers from the table. */
    method GetCoinRecord(x: Coin) returns (r: Option<CoinRecord>)
      requires Valid()
      modifies `cache, `order
      ensures Valid()
      ensures r == if x in table then Some(table[x]) else None
    {
      hide IsPut, IsMostRecent;
      var cached := CacheGet(x);
      if cached.Some? { return cached; }
      if x in table {
        CachePut(x, table[x]);
        return Some(table[x]);
      }
      return None;
    }

    method GetUnspentCoinsBeforeHeight(ph: PuzzleHash, height: nat) returns (coins: set<CoinRecord>)
      requires Valid()
      ensures coins == set x | x in StakedCoins(table, ph, height) :: table[x]
      ensures |coins| == |StakedCoins(table, ph, height)|
    {
      coins := set x | x in table && x.puzzleHash == ph && table[x].confirmedIndex < height
                       && (!table[x].spent || table[x].spentIndex >= height) :: table[x];
      assert coins == set x | x in StakedCoins(table, ph, height) :: table[x];
      RecordsOfRows(table, StakedCoins(table, ph, height));
    }

    // ---- New blocks --------------------------------------------------------------------------------

    /** Cache the records; what else is cached was cached before. */
    method CacheAll(records: seq<CoinRecord>)
      requires CacheValid()
      modifies `cache, `order
      ensures CacheValid()
      ensures forall x :: x in cache ==>
        (x in old(cache) && cache[x] == old(cache)[x])
        || (exists k :: 0 <= k < |records| && records[k].coin == x && records[k] == cache[x])
    {
      hide IsPut, IsMostRecent;
      for i := 0 to |records|
        invariant CacheValid()
        invariant forall x :: x in cache ==>
          (x in old(cache) && cache[x] == old(cache)[x])
          || (exists k :: 0 <= k < i && records[k].coin == x && records[k] == cache[x])
      {
        CachePut(records[i].coin, records[i]);
      }
    }

    /** Insert the rows, or none at all. */
    method InsertRows(records: seq<CoinRecord>) returns (inserted: bool)
      modifies `table
      ensures inserted <==> (set i | 0 <= i < |records| :: records[i].coin) !! old(table).Keys &&
                            (forall i, j :: 0 <= i < j < |records| ==> records[i].coin != records[j].coin)
      ensures inserted ==> table.Keys == old(table).Keys + (set i | 0 <= i < |records| :: records[i].coin)
      ensures inserted ==> forall x :: x in old(table) ==> table[x] == old(table)[x]
      ensures inserted ==> forall i :: 0 <= i < |records| ==> table[records[i].coin] == records[i]
      ensures !inserted ==> table == old(table)
    {
      var before := table;
      for i := 0 to |records|
        invariant table.Keys == before.Keys + (set k | 0 <= k < i :: records[k].coin)
        invariant forall x :: x in before ==> table[x] == before[x]
        invariant forall k :: 0 <= k < i ==> records[k].coin !in before && table[records[k].coin] == records[k]
        invariant forall k, j :: 0 <= k < j < i ==> records[k].coin != records[j].coin
      {
        if records[i].coin in table {
          assert records[i].coin in (set k | 0 <= k < |records| :: records[k].coin);
          table := before;
          return false;
        }
        table := table[records[i].coin := records[i]];
      }
      return true;
    }

    /** `inserted` is false when the primary key would be violated; the table is then as before. */
    method AddCoinRecords(records: seq<CoinRecord>) returns (inserted: bool)
      requires Valid()
      modifies `table, `cache, `order
      ensures inserted <==> (set i | 0 <= i < |records| :: records[i].coin) !! old(table).Keys &&
                            (forall i, j :: 0 <= i < j < |records| ==> records[i].coin != records[j].coin)
      ensures inserted ==> Valid()
      ensures inserted ==> table.Keys == old(table).Keys + (set i | 0 <= i < |records| :: records[i].coin)
      ensures inserted ==> forall x :: x in old(table) ==> table[x] == old(table)[x]
      ensures inserted ==> forall i :: 0 <= i < |records| ==> table[records[i].coin] == records[i]
      ensures !inserted ==> table == old(table)
    {
      CacheAll(records);
      inserted := InsertRows(records);
    }

    method SetSpent(names: seq<Coin>, height: nat)
      requires Valid()
      modifies `table, `cache, `order
      ensures Valid()
      ensures table == SpendAll(old(table), Elements(names), height)
    {
      hide IsPut, IsMostRecent;
      for i := 0 to |names|
        invariant CacheValid() && table == old(table)
        invariant forall x :: x in cache ==>
          x in table && cache[x] == if x in names[..i] then MarkSpent(table[x], height) else table[x]
      {
        assert names[..i + 1] == names[..i] + [names[i]];
        var r := CacheGet(names[i]);
        if r.Some? {
          CachePut(names[i], MarkSpent(r.value, height));
        }
      }
      assert names[..|names|] == names;
      for i := 0 to |names|
        invariant CacheValid()
        invariant table == SpendAll(old(table), Elements(names[..i]), height)
        invariant forall x :: x in cache ==>
          x in table && cache[x] == if x in names then MarkSpent(old(table)[x], height) else old(table)[x]
      {
        assert Elements(names[..i + 1]) == Elements(names[..i]) + {names[i]};
        if names[i] in table {
          table := table[names[i] := MarkSpent(table[names[i]], height)];
        }
      }
    }

    /** Insert a transaction block's coins, then mark its removals spent.  Returns the records added. */
    method NewBlock(height: nat, timestamp: nat, rewards: set<Coin>, additions: seq<Coin>, removals: seq<Coin>)
      returns (added: seq<CoinRecord>, inserted: bool)
      requires Valid()
      requires if height == 0 then |rewards| == 0 else |rewards| >= 2
      modifies `table, `cache, `order
      ensures inserted <==> NoDuplicates(additions) && Elements(additions) !! rewards &&
                            (Elements(additions) + rewards) !! old(table).Keys
      ensures inserted ==> Valid()
      ensures inserted ==> table == ApplyCoins(old(table), height, timestamp, rewards, additions, removals)
      ensures inserted ==> forall i :: 0 <= i < |added| ==>
                added[i] == NewRecord(height, timestamp, additions, added[i].coin)
      ensures inserted ==> (set i | 0 <= i < |added| :: added[i].coin) == Elements(additions) + rewards
      ensures !inserted ==> table == old(table)
    {
      added := BuildRecords(height, timestamp, rewards, additions);
      inserted := AddCoinRecords(added);
      if inserted {
        ghost var middle := table;
        SetSpent(removals, height);
        AppliedRows(old(table), middle, added, height, timestamp, rewards, additions, removals);
      }
    }

    // ---- Rollback ------------------------------------------------------------------------------------

    /** Clear late spends among the cached records; collect the names of those confirmed late. */
    method UnspendCache(blockIndex: int) returns (deleteQueue: seq<Coin>)
      requires CacheValid()
      modifies `cache, `order
      ensures CacheValid() && NoDuplicates(deleteQueue)
      ensures cache == map x | x in old(cache) ::
                if old(cache)[x].spentIndex > blockIndex then MarkUnspent(old(cache)[x]) else old(cache)[x]
      ensures forall x :: x in deleteQueue <==> x in old(cache) && old(cache)[x].confirmedIndex > blockIndex
    {
      hide IsPut, IsMostRecent;
      var names, items := order, cache;
      deleteQueue := [];
      for i := 0 to |names|
        invariant CacheValid()
        invariant cache == UnspentAmong(items, Elements(names[..i]), blockIndex)
        invariant NoDuplicates(deleteQueue)
        invariant forall x :: x in deleteQueue <==>
          x in names[..i] && x in items && items[x].confirmedIndex > blockIndex
      {
        assert names[..i + 1] == names[..i] + [names[i]];
        assert names[i] in Elements(names) && names[i] !in names[..i];
        UnspentAmongStep(items, names, i, blockIndex);
        hide UnspentAmong, MarkUnspent;
        var r := items[names[i]];
        if r.spentIndex > blockIndex {
          CachePut(names[i], MarkUnspent(r));
        }
        if r.confirmedIndex > blockIndex {
          deleteQueue := deleteQueue + [names[i]];
        }
      }
      assert names[..|names|] == names;
    }

    method RollbackCache(blockIndex: int)
      requires CacheValid()
      modifies `cache, `order
      ensures CacheValid() && cache == Rollback(old(cache), blockIndex)
    {
      var deleteQueue := UnspendCache(blockIndex);
      ghost var swept := cache;
      for i := 0 to |deleteQueue|
        invariant CacheValid()
        invariant forall x :: x in cache <==> x in swept && x !in deleteQueue[..i]
        invariant forall x :: x in cache ==> cache[x] == swept[x]
      {
        assert deleteQueue[..i + 1] == deleteQueue[..i] + [deleteQueue[i]];
        CacheRemove(deleteQueue[i]);
      }
      assert deleteQueue[..|deleteQueue|] == deleteQueue;
      assert forall x :: x in cache <==> x in Rollback(old(cache), blockIndex);
    }

    /** Undo everything above `blockIndex`, in the cache and in the table.  The second selection
        runs after the deletion with the same condition, so the report is the deleted rows only. */
    method RollbackToBlock(blockIndex: int) returns (changes: CoinTable)
      requires Valid()
      modifies `table, `cache, `order
      ensures Valid()
      ensures table == Rollback(old(table), blockIndex)
      ensures changes == DeletedRows(old(table), blockIndex)
      ensures ReportsDeleted(changes, old(table), blockIndex)
    {
      DeletedAre(table, blockIndex);
      RollbackKeepsCoherent(cache, table, blockIndex);
      RollbackSteps(table, blockIndex);
      hide Agrees, ReportsDeleted, DeletedRows, UnspentRows, Rollback, KeptRows, SpendsUndone;
      RollbackCache(blockIndex);
      changes := DeletedRows(table, blockIndex);
      table := KeptRows(table, blockIndex);
      changes := UnspentRows(table, blockIndex) + changes;
      table := SpendsUndone(table, blockIndex);
    }
  }

  /** The unspent records of a block's coins: generator outputs first, then the reward coins. */
  method BuildRecords(height: nat, timestamp: nat, rewards: set<Coin>, additions: seq<Coin>)
    returns (added: seq<CoinRecord>)
    ensures (set i | 0 <= i < |added| :: added[i].coin) == Elements(additions) + rewards
    ensures (forall i, j :: 0 <= i < j < |added| ==> added[i].coin != added[j].coin) <==>
            NoDuplicates(additions) && Elements(additions) !! rewards
    ensures Elements(additions) !! rewards ==> forall i :: 0 <= i < |added| ==>
              added[i] == NewRecord(height, timestamp, additions, added[i].coin)
  {
    added := [];
    for i := 0 to |additions|
      invariant |added| == i
      invariant forall k :: 0 <= k < i ==> added[k] == CoinRecord(additions[k], height, 0, false, false, timestamp)
    {
      added := added + [CoinRecord(additions[i], height, 0, false, false, timestamp)];
    }
    var rewardList := ListCoins(rewards);
    for i := 0 to |rewardList|
      invariant |added| == |additions| + i
      invariant forall k :: 0 <= k < |additions| ==>
        added[k] == CoinRecord(additions[k], height, 0, false, false, timestamp)
      invariant forall k :: |additions| <= k < |additions| + i ==>
        added[k] == CoinRecord(rewardList[k - |additions|], height, 0, false, true, timestamp)
    {
      added := added + [CoinRecord(rewardList[i], height, 0, false, true, timestamp)];
    }
    DistinctParts(additions, rewardList);
    NamesOfRecords(added, additions + rewardList);
    assert forall k :: |additions| <= k < |added| ==> added[k].coin in Elements(rewardList);
  }

  /** A set's coins, in some order. */
  method ListCoins(coins: set<Coin>) returns (list: seq<Coin>)
    ensures NoDuplicates(list) && Elements(list) == coins
  {
    list := [];
    var rest := coins;
    while rest != {}
      invariant NoDuplicates(list) && rest <= coins
      invariant forall x :: x in list <==> x in coins - rest
      decreases |rest|
    {
      var coin :| coin in rest;
      assert coin !in list;
      list := list + [coin];
      rest := rest - {coin};
    }
  }

  lemma DistinctParts(a: seq<Coin>, b: seq<Coin>)
    requires NoDuplicates(b)
    ensures NoDuplicates(a + b) <==> NoDuplicates(a) && Elements(a) !! Elements(b)
    ensures Elements(a + b) == Elements(a) + Elements(b)
  {
    var s := a + b;
    if NoDuplicates(s) {
      forall i, j | 0 <= i < j < |a| ensures a[i] != a[j] { assert s[i] != s[j]; }
      forall i, j | 0 <= i < |a| && 0 <= j < |b| ensures a[i] != b[j] { assert s[i] != s[|a| + j]; }
    }
    if NoDuplicates(a) && Elements(a) !! Elements(b) {
      forall i, j | 0 <= i < j < |s| ensures s[i] != s[j] {
        if i < |a| <= j { assert s[i] in Elements(a) && s[j] in Elements(b); }
      }
    }
  }

  lemma NamesOfRecords(records: seq<CoinRecord>, names: seq<Coin>)
    requires |records| == |names| && forall i :: 0 <= i < |names| ==> records[i].coin == names[i]
    ensures (set i | 0 <= i < |records| :: records[i].coin) == Elements(names)
    ensures (forall i, j :: 0 <= i < j < |records| ==> records[i].coin != records[j].coin) <==> NoDuplicates(names)
  {
    forall x ensures x in (set i | 0 <= i < |records| :: records[i].coin) <==> x in Elements(names) {
      if x in names {
        var i :| 0 <= i < |names| && names[i] == x;
        assert records[i].coin == x;
      }
    }
  }

  lemma AppliedRows(before: CoinTable, middle: CoinTable, added: seq<CoinRecord>, height: nat, timestamp: nat,
                    rewards: set<Coin>, additions: seq<Coin>, removals: seq<Coin>)
    requires middle.Keys == before.Keys + (set i | 0 <= i < |added| :: added[i].coin)
    requires (set i | 0 <= i < |added| :: added[i].coin) == Elements(additions) + rewards
    requires Elements(additions) !! rewards && (Elements(additions) + rewards) !! before.Keys
    requires forall x :: x in before ==> middle[x] == before[x]
    requires forall i :: 0 <= i < |added| ==> middle[added[i].coin] == added[i]
    requires forall i :: 0 <= i < |added| ==>
      added[i] == CoinRecord(added[i].coin, height, 0, false, added[i].coin !in additions, timestamp)
    ensures SpendAll(middle, Elements(removals), height) ==
            ApplyCoins(before, height, timestamp, rewards, additions, removals)
  {
    var after := ApplyCoins(before, height, timestamp, rewards, additions, removals);
    forall x | x in middle
      ensures middle[x] == if x in before then before[x] else NewRecord(height, timestamp, additions, x)
    {
      if x !in before {
        var i :| 0 <= i < |added| && added[i].coin == x;
      }
    }
    assert after.Keys == middle.Keys;
  }

  lemma RecordsOfRows(t: CoinTable, s: set<Coin>)
    requires s <= t.Keys
    requires forall x :: x in t ==> t[x].coin == x
    ensures |set x | x in s :: t[x]| == |s|
  {
    var r := set x | x in s :: t[x];
    if s == {} {
      assert r == {};
    } else {
      var x :| x in s;
      RecordsOfRows(t, s - {x});
      assert r == (set y | y in s - {x} :: t[y]) + {t[x]};
    }
  }
}
