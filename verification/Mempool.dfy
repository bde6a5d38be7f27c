/** The mempool: pending spends, indexed four ways and bounded in total cost. */
module Mempools {
  import opened Coins

  datatype Item = Item(name: nat, fee: nat, cost: nat, additions: seq<Coin>, removals: seq<Coin>)
  {
    predicate Ok() { cost > 0 && NoDuplicates(additions) && NoDuplicates(removals) }

    function Rate(): real
      requires cost > 0
    {
      fee as real / cost as real
    }
  }

  /** The items of one fee per cost, in the order they came. */
  datatype Bucket = Bucket(rate: real, items: seq<Item>)

  /** All items in the order in which they would be evicted. */
  function Flat(s: seq<Bucket>): seq<Item>
  {
    if s == [] then [] else s[0].items + Flat(s[1..])
  }

  predicate Distinct(items: seq<Item>)
  {
    forall i, j :: 0 <= i < j < |items| ==> items[i].name != items[j].name
  }

  predicate BucketOk(b: Bucket)
  {
    b.items != [] && forall x :: x in b.items ==> x.Ok() && x.Rate() == b.rate
  }

  predicate Sorted(s: seq<Bucket>)
  {
    && (forall i :: 0 <= i < |s| ==> BucketOk(s[i]))
    && (forall i, j :: 0 <= i < j < |s| ==> s[i].rate < s[j].rate)
  }

  function SumCost(items: seq<Item>): nat
  {
    if items == [] then 0 else items[0].cost + SumCost(items[1..])
  }

  // ---- The sorted dictionary -----------------------------------------------------------------------------

  function WithoutName(items: seq<Item>, name: nat): seq<Item>
  {
    if items == [] then []
    else if items[0].name == name then WithoutName(items[1..], name)
    else [items[0]] + WithoutName(items[1..], name)
  }

  /** Delete an item from its bucket, and the bucket when it is empty. */
  function Drop(s: seq<Bucket>, rate: real, name: nat): seq<Bucket>
  {
    if s == [] then []
    else if s[0].rate == rate then
      var items := WithoutName(s[0].items, name);
      if items == [] then s[1..] else [Bucket(rate, items)] + s[1..]
    else [s[0]] + Drop(s[1..], rate, name)
  }

  /** Append an item to its bucket, making one in its place if there is none. */
  function Put(s: seq<Bucket>, rate: real, item: Item): seq<Bucket>
  {
    if s == [] || rate < s[0].rate then [Bucket(rate, [item])] + s
    else if s[0].rate == rate then [Bucket(rate, s[0].items + [item])] + s[1..]
    else [s[0]] + Put(s[1..], rate, item)
  }

  lemma {:induction false} WithoutMembers(items: seq<Item>, name: nat)
    ensures forall x :: x in WithoutName(items, name) <==> x in items && x.name != name
  {
    if items != [] { WithoutMembers(items[1..], name); }
  }

  lemma {:induction false} WithoutAbsent(items: seq<Item>, name: nat)
    requires forall x :: x in items ==> x.name != name
    ensures WithoutName(items, name) == items
  {
    if items != [] { WithoutAbsent(items[1..], name); }
  }

  lemma {:induction false} WithoutConcat(a: seq<Item>, b: seq<Item>, name: nat)
    ensures WithoutName(a + b, name) == WithoutName(a, name) + WithoutName(b, name)
  {
    if a == [] {
      assert a + b == b;
    } else {
      WithoutConcat(a[1..], b, name);
      assert (a + b)[1..] == a[1..] + b;
    }
  }

  lemma {:induction false} FlatMembers(s: seq<Bucket>, x: Item)
    ensures x in Flat(s) <==> exists i :: 0 <= i < |s| && x in s[i].items
  {
    if s != [] {
      FlatMembers(s[1..], x);
      if x in Flat(s[1..]) {
        var i :| 0 <= i < |s[1..]| && x in s[1..][i].items;
        assert x in s[i + 1].items;
      }
      if i :| 0 <= i < |s| && x in s[i].items && i > 0 { assert x in s[1..][i - 1].items; }
    }
  }

  lemma SortedTail(s: seq<Bucket>)
    requires Sorted(s) && s != []
    ensures Sorted(s[1..])
  {
  }

  lemma {:induction false} RatesIn(s: seq<Bucket>, x: Item)
    requires Sorted(s) && x in Flat(s)
    ensures x.Ok() && s != [] && s[0].rate <= x.Rate()
    ensures x.Rate() == s[0].rate ==> x in s[0].items
  {
    FlatMembers(s, x);
    var i :| 0 <= i < |s| && x in s[i].items;
    assert BucketOk(s[i]);
  }

  /** Dropping an item removes exactly it from the eviction order. */
  lemma {:induction false} DropFlat(s: seq<Bucket>, item: Item)
    requires Sorted(s) && Distinct(Flat(s)) && item in Flat(s) && item.Ok()
    ensures Flat(Drop(s, item.Rate(), item.name)) == WithoutName(Flat(s), item.name)
  {
    var rest := Flat(s[1..]);
    RatesIn(s, item);
    WithoutConcat(s[0].items, rest, item.name);
    if s[0].rate == item.Rate() {
      assert item in s[0].items;
      forall x | x in rest ensures x.name != item.name { NamesApart(s[0].items, rest, item, x); }
      WithoutAbsent(rest, item.name);
      var items := WithoutName(s[0].items, item.name);
      if items == [] {
        assert Flat(s[1..]) == rest;
      } else {
        var t := [Bucket(item.Rate(), items)] + s[1..];
        assert t[1..] == s[1..];
      }
    } else {
      SortedTail(s);
      assert item !in s[0].items by { assert BucketOk(s[0]); }
      forall x | x in s[0].items ensures x.name != item.name { NamesApart(s[0].items, rest, x, item); }
      WithoutAbsent(s[0].items, item.name);
      DistinctTail(s[0].items, rest);
      DropFlat(s[1..], item);
      var t := [s[0]] + Drop(s[1..], item.Rate(), item.name);
      assert t[1..] == Drop(s[1..], item.Rate(), item.name);
    }
  }

  lemma NamesApart(a: seq<Item>, b: seq<Item>, x: Item, y: Item)
    requires Distinct(a + b) && x in a && y in b
    ensures x.name != y.name
  {
    var i :| 0 <= i < |a| && a[i] == x;
    var j :| 0 <= j < |b| && b[j] == y;
    assert (a + b)[i] == x && (a + b)[|a| + j] == y;
  }

  lemma DistinctTail(a: seq<Item>, b: seq<Item>)
    requires Distinct(a + b)
    ensures Distinct(b)
  {
    forall i, j | 0 <= i < j < |b| ensures b[i].name != b[j].name {
      assert (a + b)[|a| + i] == b[i] && (a + b)[|a| + j] == b[j];
    }
  }

  predicate Above(s: seq<Bucket>, low: real) { forall i :: 0 <= i < |s| ==> low < s[i].rate }

  lemma ConsSorted(b: Bucket, s: seq<Bucket>)
    requires BucketOk(b) && Sorted(s) && Above(s, b.rate)
    ensures Sorted([b] + s)
  {
  }

  lemma {:induction false} DropAbove(s: seq<Bucket>, rate: real, name: nat, low: real)
    requires Above(s, low)
    ensures Above(Drop(s, rate, name), low)
  {
    if s != [] && s[0].rate != rate { DropAbove(s[1..], rate, name, low); }
  }

  lemma {:induction false} DropSorted(s: seq<Bucket>, rate: real, name: nat)
    requires Sorted(s)
    ensures Sorted(Drop(s, rate, name))
  {
    if s != [] {
      SortedTail(s);
      assert BucketOk(s[0]) && Above(s[1..], s[0].rate);
      hide Sorted, Above;
      if s[0].rate == rate {
        var items := WithoutName(s[0].items, name);
        WithoutMembers(s[0].items, name);
        if items != [] { ConsSorted(Bucket(rate, items), s[1..]); }
      } else {
        DropSorted(s[1..], rate, name);
        DropAbove(s[1..], rate, name, s[0].rate);
        ConsSorted(s[0], Drop(s[1..], rate, name));
      }
    }
  }

  // ---- Insertion ---------------------------------------------------------------------------------------------

  predicate AllOk(items: seq<Item>) { forall x :: x in items ==> x.Ok() }

  /** Insert after every item that pays no more per cost. */
  function Insert(items: seq<Item>, item: Item): seq<Item>
    requires AllOk(items) && item.Ok()
  {
    assert items != [] ==> items[0] in items;
    if items == [] || item.Rate() < items[0].Rate() then [item] + items
    else [items[0]] + Insert(items[1..], item)
  }

  lemma {:induction false} InsertSkips(a: seq<Item>, b: seq<Item>, item: Item)
    requires AllOk(a + b) && AllOk(b) && item.Ok()
    requires forall x :: x in a ==> x.Ok() && x.Rate() <= item.Rate()
    ensures Insert(a + b, item) == a + Insert(b, item)
  {
    if a == [] {
      assert a + b == b;
    } else {
      assert (a + b)[1..] == a[1..] + b;
      InsertSkips(a[1..], b, item);
    }
  }

  lemma {:induction false} InsertMembers(items: seq<Item>, item: Item)
    requires AllOk(items) && item.Ok()
    ensures forall x :: x in Insert(items, item) <==> x in items || x == item
    ensures SumCost(Insert(items, item)) == SumCost(items) + item.cost
  {
    assert items != [] ==> items[0] in items;
    if items == [] || item.Rate() < items[0].Rate() {
      assert ([item] + items)[1..] == items;
    } else {
      InsertMembers(items[1..], item);
      assert Insert(items, item)[1..] == Insert(items[1..], item);
    }
  }

  lemma {:induction false} InsertDistinct(items: seq<Item>, item: Item)
    requires AllOk(items) && item.Ok() && Distinct(items) && forall x :: x in items ==> x.name != item.name
    ensures Distinct(Insert(items, item))
  {
    assert items != [] ==> items[0] in items;
    if items != [] && item.Rate() >= items[0].Rate() {
      var rest := Insert(items[1..], item);
      InsertDistinct(items[1..], item);
      InsertMembers(items[1..], item);
      forall x | x in rest ensures x.name != items[0].name {
        if x in items[1..] {
          var i :| 0 <= i < |items[1..]| && items[1..][i] == x;
          assert items[i + 1] == x;
        }
      }
    }
  }

  lemma FlatOk(s: seq<Bucket>)
    requires Sorted(s)
    ensures AllOk(Flat(s))
  {
    forall x | x in Flat(s) ensures x.Ok() { RatesIn(s, x); }
  }

  /** Putting an item in its bucket inserts it after every item that pays no more. */
  lemma {:induction false} PutFlat(s: seq<Bucket>, item: Item)
    requires Sorted(s) && item.Ok()
    ensures AllOk(Flat(s)) && Flat(Put(s, item.Rate(), item)) == Insert(Flat(s), item)
  {
    FlatOk(s);
    var rate := item.Rate();
    if s == [] || rate < s[0].rate {
      var t := [Bucket(rate, [item])] + s;
      assert t[1..] == s;
      if s != [] {
        assert BucketOk(s[0]) && s[0].items[0] in s[0].items;
        assert Flat(s)[0] == s[0].items[0];
      }
    } else {
      SortedTail(s);
      FlatOk(s[1..]);
      assert BucketOk(s[0]);
      InsertSkips(s[0].items, Flat(s[1..]), item);
      PutFlat(s[1..], item);
      var t := Put(s, rate, item);
      if s[0].rate == rate {
        assert t[1..] == s[1..];
        PutAtFront(s[1..], item);
        assert s[0].items + [item] + Flat(s[1..]) == s[0].items + ([item] + Flat(s[1..]));
      } else {
        assert t[1..] == Put(s[1..], rate, item);
      }
    }
  }

  lemma PutAtFront(s: seq<Bucket>, item: Item)
    requires Sorted(s) && item.Ok() && AllOk(Flat(s)) && (s != [] ==> item.Rate() < s[0].rate)
    ensures Insert(Flat(s), item) == [item] + Flat(s)
  {
    if s != [] {
      assert BucketOk(s[0]) && s[0].items[0] in s[0].items;
      assert Flat(s)[0] == s[0].items[0];
    }
  }

  lemma {:induction false} PutAbove(s: seq<Bucket>, rate: real, item: Item, low: real)
    requires Above(s, low) && low < rate
    ensures Above(Put(s, rate, item), low)
  {
    if s != [] && s[0].rate < rate { PutAbove(s[1..], rate, item, low); }
  }

  lemma {:induction false} PutSorted(s: seq<Bucket>, item: Item)
    requires Sorted(s) && item.Ok()
    ensures Sorted(Put(s, item.Rate(), item))
  {
    var rate := item.Rate();
    assert s != [] ==> BucketOk(s[0]) && Above(s[1..], s[0].rate);
    if s == [] || rate < s[0].rate {
      assert Above(s, rate);
      ConsSorted(Bucket(rate, [item]), s);
    } else {
      SortedTail(s);
      hide Sorted, Above;
      if s[0].rate == rate {
        ConsSorted(Bucket(rate, s[0].items + [item]), s[1..]);
      } else {
        PutSorted(s[1..], item);
        PutAbove(s[1..], rate, item, s[0].rate);
        ConsSorted(s[0], Put(s[1..], rate, item));
      }
    }
  }

  /** The rate times the cost is the fee, and two rates compare as fees do across costs. */
  lemma RateIs(x: Item, y: Item)
    requires x.Ok() && y.Ok()
    ensures x.Rate() * x.cost as real == x.fee as real
    ensures x.Rate() <= y.Rate() <==> x.fee * y.cost <= y.fee * x.cost
  {
    RatesCompare(x.fee as real, x.cost as real, y.fee as real, y.cost as real);
    assert (x.fee * y.cost) as real == x.fee as real * y.cost as real;
    assert (y.fee * x.cost) as real == y.fee as real * x.cost as real;
  }

  lemma RatesCompare(a: real, b: real, c: real, d: real)
    requires b > 0.0 && d > 0.0
    ensures a / b * b == a && (a / b <= c / d <==> a * d <= c * b)
  {
    var p, q := a / b, c / d;
    assert a == p * b && c == q * d;
    assert a * d == p * (b * d) && c * b == q * (b * d);
    assert b * d > 0.0;
    if p <= q { assert (q - p) * (b * d) >= 0.0; } else { assert (p - q) * (b * d) > 0.0; }
  }

  /** The eviction order is ascending in fee per cost. */
  lemma {:induction false} EvictsCheapestFirst(s: seq<Bucket>, i: nat, j: nat)
    requires Sorted(s) && i <= j < |Flat(s)|
    ensures Flat(s)[i].Ok() && Flat(s)[j].Ok() && Flat(s)[i].Rate() <= Flat(s)[j].Rate()
    ensures Flat(s)[i].fee * Flat(s)[j].cost <= Flat(s)[j].fee * Flat(s)[i].cost
    decreases s
  {
    var a, b := s[0].items, Flat(s[1..]);
    FlatOk(s);
    assert Flat(s)[i] in Flat(s) && Flat(s)[j] in Flat(s);
    SortedTail(s);
    assert BucketOk(s[0]);
    if i >= |a| {
      EvictsCheapestFirst(s[1..], i - |a|, j - |a|);
    } else {
      assert Flat(s)[i] in a;
      RatesIn(s, Flat(s)[j]);
    }
    RateIs(Flat(s)[i], Flat(s)[j]);
  }

  predicate PaysNoMore(x: Item, y: Item) { x.Ok() && y.Ok() && x.fee * y.cost <= y.fee * x.cost }

  /** An inserted item comes after a prefix of items that pay no more per cost, and right before one
      that pays more. */
  lemma {:induction false} InsertSplits(items: seq<Item>, item: Item) returns (n: nat)
    requires AllOk(items) && item.Ok()
    ensures n <= |items| && Insert(items, item) == items[..n] + [item] + items[n..]
    ensures forall i :: 0 <= i < n ==> PaysNoMore(items[i], item)
    ensures n < |items| ==> !PaysNoMore(items[n], item)
  {
    assert items != [] ==> items[0] in items;
    if items != [] { RateIs(items[0], item); }
    hide Item.Rate, Item.Ok;
    assert items != [] ==> (PaysNoMore(items[0], item) <==> items[0].Rate() <= item.Rate());
    hide PaysNoMore;
    if items == [] || !PaysNoMore(items[0], item) {
      n := 0;
    } else {
      var rest := items[1..];
      n := InsertSplits(rest, item);
      assert items[..n + 1] == [items[0]] + rest[..n];
      assert items[n + 1..] == rest[n..];
      n := n + 1;
    }
  }

  // ---- Eviction -----------------------------------------------------------------------------------------------

  /** How many items, from the front, make room for `cost`. */
  function Victims(items: seq<Item>, cost: nat, limit: nat): (n: nat)
    ensures n <= |items|
  {
    if items == [] || SumCost(items) + cost <= limit then 0 else 1 + Victims(items[1..], cost, limit)
  }

  /** The victims are the shortest prefix that makes room; it exists when the cost is within the
      limit. */
  lemma {:induction false} VictimsAreShortest(items: seq<Item>, cost: nat, limit: nat, m: nat)
    requires m <= |items|
    ensures m < Victims(items, cost, limit) ==> SumCost(items[m..]) + cost > limit
    ensures cost <= limit ==> SumCost(items[Victims(items, cost, limit)..]) + cost <= limit
    decreases items
  {
    if items != [] && SumCost(items) + cost > limit {
      VictimsAreShortest(items[1..], cost, limit, if m == 0 then 0 else m - 1);
      var n := Victims(items[1..], cost, limit);
      assert items[1..][n..] == items[n + 1..];
      if m > 0 { assert items[1..][m - 1..] == items[m..]; }
      assert items[0..] == items;
    }
  }

  lemma {:induction false} SumWithout(items: seq<Item>, x: Item)
    requires Distinct(items) && x in items
    ensures SumCost(WithoutName(items, x.name)) == SumCost(items) - x.cost
    ensures Distinct(WithoutName(items, x.name))
  {
    var rest := items[1..];
    assert items == [items[0]] + rest;
    WithoutMembers(rest, x.name);
    if items[0] == x {
      forall y | y in rest ensures y.name != x.name { NamesApart([x], rest, x, y); }
      WithoutAbsent(rest, x.name);
    } else {
      NamesApart([items[0]], rest, items[0], x);
      SumWithout(rest, x);
      var w := WithoutName(rest, x.name);
      assert WithoutName(items, x.name) == [items[0]] + w;
      assert ([items[0]] + w)[1..] == w;
      forall y | y in w ensures y.name != items[0].name { NamesApart([items[0]], rest, items[0], y); }
    }
  }

  lemma WithoutFirst(items: seq<Item>)
    requires Distinct(items) && items != []
    ensures WithoutName(items, items[0].name) == items[1..]
  {
    forall y | y in items[1..] ensures y.name != items[0].name {
      assert items == [items[0]] + items[1..];
      NamesApart([items[0]], items[1..], items[0], y);
    }
    WithoutAbsent(items[1..], items[0].name);
  }

  // ---- The indexes ----------------------------------------------------------------------------------------------

  /** The coins an item appears under in the additions or in the removals. */
  function CoinsOf(x: Item, added: bool): seq<Coin> { if added then x.additions else x.removals }

  predicate NamesIndexed(items: set<Item>, index: map<nat, Item>)
  {
    && (forall x :: x in items ==> x.name in index && index[x.name] == x)
    && (forall n :: n in index ==> index[n] in items && index[n].name == n)
  }

  /** Exactly the coins of the items are indexed, each under its one item: no two items conflict. */
  predicate CoinsIndexed(items: set<Item>, index: map<Coin, Item>, added: bool)
  {
    && (forall x, c :: x in items && c in CoinsOf(x, added) ==> c in index && index[c] == x)
    && (forall c :: c in index ==> index[c] in items && c in CoinsOf(index[c], added))
  }

  method DeleteCoins(index: map<Coin, Item>, coins: seq<Coin>) returns (r: map<Coin, Item>)
    requires NoDuplicates(coins) && forall c :: c in coins ==> c in index
    ensures r == index - Elements(coins)
  {
    r := index;
    for i := 0 to |coins|
      invariant r == index - Elements(coins[..i])
    {
      assert coins[..i + 1] == coins[..i] + [coins[i]];
      r := r - {coins[i]};
    }
    assert coins[..|coins|] == coins;
  }

  method SetCoins(index: map<Coin, Item>, coins: seq<Coin>, item: Item) returns (r: map<Coin, Item>)
    ensures r == index + map c | c in Elements(coins) :: item
  {
    r := index;
    for i := 0 to |coins|
      invariant r == index + map c | c in Elements(coins[..i]) :: item
    {
      assert coins[..i + 1] == coins[..i] + [coins[i]];
      r := r[coins[i] := item];
    }
    assert coins[..|coins|] == coins;
  }

  lemma DeleteKeepsCoins(items: set<Item>, index: map<Coin, Item>, added: bool, x: Item)
    requires CoinsIndexed(items, index, added) && x in items
    ensures CoinsIndexed(items - {x}, index - Elements(CoinsOf(x, added)), added)
  {
    var deleted := Elements(CoinsOf(x, added));
    hide CoinsOf;
    forall y, c | y in items - {x} && c in CoinsOf(y, added) ensures c !in deleted {
      assert index[c] == y;
    }
  }

  lemma SetKeepsCoins(items: set<Item>, index: map<Coin, Item>, added: bool, x: Item)
    requires CoinsIndexed(items, index, added)
    requires forall c :: c in CoinsOf(x, added) ==> c !in index
    ensures CoinsIndexed(items + {x}, index + map c | c in Elements(CoinsOf(x, added)) :: x, added)
  {
    hide CoinsOf;
    var more := map c | c in Elements(CoinsOf(x, added)) :: x;
    forall y, c | y in items + {x} && c in CoinsOf(y, added) ensures c in index + more && (index + more)[c] == y {
      if y != x { assert index[c] == y; }
    }
    forall c | c in index + more ensures (index + more)[c] in items + {x} && c in CoinsOf((index + more)[c], added) {
      if c !in more { assert index[c] in items; }
    }
  }

  /** Removing by name removes the one item. */
  lemma MembersWithout(items: seq<Item>, x: Item)
    requires Distinct(items) && x in items
    ensures x in Elements(items) && Elements(WithoutName(items, x.name)) == Elements(items) - {x}
  {
    WithoutMembers(items, x.name);
    forall y | y in items && y != x ensures y.name != x.name {
      var i, j :| 0 <= i < |items| && 0 <= j < |items| && items[i] == x && items[j] == y;
    }
  }

  lemma MembersInsert(items: seq<Item>, x: Item)
    requires AllOk(items) && x.Ok()
    ensures Elements(Insert(items, x)) == Elements(items) + {x}
  {
    InsertMembers(items, x);
  }

  lemma DeleteKeepsNames(items: set<Item>, index: map<nat, Item>, x: Item)
    requires NamesIndexed(items, index) && x in items
    ensures NamesIndexed(items - {x}, index - {x.name})
  {
  }

  lemma CoinsPresent(items: set<Item>, index: map<Coin, Item>, added: bool, x: Item)
    requires CoinsIndexed(items, index, added) && x in items
    ensures forall c :: c in CoinsOf(x, added) ==> c in index
  {
  }

  // ---- The pool ---------------------------------------------------------------------------------------------------

  /** The four indexes hold the same items, and the total is their cost. */
  predicate Consistent(sorted: seq<Bucket>, spends: map<nat, Item>, additions: map<Coin, Item>,
                       removals: map<Coin, Item>, total: int)
  {
    && Sorted(sorted) && Distinct(Flat(sorted))
    && NamesIndexed(Elements(Flat(sorted)), spends)
    && CoinsIndexed(Elements(Flat(sorted)), additions, true)
    && CoinsIndexed(Elements(Flat(sorted)), removals, false)
    && total == SumCost(Flat(sorted))
  }

  /** What a lookup in the name, addition and removal index answers. */
  lemma IndexesAnswer(sorted: seq<Bucket>, spends: map<nat, Item>, additions: map<Coin, Item>,
                      removals: map<Coin, Item>, total: int, x: Item)
    requires Consistent(sorted, spends, additions, removals, total)
    ensures forall n :: n in spends && spends[n] == x <==> x in Flat(sorted) && x.name == n
    ensures forall c :: c in additions && additions[c] == x <==> x in Flat(sorted) && c in x.additions
    ensures forall c :: c in removals && removals[c] == x <==> x in Flat(sorted) && c in x.removals
  {
    var items := Elements(Flat(sorted));
    assert x in Flat(sorted) <==> x in items;
    hide Flat, Sorted, Distinct, SumCost, Elements, CoinsIndexed;
    CoinsAnswer(items, additions, true, x);
    CoinsAnswer(items, removals, false, x);
  }

  lemma CoinsAnswer(items: set<Item>, index: map<Coin, Item>, added: bool, x: Item)
    requires CoinsIndexed(items, index, added)
    ensures forall c :: c in index && index[c] == x <==> x in items && c in CoinsOf(x, added)
  {
    hide CoinsOf;
  }

  lemma RemoveKeeps(sorted: seq<Bucket>, spends: map<nat, Item>, additions: map<Coin, Item>,
                    removals: map<Coin, Item>, total: int, item: Item)
    requires Consistent(sorted, spends, additions, removals, total) && item in Flat(sorted)
    ensures item.Ok() && total >= item.cost
    ensures forall c :: c in item.additions ==> c in additions
    ensures forall c :: c in item.removals ==> c in removals
    ensures Consistent(Drop(sorted, item.Rate(), item.name), spends - {item.name}, additions - Elements(item.additions),
                       removals - Elements(item.removals), total - item.cost)
    ensures Flat(Drop(sorted, item.Rate(), item.name)) == WithoutName(Flat(sorted), item.name)
  {
    hide Sorted, Distinct, Drop, Flat, SumCost, WithoutName, CoinsIndexed, NamesIndexed, Elements, Item.Rate;
    var flat, items := Flat(sorted), Elements(Flat(sorted));
    RatesIn(sorted, item);
    MembersWithout(flat, item);
    DeleteKeepsNames(items, spends, item);
    SumWithout(flat, item);
    DropFlat(sorted, item);
    DropSorted(sorted, item.Rate(), item.name);
    DeleteKeepsCoins(items, removals, false, item);
    DeleteKeepsCoins(items, additions, true, item);
    CoinsPresent(items, removals, false, item);
    CoinsPresent(items, additions, true, item);
  }

  lemma SetKeepsNames(items: set<Item>, index: map<nat, Item>, x: Item)
    requires NamesIndexed(items, index) && x.name !in index
    ensures NamesIndexed(items + {x}, index[x.name := x])
    ensures forall y :: y in items ==> y.name != x.name
  {
  }

  lemma AddKeeps(sorted: seq<Bucket>, spends: map<nat, Item>, additions: map<Coin, Item>,
                 removals: map<Coin, Item>, total: int, item: Item)
    requires Consistent(sorted, spends, additions, removals, total) && item.Ok() && item.name !in spends
    requires forall c :: c in CoinsOf(item, true) ==> c !in additions
    requires forall c :: c in CoinsOf(item, false) ==> c !in removals
    ensures Consistent(Put(sorted, item.Rate(), item), spends[item.name := item],
                       additions + map c | c in Elements(CoinsOf(item, true)) :: item,
                       removals + map c | c in Elements(CoinsOf(item, false)) :: item, total + item.cost)
    ensures AllOk(Flat(sorted)) && Flat(Put(sorted, item.Rate(), item)) == Insert(Flat(sorted), item)
  {
    var flat, items := Flat(sorted), Elements(Flat(sorted));
    assert forall x :: x in flat ==> x in items;
    hide Sorted, Distinct, Put, Flat, SumCost, Insert, CoinsIndexed, NamesIndexed, Elements, CoinsOf, Item.Rate,
      Item.Ok;
    PutFlat(sorted, item);
    PutSorted(sorted, item);
    MembersInsert(flat, item);
    InsertMembers(flat, item);
    SetKeepsNames(items, spends, item);
    InsertDistinct(flat, item);
    SetKeepsCoins(items, additions, true, item);
    SetKeepsCoins(items, removals, false, item);
  }

  lemma FrontOf(s: seq<Bucket>)
    requires Sorted(s) && s != []
    ensures s[0].items != [] && Flat(s) != [] && Flat(s)[0] == s[0].items[0]
  {
    assert BucketOk(s[0]);
  }

  class Mempool {
    var spends: map<nat, Item>
    var sorted: seq<Bucket>
    var additions: map<Coin, Item>
    var removals: map<Coin, Item>
    var totalCost: int
    const maxSize: nat

    ghost predicate Valid()
      reads this
    {
      Consistent(sorted, spends, additions, removals, totalCost) && totalCost <= maxSize
    }

    /** Neither the item nor a coin it adds or removes is in the pool. */
    predicate NoConflict(item: Item)
      reads this
    {
      && item.name !in spends
      && (forall c :: c in item.additions ==> c !in additions)
      && (forall c :: c in item.removals ==> c !in removals)
    }

    constructor (maxSize: nat)
      ensures Valid() && Flat(sorted) == [] && this.maxSize == maxSize
    {
      spends, sorted, additions, removals, totalCost := map[], [], map[], map[], 0;
      this.maxSize := maxSize;
    }

    predicate AtFullCapacity(cost: nat)
      reads this
    {
      totalCost + cost > maxSize
    }

    method RemoveFromPool(item: Item)
      requires Valid() && item in Flat(sorted)
      modifies this
      ensures Valid() && Flat(sorted) == WithoutName(old(Flat(sorted)), item.name)
      ensures spends == old(spends) - {item.name} && additions == old(additions) - Elements(item.additions)
      ensures removals == old(removals) - Elements(item.removals) && totalCost == old(totalCost) - item.cost
    {
      RemoveKeeps(sorted, spends, additions, removals, totalCost, item);
      hide Consistent, Flat, Drop, WithoutName, Item.Rate;
      removals := DeleteCoins(removals, item.removals);
      additions := DeleteCoins(additions, item.additions);
      spends := spends - {item.name};
      sorted := Drop(sorted, item.Rate(), item.name);
      totalCost := totalCost - item.cost;
      assert totalCost >= 0;
    }

    /** The loop of `AddToPool`: evict from the front until the cost fits. */
    method MakeRoom(item: Item) returns (ok: bool)
      requires Valid() && NoConflict(item)
      modifies this
      ensures Valid() && NoConflict(item) && (ok <==> item.cost <= maxSize)
      ensures !ok ==> Flat(sorted) == []
      ensures ok ==>
        && totalCost + item.cost <= maxSize
        && Flat(sorted) == old(Flat(sorted))[Victims(old(Flat(sorted)), item.cost, maxSize)..]
    {
      hide Consistent, Flat, Victims, WithoutName;
      ghost var flat, n := Flat(sorted), 0;
      assert flat[0..] == flat;
      while AtFullCapacity(item.cost)
        invariant Valid() && NoConflict(item)
        invariant 0 <= n <= |flat| && Flat(sorted) == flat[n..]
        invariant Victims(flat, item.cost, maxSize) == n + Victims(Flat(sorted), item.cost, maxSize)
        decreases |Flat(sorted)|
      {
        if sorted == [] {
          EmptyPool(sorted, spends, additions, removals, totalCost);
          return false;
        }
        EvictionStep(sorted, spends, additions, removals, totalCost, item.cost, maxSize);
        assert flat[n..][1..] == flat[n + 1..];
        RemoveFromPool(sorted[0].items[0]);
        n := n + 1;
      }
      RoomMade(sorted, spends, additions, removals, totalCost, item.cost, maxSize);
      ok := true;
    }

    /** Evict the shortest prefix of the eviction order that makes room, then add the item after all
        that pay no more. An item over the limit empties the pool and fails. */
    method AddToPool(item: Item) returns (ok: bool)
      requires Valid() && item.Ok() && NoConflict(item)
      modifies this
      ensures Valid() && (ok <==> item.cost <= maxSize)
      ensures !ok ==> Flat(sorted) == []
      ensures ok ==>
        var rest := old(Flat(sorted))[Victims(old(Flat(sorted)), item.cost, maxSize)..];
        AllOk(rest) && Flat(sorted) == Insert(rest, item)
    {
      hide Insert, Put, Item.Rate, Consistent, Flat, Victims;
      ok := MakeRoom(item);
      if !ok { return; }
      AddKeeps(sorted, spends, additions, removals, totalCost, item);
      spends := spends[item.name := item];
      sorted := Put(sorted, item.Rate(), item);
      additions := SetCoins(additions, item.additions, item);
      removals := SetCoins(removals, item.removals, item);
      totalCost := totalCost + item.cost;
    }

    /** The lowest rate that would get an item of this cost in: that of the last victim. */
    method GetMinFeeRate(cost: nat) returns (r: Option<real>)
      requires Valid()
      ensures !AtFullCapacity(cost) ==> r == Some(0.0)
      ensures AtFullCapacity(cost) && cost > maxSize ==> r.None?
      ensures AtFullCapacity(cost) && cost <= maxSize ==>
        var n := Victims(Flat(sorted), cost, maxSize);
        n > 0 && r.Some? && IsRateOf(r.value, Flat(sorted)[n - 1])
    {
      if !AtFullCapacity(cost) { return Some(0.0); }
      var current := totalCost;
      ghost var flat, n := Flat(sorted), 0;
      assert flat[0..] == flat && Scanned(flat, 0, current, cost, maxSize);
      hide Consistent, Victims, SumCost, Scanned, Item.Rate, Item.Ok, IsRateOf;
      for i := 0 to |sorted|
        invariant 0 <= n <= |flat| && flat[n..] == Flat(sorted[i..]) && Scanned(flat, n, current, cost, maxSize)
      {
        assert sorted[i..][1..] == sorted[i + 1..];
        var fits;
        fits, current, n := ScanBucket(sorted[i].items, current, cost, maxSize, flat, n, Flat(sorted[i + 1..]));
        if fits {
          RateOfBucket(sorted, spends, additions, removals, totalCost, i, flat[n - 1]);
          return Some(sorted[i].rate);
        }
      }
      ScanAll(flat, n, current, cost, maxSize);
      return None;
    }
  }

  /** The first `n` items are not enough to make room; what remains costs `current`. */
  predicate Scanned(flat: seq<Item>, n: nat, current: int, cost: nat, limit: nat)
    requires n <= |flat|
  {
    && current == SumCost(flat[n..]) && current + cost > limit
    && Victims(flat, cost, limit) == n + Victims(flat[n..], cost, limit)
  }

  lemma ScanStep(flat: seq<Item>, n: nat, current: int, cost: nat, limit: nat)
    requires n < |flat| && Scanned(flat, n, current, cost, limit)
    ensures if current - flat[n].cost + cost <= limit then cost <= limit && Victims(flat, cost, limit) == n + 1
            else Scanned(flat, n + 1, current - flat[n].cost, cost, limit)
  {
    var rest := flat[n..];
    assert rest[0] == flat[n] && rest[1..] == flat[n + 1..];
    assert Victims(rest, cost, limit) == 1 + Victims(rest[1..], cost, limit);
    assert SumCost(rest[1..]) + cost <= limit ==> Victims(rest[1..], cost, limit) == 0;
  }

  lemma ScanAll(flat: seq<Item>, n: nat, current: int, cost: nat, limit: nat)
    requires n <= |flat| && flat[n..] == [] && Scanned(flat, n, current, cost, limit)
    ensures cost > limit
  {
  }

  lemma RateOfBucket(sorted: seq<Bucket>, spends: map<nat, Item>, additions: map<Coin, Item>,
                     removals: map<Coin, Item>, total: int, i: nat, x: Item)
    requires Consistent(sorted, spends, additions, removals, total) && i < |sorted| && x in sorted[i].items
    ensures IsRateOf(sorted[i].rate, x)
  {
    hide CoinsIndexed, NamesIndexed;
    assert BucketOk(sorted[i]);
    RateIs(x, x);
  }

  /** Fee per cost. */
  predicate IsRateOf(rate: real, x: Item) { x.cost > 0 && rate * x.cost as real == x.fee as real }

  /** The inner loop of `GetMinFeeRate`, over the items of one rate. */
  method ScanBucket(items: seq<Item>, before: int, cost: nat, limit: nat, ghost flat: seq<Item>, ghost n: nat,
                    ghost rest: seq<Item>)
    returns (fits: bool, current: int, ghost m: nat)
    requires n <= |flat| && flat[n..] == items + rest && Scanned(flat, n, before, cost, limit)
    ensures fits ==> cost <= limit && n < m <= |flat| && Victims(flat, cost, limit) == m && flat[m - 1] in items
    ensures !fits ==> m <= |flat| && flat[m..] == rest && Scanned(flat, m, current, cost, limit)
  {
    hide Victims, SumCost, Scanned;
    current, m := before, n;
    for j := 0 to |items|
      invariant m == n + j <= |flat| && flat[m..] == items[j..] + rest && Scanned(flat, m, current, cost, limit)
    {
      assert flat[m] == items[j] && flat[m..][1..] == flat[m + 1..];
      ScanStep(flat, m, current, cost, limit);
      current := current - items[j].cost;
      m := m + 1;
      if current + cost <= limit { return true, current, m; }
    }
    return false, current, m;
  }

  lemma EmptyPool(sorted: seq<Bucket>, spends: map<nat, Item>, additions: map<Coin, Item>,
                  removals: map<Coin, Item>, total: int)
    requires Consistent(sorted, spends, additions, removals, total) && sorted == []
    ensures total == 0 && Flat(sorted) == []
  {
    hide CoinsIndexed, NamesIndexed;
  }

  lemma RoomMade(sorted: seq<Bucket>, spends: map<nat, Item>, additions: map<Coin, Item>,
                 removals: map<Coin, Item>, total: int, cost: nat, limit: nat)
    requires Consistent(sorted, spends, additions, removals, total) && total + cost <= limit
    ensures total >= 0 && Victims(Flat(sorted), cost, limit) == 0
  {
    hide CoinsIndexed, NamesIndexed, Flat;
  }

  lemma EvictionStep(sorted: seq<Bucket>, spends: map<nat, Item>, additions: map<Coin, Item>,
                     removals: map<Coin, Item>, total: int, cost: nat, limit: nat)
    requires Consistent(sorted, spends, additions, removals, total) && sorted != [] && total + cost > limit
    ensures sorted[0].items != [] && Flat(sorted) != [] && Flat(sorted)[0] == sorted[0].items[0]
    ensures WithoutName(Flat(sorted), Flat(sorted)[0].name) == Flat(sorted)[1..]
    ensures Victims(Flat(sorted), cost, limit) == 1 + Victims(Flat(sorted)[1..], cost, limit)
  {
    hide CoinsIndexed, NamesIndexed;
    FrontOf(sorted);
    WithoutFirst(Flat(sorted));
  }
}
