/** The hash table: adding, finding and deleting items, and what it means as a map. */
module HashTable {
  import opened Bytes
  import opened HashLinks
  import opened HashChains
  import opened HashBits
  import opened HashExpand

  const INITIAL_NUM_BUCKETS: nat := 32
  const INITIAL_NUM_BUCKETS_LOG2: nat := 5
  const BKT_CAPACITY_THRESH: nat := 10

  ghost function NodeSet<V>(items: seq<Handle<V>>): set<Handle<V>> {
    set h | h in items
  }

  ghost predicate DistinctKeys<V>(items: seq<Handle<V>>) {
    forall i, j :: 0 <= i < j < |items| ==> items[i].key != items[j].key
  }

  /** The map that a list of items stands for. */
  ghost function Entries<V>(items: seq<Handle<V>>): map<seq<byte>, V> {
    if items == [] then map[]
    else Entries(items[..|items| - 1])[items[|items| - 1].key := items[|items| - 1].value]
  }

  /** The ideal chain length in twice as many buckets. */
  method NewIdeal(numItems: nat, numBuckets: nat, log2: nat) returns (ideal: nat)
    requires numBuckets == Pow2(log2) && 0 < numItems
    ensures IsCeiling(ideal, numItems, numBuckets * 2) && 0 < ideal
    ensures ideal == numItems / (numBuckets * 2) + if numItems % (numBuckets * 2) != 0 then 1 else 0
  {
    hide Pow2, BitAnd, Shr, IsCeiling;
    DoublePow2(log2);
    IdealIsCeiling(numItems, log2 + 1);
    ShiftIsDivision(numItems, log2 + 1);
    MaskIsRemainder(numItems, log2 + 1);
    ideal := Shr(numItems, log2 + 1) + if BitAnd(numItems, numBuckets * 2 - 1) != 0 then 1 else 0;
    IdealPositive(ideal, numItems, numBuckets * 2);
  }

  lemma ChainedAt<V>(hash: Hash, nodes: set<Handle<V>>, head: Handle?<V>, s: seq<Handle<V>>, j: nat)
    requires Chained(head, s) && Hashed(hash, nodes) && (forall h :: h in s ==> h in nodes) && j <= |s|
    ensures head == null <==> s == []
    ensures s != [] ==> head == s[0]
    ensures j < |s| ==> s[j].hashv == hash(s[j].key) && s[j].hhNext == if j + 1 < |s| then s[j + 1] else null
  {
  }

  /** HASH_FIND_IN_BKT: the first item of a chain with this key, or NULL. */
  method FindInBucket<V>(head: Handle?<V>, key: seq<byte>, hashv: u32, ghost hash: Hash,
                         ghost nodes: set<Handle<V>>, ghost s: seq<Handle<V>>) returns (out: Handle?<V>)
    requires Chained(head, s) && hashv == hash(key) && Hashed(hash, nodes) && forall h :: h in s ==> h in nodes
    ensures out == null <==> forall h :: h in s ==> h.key != key
    ensures out != null ==> out in s && out.key == key
  {
    hide *;
    ghost var j := 0;
    out := head;
    ChainedAt(hash, nodes, head, s, j);
    while out != null
      invariant j <= |s| && (out == null <==> j == |s|) && (j < |s| ==> out == s[j])
      invariant forall i :: 0 <= i < j ==> s[i].key != key
      decreases |s| - j
    {
      ChainedAt(hash, nodes, head, s, j);
      if out.hashv == hashv && |out.key| == |key| {
        if out.key == key {
          break;
        }
      }
      out := out.hhNext;
      j := j + 1;
    }
  }

  class Table<V> {
    const hash: Hash
    var head: Handle?<V>  // the variable that the macros are given; NULL without items

    // UT_hash_table
    var buckets: array<Bucket<V>>
    var numBuckets: nat
    var log2NumBuckets: nat
    var numItems: nat
    var tail: Handle?<V>
    var idealChainMaxlen: nat
    var nonidealItems: nat
    var ineffExpands: nat
    var noexpand: bool

    ghost var items: seq<Handle<V>>              // in insertion order
    ghost var chains: seq<seq<Handle<V>>>        // in bucket order

    /** HASH_FSCK: everything the table checks about itself in debug builds, and more. */
    ghost predicate Valid()
      reads this, buckets, items
    {
      && head == At(items, 0)
      && (items != [] ==> InOrder() && InBuckets())
    }

    /** The list in insertion order, its tail and its length. */
    ghost predicate InOrder()
      requires items != []
      reads this, items
    {
      && NoDup(items) && Listed(items) && DistinctKeys(items)
      && tail == items[|items| - 1] && numItems == |items|
      && Hashed(hash, NodeSet(items))
    }

    /** The chains, and that every item is in the chain of its hash value. */
    ghost predicate InBuckets()
      reads this, buckets, items
    {
      && numBuckets == Pow2(log2NumBuckets) == |chains|
      && Placed(hash, NodeSet(items), chains)
      && AllChained(NodeSet(items), buckets[..], chains)
    }

    constructor (hash: Hash)
      ensures Valid() && items == [] && this.hash == hash
    {
      this.hash := hash;
      head, tail := null, null;
      buckets := new Bucket<V>[0];
      numBuckets, log2NumBuckets, numItems := 0, 0, 0;
      idealChainMaxlen, nonidealItems, ineffExpands, noexpand := 0, 0, 0, false;
      items, chains := [], [];
    }

    /** The chains of these items, on the way to `InBuckets`. */
    ghost predicate Holding(nodes: set<Handle<V>>)
      reads `buckets, `numBuckets, `log2NumBuckets, `chains, buckets, nodes`hhNext, nodes`hhPrev, nodes`hashv
    {
      && numBuckets == Pow2(log2NumBuckets) == |chains|
      && Placed(hash, nodes, chains)
      && AllChained(nodes, buckets[..], chains)
      && Hashed(hash, nodes)
    }

    /** HASH_MAKE_TABLE. */
    method MakeTable(add: Handle<V>)
      modifies this
      ensures Holding({}) && fresh(buckets) && numItems == 0 && tail == add
      ensures unchanged(`head, `items)
      ensures numBuckets == buckets.Length == 32 && log2NumBuckets == 5 && ineffExpands == 0 && !noexpand
      ensures forall b :: 0 <= b < 32 ==> buckets[b] == Bucket(null, 0, 0)
    {
      hide Placed, AllChained, Pow2, Excess, Bounded;
      tail := add;
      numItems, ineffExpands, noexpand := 0, 0, false;
      var newBuckets := new Bucket<V>[INITIAL_NUM_BUCKETS](_ => Bucket(null, 0, 0));
      ghost var newChains := seq(INITIAL_NUM_BUCKETS, _ => []);
      NewBuckets(hash, newBuckets[..], newChains, 1);
      ThirtyTwo();
      Install(newBuckets, INITIAL_NUM_BUCKETS, INITIAL_NUM_BUCKETS_LOG2, 0, 0, {}, newChains);
    }

    /** HASH_EXPAND_BUCKETS. */
    method Expand(ghost nodes: set<Handle<V>>)
      requires Holding(nodes) && 0 < numItems
      modifies this, nodes`hhNext, nodes`hhPrev
      ensures Holding(nodes) && fresh(buckets)
      ensures unchanged(`head, `tail, `items, `numItems)
      ensures numBuckets == 2 * old(numBuckets)
      ensures IsCeiling(idealChainMaxlen, numItems, numBuckets)
      ensures nonidealItems == Excess(buckets[..], idealChainMaxlen)
      ensures Bounded(buckets[..], idealChainMaxlen)
      ensures 0 < numBuckets && idealChainMaxlen == numItems / numBuckets + if numItems % numBuckets != 0 then 1 else 0
      ensures nonidealItems ==
              |set b: nat, i: nat | b < |chains| && idealChainMaxlen <= i < |chains[b]| :: (b, i)|
      ensures forall b :: 0 <= b < buckets.Length ==>
        && buckets[b].count <= (buckets[b].expandMult + 1) * idealChainMaxlen
        && (buckets[b].expandMult == 0 <==> buckets[b].count <= idealChainMaxlen)
        && (buckets[b].expandMult > 0 ==> (buckets[b].expandMult - 1) * idealChainMaxlen < buckets[b].count)
      ensures ineffExpands == if nonidealItems > numItems / 2 then old(ineffExpands) + 1 else 0
      ensures noexpand == (old(noexpand) || ineffExpands > 1)
    {
      hide Placed, AllChained, Excess, Bounded, Pow2, Within, BitAnd, Shr, IsCeiling, Hashed, Allowed;
      BucketsLength(nodes);
      DoublePow2(log2NumBuckets);
      var newBuckets := new Bucket<V>[numBuckets * 2](_ => Bucket(null, 0, 0));
      var ideal := NewIdeal(numItems, numBuckets, log2NumBuckets);
      var nonideal;
      ghost var newChains;
      nonideal, newChains := MoveAll(newBuckets, buckets, log2NumBuckets + 1, ideal, hash, nodes, chains);
      Install(newBuckets, numBuckets * 2, log2NumBuckets + 1, ideal, nonideal, nodes, newChains);
      BucketsAre(nodes, newBuckets[..], newChains, ideal);
      JudgeExpansion();
    }

    /** The end of an expansion: two in a row that leave too many items beyond ideal are enough. */
    method JudgeExpansion()
      modifies this`ineffExpands, this`noexpand
      ensures ineffExpands == if nonidealItems > numItems / 2 then old(ineffExpands) + 1 else 0
      ensures noexpand == (old(noexpand) || ineffExpands > 1)
    {
      HalfShift(numItems);
      ineffExpands := if nonidealItems > Shr(numItems, 1) then ineffExpands + 1 else 0;
      if ineffExpands > 1 {
        noexpand := true;
      }
    }

    /** Puts new buckets in the place of the old ones. */
    method Install(newBuckets: array<Bucket<V>>, num: nat, log2: nat, ideal: nat, nonideal: nat,
                   ghost nodes: set<Handle<V>>, ghost newChains: seq<seq<Handle<V>>>)
      requires num == Pow2(log2) == |newChains|
      requires Placed(hash, nodes, newChains) && AllChained(nodes, newBuckets[..], newChains)
      requires Hashed(hash, nodes)
      modifies this`buckets, this`numBuckets, this`log2NumBuckets, this`chains
      modifies this`idealChainMaxlen, this`nonidealItems
      ensures Holding(nodes) && buckets == newBuckets && numBuckets == num && log2NumBuckets == log2
      ensures chains == newChains
      ensures idealChainMaxlen == ideal && nonidealItems == nonideal
    {
      hide Placed, AllChained, Pow2;
      idealChainMaxlen, nonidealItems := ideal, nonideal;
      numBuckets := num;
      log2NumBuckets := log2;
      buckets, chains := newBuckets, newChains;
    }

    /** HASH_ADD_TO_TABLE and HASH_ADD_TO_BKT. */
    method AddToTable(add: Handle<V>, ghost nodes: set<Handle<V>>)
      requires Holding(nodes) && add !in nodes && add.hashv == hash(add.key)
      modifies this, buckets, nodes`hhNext, nodes`hhPrev, add`hhNext, add`hhPrev
      ensures Holding(nodes + {add}) && (buckets == old(buckets) || fresh(buckets))
      ensures unchanged(`head, `tail, `items) && numItems == old(numItems) + 1
      ensures var b := old(buckets[hash(add.key) % numBuckets]);
              numBuckets == old(numBuckets) *
                (if b.count + 1 >= (b.expandMult + 1) * 10 && !old(noexpand) then 2 else 1)
    {
      hide Placed, AllChained, Excess, Bounded, Pow2, Within, BitAnd, IsCeiling;
      numItems := numItems + 1;
      MaskIsRemainder(add.hashv, log2NumBuckets);
      BucketsLength(nodes);
      var b := BitAnd(add.hashv, numBuckets - 1);
      Push(buckets, b, add, buckets[b].expandMult, hash, nodes, chains);
      PushedAt(chains, b, add);
      chains := Pushed(chains, b, add);
      if buckets[b].count >= (buckets[b].expandMult + 1) * BKT_CAPACITY_THRESH && !noexpand {
        Expand(nodes + {add});
      }
    }

    /** HASH_ADD_KEYPTR, on the insertion-order list: the first item makes the table. */
    method ListItem(add: Handle<V>)
      requires Valid() && add !in items && add.hashv == hash(add.key)
      modifies this, items`next, add`next, add`prev
      ensures Holding(NodeSet(items)) && unchanged(`items) && head == At(items + [add], 0) && tail == add
      ensures Listed(items + [add]) && numItems == |items| && (buckets == old(buckets) || fresh(buckets))
    {
      hide Placed, AllChained, Listed, NoDup, DistinctKeys, Pow2, NodeSet, Holding, Hashed;
      NodeSetOf(items);
      if head == null {
        add.next, add.prev := null, null;
        MakeTable(add);
        head := add;
        ListedOne(add);
      } else {
        HoldingIntro(NodeSet(items));
        assert Holding(NodeSet(items));
        AppendList(tail, add, items);
        assert Holding(NodeSet(items));
        tail := add;
      }
    }

    /** HASH_ADD_KEYPTR: keys are unique, and an item is added once. */
    method Add(add: Handle<V>)
      requires Valid() && add !in items && forall h :: h in items ==> h.key != add.key
      modifies this, buckets, items, add
      ensures Valid() && items == old(items) + [add] && (buckets == old(buckets) || fresh(buckets))
      ensures Entries(items) == Entries(old(items))[add.key := add.value]
    {
      hide *;
      NewItem(add);
      EntriesSnoc(items, add);
      SetHash(add);
      ListItem(add);
      ghost var nodes := NodeSet(items);
      items := items + [add];
      AddToTable(add, nodes);
      ValidIntro();
    }

    lemma NewItem(add: Handle<V>)
      requires Valid() && add !in items && forall h :: h in items ==> h.key != add.key
      ensures NoDup(items + [add]) && DistinctKeys(items + [add])
      ensures NodeSet(items + [add]) == NodeSet(items) + {add} && add !in NodeSet(items)
      ensures forall h :: h in NodeSet(items) ==> h in items
    {
      ItemsSnoc(items, add);
      NodesSnoc(items, add);
    }

    method SetHash(add: Handle<V>)
      requires Valid() && add !in items
      modifies add`hashv
      ensures Valid() && add.hashv == hash(add.key)
    {
      add.hashv := hash(add.key);
    }

    lemma ValidIntro()
      requires items != [] && Holding(NodeSet(items)) && head == At(items, 0) && tail == items[|items| - 1]
      requires NoDup(items) && Listed(items) && DistinctKeys(items) && numItems == |items|
      ensures Valid()
    {
      hide Placed, AllChained, NoDup, Listed, DistinctKeys, NodeSet, Pow2, Hashed;
    }

    lemma HoldingIntro(nodes: set<Handle<V>>)
      requires numBuckets == Pow2(log2NumBuckets) == |chains|
      requires Placed(hash, nodes, chains) && AllChained(nodes, buckets[..], chains)
      requires Hashed(hash, nodes)
      ensures Holding(nodes)
    {
    }

    lemma HoldingElim(nodes: set<Handle<V>>)
      requires Holding(nodes)
      ensures numBuckets == Pow2(log2NumBuckets) == |chains|
      ensures Placed(hash, nodes, chains) && AllChained(nodes, buckets[..], chains)
      ensures Hashed(hash, nodes)
    {
    }

    /** HASH_FIND: the item with this key, or NULL exactly when there is none. */
    method Find(key: seq<byte>) returns (out: Handle?<V>)
      requires Valid()
      ensures out == null <==> forall h :: h in items ==> h.key != key
      ensures out != null ==> out in items && out.key == key
      ensures out == null <==> key !in Entries(items)
      ensures out != null ==> out.value == Entries(items)[key]
    {
      hide *;
      out := null;
      HeadIsFirst();
      ItemsDistinct();
      EntriesOf(items);
      if head == null {
        return;
      }
      var hashv := hash(key);
      FindBucket(key);
      var b := BitAnd(hashv, numBuckets - 1);
      NodeSetOf(items);
      out := FindInBucket(buckets[b].head, key, hashv, hash, NodeSet(items), chains[b]);
      if out == null {
        OnlyInItsChain(hash, NodeSet(items), chains, key);
      }
    }

    /** HASH_DELETE_HH, on the insertion-order list. */
    method UnlistItem(del: Handle<V>, ghost k: nat)
      requires Valid() && k < |items| && items[k] == del && |items| >= 2
      modifies this`head, this`tail, items`next, items`prev
      ensures Listed(Without(items, k)) && Holding(NodeSet(items))
      ensures head == At(Without(items, k), 0) && tail == Without(items, k)[|items| - 2] && numItems == |items|
    {
      hide *;
      ItemNeighbours(k);
      tail := if del == tail then del.prev else tail;
      head := if del.prev == null then del.next else head;
      assert Holding(NodeSet(items));
      Unlink(del, items, k);
      assert Holding(NodeSet(items));
    }

    lemma ItemNeighbours(k: nat)
      requires Valid() && k < |items| && |items| >= 2
      ensures NoDup(items) && Listed(items) && Holding(NodeSet(items)) && numItems == |items|
      ensures var t, h := Without(items, k), items[k];
              && (h == tail <==> k == |items| - 1) && (h.prev == null <==> k == 0)
              && (h.prev != null ==> h.prev in items) && (h.next != null ==> h.next in items)
              && (k == |items| - 1 ==> h.prev == t[|items| - 2]) && (k < |items| - 1 ==> tail == t[|items| - 2])
              && (k == 0 ==> h.next == At(t, 0)) && (k > 0 ==> head == At(t, 0))
    {
      hide Placed, AllChained, Pow2, Hashed, NodeSet, DistinctKeys;
      HoldingIntro(NodeSet(items));
    }

    /** HASH_DELETE. The last item takes the table with it. */
    method Delete(del: Handle<V>) returns (ghost k: nat)
      requires Valid() && del in items
      modifies this, buckets, items
      ensures k < |old(items)| && old(items)[k] == del
      ensures Valid() && items == Without(old(items), k) && buckets == old(buckets)
      ensures Entries(items) == Entries(old(items)) - {del.key}
    {
      hide *;
      k :| 0 <= k < |items| && items[k] == del;
      RemainingItems(k);
      ItemsDistinct();
      EntriesWithout(items, k);
      LastItem(k);
      if del.prev == null && del.next == null {
        head := null;
        items := Without(items, k);
        NoItems();
        return;
      }
      UnlistItem(del, k);
      ghost var rest := Without(items, k);
      assert Listed(rest);
      DropFromBucket(del, NodeSet(items));
      assert Listed(rest);
      items := rest;
      ValidIntro();
    }

    /** HASH_DELETE_HH, on the bucket. */
    method DropFromBucket(del: Handle<V>, ghost nodes: set<Handle<V>>)
      requires Holding(nodes) && del in nodes && 0 < numItems
      modifies this`numItems, this`chains, buckets, nodes`hhNext, nodes`hhPrev
      ensures Holding(nodes - {del}) && numItems == old(numItems) - 1
    {
      hide *;
      ghost var j := FindInChain(nodes, del);
      var b := BitAnd(del.hashv, numBuckets - 1);
      Remove(buckets, b, del, j, hash, nodes, chains);
      HashedSubset(hash, nodes, nodes - {del});
      chains := chains[b := Without(chains[b], j)];
      numItems := numItems - 1;
      HoldingIntro(nodes - {del});
    }

    lemma LastItem(k: nat)
      requires Valid() && k < |items|
      ensures items[k].prev == null && items[k].next == null <==> |items| == 1
      ensures |Without(items, k)| == |items| - 1
    {
      hide Placed, AllChained, Pow2, Hashed, NodeSet, DistinctKeys, NoDup;
    }

    lemma NoItems()
      requires items == [] && head == null
      ensures Valid()
    {
    }

    lemma RemainingItems(k: nat)
      requires Valid() && k < |items|
      ensures NoDup(Without(items, k)) && DistinctKeys(Without(items, k))
      ensures NodeSet(Without(items, k)) == NodeSet(items) - {items[k]}
      ensures items[k] in NodeSet(items)
      ensures forall h :: h in NodeSet(items) ==> h in items
    {
      hide Placed, AllChained, Pow2, Hashed, Listed;
      var t := Without(items, k);
      forall h | h in items && h != items[k]
        ensures h in t
      {
        var i :| 0 <= i < |items| && items[i] == h;
        assert t[if i < k then i else i - 1] == h;
      }
    }

    /** Where an item is in the chain of its bucket. */
    lemma FindInChain(nodes: set<Handle<V>>, h: Handle<V>) returns (j: nat)
      requires Holding(nodes) && h in nodes
      ensures 0 < numBuckets == |chains| == buckets.Length
      ensures Placed(hash, nodes, chains) && AllChained(nodes, buckets[..], chains) && Hashed(hash, nodes)
      ensures numBuckets == Pow2(log2NumBuckets)
      ensures var b := BitAnd(h.hashv, numBuckets - 1);
              b < |chains| && j < |chains[b]| && chains[b][j] == h
    {
      hide AllChained, Pow2, BitAnd;
      BucketsLength(nodes);
      MaskIsRemainder(h.hashv, log2NumBuckets);
      var b := hash(h.key) % numBuckets;
      j :| 0 <= j < |chains[b]| && chains[b][j] == h;
    }

    /** What a table with items is made of. */
    lemma Facts()
      requires Valid() && items != []
      ensures Holding(NodeSet(items)) && Listed(items) && NoDup(items) && DistinctKeys(items)
      ensures numItems == |items| && head == items[0] && tail == items[|items| - 1]
    {
      hide Placed, AllChained, Pow2, Hashed, NodeSet, DistinctKeys, NoDup, Listed;
      HoldingIntro(NodeSet(items));
    }

    lemma ItemsDistinct()
      requires Valid()
      ensures DistinctKeys(items)
    {
    }

    lemma HeadIsFirst()
      requires Valid()
      ensures head == null <==> items == []
    {
    }

    /** Where the item with this key is, if there is one. */
    lemma FindBucket(key: seq<byte>)
      requires Valid() && items != []
      ensures 0 < numBuckets == |chains| == buckets.Length && Placed(hash, NodeSet(items), chains)
      ensures var b := hash(key) % numBuckets;
              && BitAnd(hash(key), numBuckets - 1) == b && Chained(buckets[b].head, chains[b])
              && (forall h :: h in chains[b] ==> h in NodeSet(items)) && Hashed(hash, NodeSet(items))
    {
      hide Placed, AllChained, Listed, NoDup, DistinctKeys, Pow2, BitAnd, Chained, NodeSet, Hashed, Holding;
      HoldingIntro(NodeSet(items));
      BucketsLength(NodeSet(items));
      MaskIsRemainder(hash(key), log2NumBuckets);
      var b := hash(key) % numBuckets;
      ChainOf(NodeSet(items), buckets[..], chains, b);
      OneChain(hash, NodeSet(items), chains, b);
    }

    lemma BucketsLength(nodes: set<Handle<V>>)
      requires Holding(nodes)
      ensures 0 < numBuckets == buckets.Length
    {
    }
  }

  lemma NodeSetOf<V>(items: seq<Handle<V>>)
    ensures forall h :: h in items <==> h in NodeSet(items)
    ensures items == [] ==> NodeSet(items) == {}
  {
  }

  lemma NodesSnoc<V>(items: seq<Handle<V>>, h: Handle<V>)
    ensures NodeSet(items + [h]) == NodeSet(items) + {h}
  {
  }

  lemma ItemsSnoc<V>(items: seq<Handle<V>>, h: Handle<V>)
    requires NoDup(items) && DistinctKeys(items) && h !in items && forall x :: x in items ==> x.key != h.key
    ensures NoDup(items + [h]) && DistinctKeys(items + [h])
  {
  }

  lemma ListedOne<V>(h: Handle<V>)
    requires h.next == null && h.prev == null
    ensures Listed([h]) && NoDup([h]) && DistinctKeys([h])
    ensures [] + [h] == [h]
    ensures NoDup<Handle<V>>([]) && DistinctKeys<V>([])
  {
  }

  /** Items with this key can only be in one chain. */
  lemma OnlyInItsChain<V>(hash: Hash, nodes: set<Handle<V>>, chains: seq<seq<Handle<V>>>, key: seq<byte>)
    requires Placed(hash, nodes, chains)
    requires forall h :: h in chains[hash(key) % |chains|] ==> h.key != key
    ensures forall h :: h in nodes ==> h.key != key
  {
  }

  // ---------------------------------------------------------------- the table as a map

  lemma {:induction false} EntriesOf<V>(items: seq<Handle<V>>)
    requires DistinctKeys(items)
    ensures forall h :: h in items ==> h.key in Entries(items) && Entries(items)[h.key] == h.value
    ensures forall key :: key in Entries(items) ==> exists h :: h in items && h.key == key
    decreases |items|
  {
    if items != [] {
      var k := |items| - 1;
      EntriesOf(items[..k]);
      assert items == items[..k] + [items[k]];
    }
  }

  lemma EntriesSnoc<V>(items: seq<Handle<V>>, h: Handle<V>)
    ensures Entries(items + [h]) == Entries(items)[h.key := h.value]
  {
    assert (items + [h])[..|items|] == items;
  }

  /** Deleting an item deletes its key from the map, and nothing else. */
  lemma EntriesWithout<V>(items: seq<Handle<V>>, k: nat)
    requires k < |items| && DistinctKeys(items) && DistinctKeys(Without(items, k))
    ensures Entries(Without(items, k)) == Entries(items) - {items[k].key}
  {
    hide Entries, DistinctKeys, Without;
    var t := Without(items, k);
    EntriesOf(items);
    EntriesOf(t);
    var a, b := Entries(t), Entries(items) - {items[k].key};
    forall key | key in a
      ensures key in b && a[key] == b[key]
    {
      var h :| h in t && h.key == key;
      WithoutElement(items, k, h);
    }
    forall key | key in b
      ensures key in a
    {
      var h :| h in items && h.key == key;
      WithoutElement(items, k, h);
    }
  }

  lemma WithoutElement<V>(items: seq<Handle<V>>, k: nat, h: Handle<V>)
    requires DistinctKeys(items) && k < |items|
    ensures h in Without(items, k) <==> h in items && h.key != items[k].key
  {
    var t := Without(items, k);
    if h in items && h.key != items[k].key {
      var i :| 0 <= i < |items| && items[i] == h;
      assert t[if i < k then i else i - 1] == h;
    }
    if h in t {
      var i :| 0 <= i < |t| && t[i] == h;
      assert items[if i < k then i else i + 1] == h;
    }
  }

  lemma HashedSubset<V>(hash: Hash, nodes: set<Handle<V>>, some: set<Handle<V>>)
    requires Hashed(hash, nodes) && some <= nodes
    ensures Hashed(hash, some)
  {
  }

  lemma ThirtyTwo()
    ensures Pow2(INITIAL_NUM_BUCKETS_LOG2) == INITIAL_NUM_BUCKETS
  {
    assert Pow2(1) == 2 && Pow2(2) == 4 && Pow2(3) == 8 && Pow2(4) == 16;
  }

  lemma HalfShift(n: nat)
    ensures Shr(n, 1) == n / 2
  {
    ShiftIsDivision(n, 1);
    assert Pow2(1) == 2;
  }

  lemma DoublePow2(k: nat)
    ensures Pow2(k + 1) == Pow2(k) * 2
  {
  }

  lemma IdealPositive(c: nat, n: nat, b: nat)
    requires IsCeiling(c, n, b) && 0 < n
    ensures 0 < c
  {
  }
}
