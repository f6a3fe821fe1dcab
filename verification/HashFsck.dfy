/** HASH_FSCK, the integrity check of debug builds: on a valid table, it has nothing to report. */
module HashFsck {
  import opened HashLinks
  import opened HashChains
  import opened HashExpand
  import opened HashTable
  import opened HashSort

  /** The number of items in the first `n` chains. */
  ghost function Total<V>(chains: seq<seq<Handle<V>>>, n: nat): nat
    requires n <= |chains|
  {
    if n == 0 then 0 else Total(chains, n - 1) + |chains[n - 1]|
  }

  /** The items whose bucket is among the first `n`. */
  ghost function InFirst<V>(hash: Hash, nodes: set<Handle<V>>, buckets: nat, n: nat): set<Handle<V>>
    requires 0 < buckets
  {
    set h | h in nodes && hash(h.key) % buckets < n
  }

  lemma {:induction false} SetSize<V>(s: seq<Handle<V>>)
    requires NoDup(s)
    ensures |NodeSet(s)| == |s|
  {
    if s != [] {
      var k := |s| - 1;
      SetSize(s[..k]);
      assert s[..k] + [s[k]] == s;
      NodesSnoc(s[..k], s[k]);
    }
  }

  /** The chains have as many items as there are in their buckets. */
  lemma {:induction false} TotalIsSize<V>(hash: Hash, nodes: set<Handle<V>>, chains: seq<seq<Handle<V>>>, n: nat)
    requires Placed(hash, nodes, chains) && n <= |chains|
    ensures 0 < |chains| && |InFirst(hash, nodes, |chains|, n)| == Total(chains, n)
  {
    hide NoDup, Placed, NodeSet, InFirst;
    PlacedWithin(hash, nodes, chains);
    if n == 0 {
      NoBucket(hash, nodes, |chains|);
    } else {
      TotalIsSize(hash, nodes, chains, n - 1);
      var before, last := InFirst(hash, nodes, |chains|, n - 1), NodeSet(chains[n - 1]);
      OneChain(hash, nodes, chains, n - 1);
      SetSize(chains[n - 1]);
      NextBucket(hash, nodes, chains, n - 1);
    }
  }

  lemma NoBucket<V>(hash: Hash, nodes: set<Handle<V>>, buckets: nat)
    requires 0 < buckets
    ensures InFirst(hash, nodes, buckets, 0) == {}
  {
  }

  lemma NextBucket<V>(hash: Hash, nodes: set<Handle<V>>, chains: seq<seq<Handle<V>>>, n: nat)
    requires Placed(hash, nodes, chains) && n < |chains|
    ensures InFirst(hash, nodes, |chains|, n + 1) == InFirst(hash, nodes, |chains|, n) + NodeSet(chains[n])
    ensures InFirst(hash, nodes, |chains|, n) !! NodeSet(chains[n])
  {
    hide NoDup;
    OneChain(hash, nodes, chains, n);
  }

  /** One bucket: whether it is broken, and how many items its chain has. */
  method CheckBucket<V>(bucket: Bucket<V>, ghost s: seq<Handle<V>>) returns (count: nat, oops: bool)
    requires Followed(bucket.head, s)
    ensures count == |s|
    ensures oops <==> bucket.count != |s| || exists i :: 0 <= i < |s| && s[i].hhPrev != At(s, i - 1)
  {
    count := 0;
    oops := false;
    var prev: Handle?<V> := null;
    var thh := bucket.head;
    while thh != null
      invariant count <= |s| && thh == At(s, count) && prev == At(s, count - 1)
      invariant oops <==> exists i :: 0 <= i < count && s[i].hhPrev != At(s, i - 1)
      decreases |s| - count
    {
      if prev != thh.hhPrev {
        oops := true;
      }
      count := count + 1;
      prev := thh;
      thh := thh.hhNext;
    }
    if bucket.count != count {
      oops := true;
    }
  }

  /** The list in insertion order: whether it is broken, and how many items it has. */
  method CheckList<V>(head: Handle<V>, ghost s: seq<Handle<V>>) returns (count: nat, oops: bool)
    requires Forward(head, s)
    ensures count == |s|
    ensures oops <==> exists i :: 0 <= i < |s| && s[i].prev != At(s, i - 1)
  {
    count := 0;
    oops := false;
    var prev: Handle?<V> := null;
    var thh: Handle?<V> := head;
    while thh != null
      invariant count <= |s| && thh == At(s, count) && prev == At(s, count - 1)
      invariant oops <==> exists i :: 0 <= i < count && s[i].prev != At(s, i - 1)
      decreases |s| - count
    {
      count := count + 1;
      if prev != thh.prev {
        oops := true;
      }
      prev := thh;
      thh := thh.next;
    }
  }

  /** What the loop over the buckets relies on. */
  lemma BucketFacts<V>(t: Table<V>)
    requires t.Valid() && t.items != []
    ensures t.numBuckets == |t.chains| == t.buckets.Length
    ensures forall b :: 0 <= b < t.numBuckets ==>
              Chained(t.buckets[b].head, t.chains[b]) && t.buckets[b].count == |t.chains[b]|
    ensures Total(t.chains, |t.chains|) == t.numItems
  {
    hide Chained, Placed, AllChained;
    var nodes := NodeSet(t.items);
    t.Facts();
    t.HoldingElim(nodes);
    t.BucketsLength(nodes);
    forall b | 0 <= b < t.numBuckets
      ensures Chained(t.buckets[b].head, t.chains[b]) && t.buckets[b].count == |t.chains[b]|
    {
      ChainOf(nodes, t.buckets[..], t.chains, b);
    }
    TotalIsSize(t.hash, nodes, t.chains, |t.chains|);
    assert InFirst(t.hash, nodes, |t.chains|, |t.chains|) == nodes;
    SetSize(t.items);
  }

  /** What the check looks at: links back, counts of buckets, and the count of the table, twice. */
  ghost predicate Intact<V>(t: Table<V>, items: seq<Handle<V>>, chains: seq<seq<Handle<V>>>)
    requires t.buckets.Length == |chains|
    reads t, t.buckets, items, set b, i | 0 <= b < |chains| && 0 <= i < |chains[b]| :: chains[b][i]
  {
    && (forall b, i :: 0 <= b < |chains| && 0 <= i < |chains[b]| ==> chains[b][i].hhPrev == At(chains[b], i - 1))
    && (forall b :: 0 <= b < |chains| ==> t.buckets[b].count == |chains[b]|)
    && Total(chains, |chains|) == t.numItems == |items|
    && (forall i :: 0 <= i < |items| ==> items[i].prev == At(items, i - 1))
  }

  /**
   * HASH_FSCK, on any table whose chains and list can be followed to their ends: it complains
   * if and only if something it looks at is not intact.
   */
  method Fsck<V>(t: Table<V>, ghost items: seq<Handle<V>>, ghost chains: seq<seq<Handle<V>>>) returns (oops: bool)
    requires t.head != null && Forward(t.head, items)
    requires t.numBuckets == t.buckets.Length == |chains|
    requires forall b :: 0 <= b < |chains| ==> Followed(t.buckets[b].head, chains[b])
    ensures oops <==> !Intact(t, items, chains)
  {
    hide Total, Followed, Forward;
    oops := false;
    var count := 0;
    var i := 0;
    TotalNone(chains);
    while i < t.numBuckets
      invariant i <= t.numBuckets && count == Total(chains, i)
      invariant oops <==> exists b :: 0 <= b < i && BadBucket(t.buckets[b], chains[b])
    {
      var bucketCount, bad := CheckBucket(t.buckets[i], chains[i]);
      assert bad <==> BadBucket(t.buckets[i], chains[i]);
      TotalNext(chains, i);
      count := count + bucketCount;
      oops := oops || bad;
      i := i + 1;
    }
    ghost var broken := oops;
    assert broken <==> exists b :: 0 <= b < |chains| && BadBucket(t.buckets[b], chains[b]);
    if count != t.numItems {
      oops := true;
    }
    var bad;
    count, bad := CheckList(t.head, items);
    oops := oops || bad || count != t.numItems;
  }

  ghost predicate BadBucket<V>(bucket: Bucket<V>, s: seq<Handle<V>>)
    reads s`hhPrev
  {
    bucket.count != |s| || exists i :: 0 <= i < |s| && s[i].hhPrev != At(s, i - 1)
  }

  /** On a table that adding, finding, deleting and sorting keep valid, there is nothing to complain about. */
  method FsckValid<V>(t: Table<V>) returns (oops: bool)
    requires t.Valid()
    ensures !oops
  {
    hide *;
    t.HeadIsFirst();
    if t.head == null {
      return false;
    }
    t.Facts();
    BucketFacts(t);
    ValidIsIntact(t);
    oops := Fsck(t, t.items, t.chains);
  }

  lemma ValidIsIntact<V>(t: Table<V>)
    requires Listed(t.items) && t.items != [] && t.head == t.items[0] && t.numItems == |t.items|
    requires t.numBuckets == |t.chains| == t.buckets.Length && Total(t.chains, |t.chains|) == t.numItems
    requires forall b :: 0 <= b < t.numBuckets ==>
               Chained(t.buckets[b].head, t.chains[b]) && t.buckets[b].count == |t.chains[b]|
    ensures Intact(t, t.items, t.chains) && Forward(t.head, t.items)
    ensures forall b :: 0 <= b < |t.chains| ==> Followed(t.buckets[b].head, t.chains[b])
  {
    hide Total;
  }

  lemma TotalNone<V>(chains: seq<seq<Handle<V>>>)
    ensures Total(chains, 0) == 0
  {
  }

  lemma TotalNext<V>(chains: seq<seq<Handle<V>>>, n: nat)
    requires n < |chains|
    ensures Total(chains, n + 1) == Total(chains, n) + |chains[n]|
  {
  }
}
