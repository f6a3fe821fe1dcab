/** The buckets of a hash table: which items are in which chain, and the chains themselves. */
module HashChains {
  import opened Bytes
  import opened HashLinks

  type u32 = x: int | 0 <= x < 0x1_0000_0000

  /** Any deterministic 32-bit hash function. */
  type Hash = seq<byte> -> u32

  datatype Bucket<V> = Bucket(head: Handle?<V>, count: nat, expandMult: nat)

  ghost predicate Within<V>(nodes: set<Handle<V>>, chains: seq<seq<Handle<V>>>) {
    forall b, i :: 0 <= b < |chains| && 0 <= i < |chains[b]| ==> chains[b][i] in nodes
  }

  /** Every item is in the chain of its hash value, once, and no chain has other items. */
  ghost predicate Placed<V>(hash: Hash, nodes: set<Handle<V>>, chains: seq<seq<Handle<V>>>) {
    && 0 < |chains|
    && Within(nodes, chains)
    && (forall b, i :: 0 <= b < |chains| && 0 <= i < |chains[b]| ==> hash(chains[b][i].key) % |chains| == b)
    && (forall h :: h in nodes ==> h in chains[hash(h.key) % |chains|])
    && (forall b :: 0 <= b < |chains| ==> NoDup(chains[b]))
  }

  /** The buckets hold these chains, and count them. */
  ghost predicate AllChained<V>(nodes: set<Handle<V>>, buckets: seq<Bucket<V>>, chains: seq<seq<Handle<V>>>)
    reads nodes`hhNext, nodes`hhPrev
  {
    && Within(nodes, chains)
    && |buckets| == |chains|
    && forall b :: 0 <= b < |chains| ==> Chained(buckets[b].head, chains[b]) && buckets[b].count == |chains[b]|
  }

  /** The items carry their hash values. */
  ghost predicate Hashed<V>(hash: Hash, nodes: set<Handle<V>>)
    reads nodes`hashv
  {
    forall h :: h in nodes ==> h.hashv == hash(h.key)
  }

  ghost function Pushed<V>(chains: seq<seq<Handle<V>>>, b: nat, h: Handle<V>): seq<seq<Handle<V>>>
    requires b < |chains|
  {
    chains[b := [h] + chains[b]]
  }

  lemma PlacedPushed<V>(hash: Hash, nodes: set<Handle<V>>, chains: seq<seq<Handle<V>>>, h: Handle<V>)
    requires Placed(hash, nodes, chains) && h !in nodes
    ensures Placed(hash, nodes + {h}, Pushed(chains, hash(h.key) % |chains|, h))
  {
    var b := hash(h.key) % |chains|;
    var chains' := Pushed(chains, b, h);
    assert forall i :: 1 <= i < |chains'[b]| ==> chains'[b][i] == chains[b][i - 1];
    assert chains'[b][0] == h;
    forall x | x in nodes
      ensures x in chains'[hash(x.key) % |chains|]
    {
      var c := hash(x.key) % |chains|;
      var i :| 0 <= i < |chains[c]| && chains[c][i] == x;
      if c == b {
        assert chains'[b][i + 1] == x;
      }
    }
  }

  lemma PlacedWithout<V>(hash: Hash, nodes: set<Handle<V>>, chains: seq<seq<Handle<V>>>, b: nat, k: nat)
    requires Placed(hash, nodes, chains) && b < |chains| && k < |chains[b]|
    ensures Placed(hash, nodes - {chains[b][k]}, chains[b := Without(chains[b], k)])
  {
    var h := chains[b][k];
    var chains' := chains[b := Without(chains[b], k)];
    forall x | x in nodes - {h}
      ensures x in chains'[hash(x.key) % |chains|]
    {
      var c := hash(x.key) % |chains|;
      var i :| 0 <= i < |chains[c]| && chains[c][i] == x;
      if c == b {
        assert chains'[b][if i < k then i else i - 1] == x;
      }
    }
  }

  /** Items in different chains are different. */
  lemma OtherChain<V>(hash: Hash, nodes: set<Handle<V>>, chains: seq<seq<Handle<V>>>, b: nat, c: nat, h: Handle<V>)
    requires Placed(hash, nodes, chains) && b < |chains| && c < |chains| && b != c && h in chains[b]
    ensures h !in chains[c]
  {
    OneChain(hash, nodes, chains, b);
    OneChain(hash, nodes, chains, c);
  }

  /** All chains are intact, given one that was worked on and the others untouched. */
  lemma AllChainedAgain<V>(nodes: set<Handle<V>>, buckets: seq<Bucket<V>>, chains: seq<seq<Handle<V>>>, b: nat)
    requires Within(nodes, chains) && |buckets| == |chains| && b < |chains|
    requires Chained(buckets[b].head, chains[b]) && buckets[b].count == |chains[b]|
    requires forall c :: 0 <= c < |chains| && c != b ==>
               Chained(buckets[c].head, chains[c]) && buckets[c].count == |chains[c]|
    ensures AllChained(nodes, buckets, chains)
  {
    hide Chained, Within;
  }

  lemma ChainOf<V>(nodes: set<Handle<V>>, buckets: seq<Bucket<V>>, chains: seq<seq<Handle<V>>>, b: nat)
    requires AllChained(nodes, buckets, chains) && b < |chains|
    ensures |buckets| == |chains| && Chained(buckets[b].head, chains[b]) && buckets[b].count == |chains[b]|
    ensures buckets[b].head == At(chains[b], 0)
  {
    hide Within;
  }

  /** Pushing an item into its bucket. */
  method Push<V>(arr: array<Bucket<V>>, b: nat, h: Handle<V>, expandMult: nat,
                 ghost hash: Hash, ghost nodes: set<Handle<V>>, ghost chains: seq<seq<Handle<V>>>)
    requires Placed(hash, nodes, chains) && AllChained(nodes, arr[..], chains)
    requires h !in nodes && b == hash(h.key) % |chains|
    modifies arr, h`hhNext, h`hhPrev, nodes`hhPrev
    ensures Placed(hash, nodes + {h}, Pushed(chains, b, h))
    ensures AllChained(nodes + {h}, arr[..], Pushed(chains, b, h))
    ensures arr[..] == old(arr[..])[b := Bucket(h, old(arr[b].count) + 1, expandMult)]
  {
    hide *;
    ghost var buckets := arr[..];
    PlacedPushed(hash, nodes, chains, h);
    PlacedWithin(hash, nodes, chains);
    PlacedWithin(hash, nodes + {h}, Pushed(chains, b, h));
    OneChain(hash, nodes, chains, b);
    ChainOf(nodes, buckets, chains, b);
    var head := arr[b].head;
    HeadIn(chains[b]);
    forall c | 0 <= c < |chains| && c != b
      ensures Chained(buckets[c].head, chains[c]) && buckets[c].count == |chains[c]|
      ensures h !in chains[c] && head !in chains[c]
    {
      ChainOf(nodes, buckets, chains, c);
      OneChain(hash, nodes, chains, c);
      if head != null {
        OtherChain(hash, nodes, chains, b, c, head);
      }
    }
    PushFront(head, h, chains[b]);
    arr[b] := Bucket(h, arr[b].count + 1, expandMult);
    PushedAt(chains, b, h);
    AllChainedAgain(nodes + {h}, arr[..], Pushed(chains, b, h), b);
  }

  lemma HeadIn<V>(s: seq<Handle<V>>)
    ensures At(s, 0) != null ==> At(s, 0) in s
  {
  }

  lemma PushedAt<V>(chains: seq<seq<Handle<V>>>, b: nat, h: Handle<V>)
    requires b < |chains|
    ensures Pushed(chains, b, h) == chains[b := [h] + chains[b]]
  {
  }

  /** HASH_DEL_IN_BKT. */
  method Remove<V>(arr: array<Bucket<V>>, b: nat, del: Handle<V>, ghost k: nat,
                   ghost hash: Hash, ghost nodes: set<Handle<V>>, ghost chains: seq<seq<Handle<V>>>)
    requires Placed(hash, nodes, chains) && AllChained(nodes, arr[..], chains)
    requires b < |chains| && k < |chains[b]| && chains[b][k] == del
    modifies arr, (nodes - {del})`hhNext, (nodes - {del})`hhPrev
    ensures Placed(hash, nodes - {del}, chains[b := Without(chains[b], k)])
    ensures AllChained(nodes - {del}, arr[..], chains[b := Without(chains[b], k)])
  {
    hide *;
    ghost var buckets := arr[..];
    PlacedWithout(hash, nodes, chains, b, k);
    PlacedWithin(hash, nodes, chains);
    PlacedWithin(hash, nodes - {del}, chains[b := Without(chains[b], k)]);
    OneChain(hash, nodes, chains, b);
    ChainOf(nodes, buckets, chains, b);
    ChainNeighbours(nodes, arr[b].head, chains[b], k);
    ghost var prev, next := del.hhPrev, del.hhNext;
    forall c | 0 <= c < |chains| && c != b
      ensures Chained(buckets[c].head, chains[c]) && buckets[c].count == |chains[c]|
      ensures prev !in chains[c] && next !in chains[c]
    {
      ChainOf(nodes, buckets, chains, c);
      if prev != null {
        OtherChain(hash, nodes, chains, b, c, prev);
      }
      if next != null {
        OtherChain(hash, nodes, chains, b, c, next);
      }
    }
    var head := Unchain(arr[b].head, del, chains[b], k);
    arr[b] := Bucket(head, arr[b].count - 1, arr[b].expandMult);
    AllChainedAgain(nodes - {del}, arr[..], chains[b := Without(chains[b], k)], b);
  }

  lemma ChainNeighbours<V>(nodes: set<Handle<V>>, head: Handle?<V>, s: seq<Handle<V>>, k: nat)
    requires Chained(head, s) && NoDup(s) && k < |s| && forall h :: h in s ==> h in nodes
    ensures s[k].hhPrev == At(s, k - 1) && s[k].hhNext == At(s, k + 1)
    ensures s[k].hhPrev != null ==> s[k].hhPrev in nodes - {s[k]} && s[k].hhPrev in s
    ensures s[k].hhNext != null ==> s[k].hhNext in nodes - {s[k]} && s[k].hhNext in s
  {
  }

  lemma PlacedWithin<V>(hash: Hash, nodes: set<Handle<V>>, chains: seq<seq<Handle<V>>>)
    requires Placed(hash, nodes, chains)
    ensures 0 < |chains| && Within(nodes, chains)
  {
  }

  lemma OneChain<V>(hash: Hash, nodes: set<Handle<V>>, chains: seq<seq<Handle<V>>>, b: nat)
    requires Placed(hash, nodes, chains) && b < |chains|
    ensures NoDup(chains[b]) && forall h :: h in chains[b] ==> h in nodes && hash(h.key) % |chains| == b
  {
  }
}
