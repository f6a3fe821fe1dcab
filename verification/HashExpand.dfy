/** HASH_EXPAND_BUCKETS: every item moves to one of twice as many buckets, in place. */
module HashExpand {
  import opened HashLinks
  import opened HashChains
  import opened HashBits

  // ---------------------------------------------------------------- how far the loops have got

  /** `done` are the items of the chains before `b`, and the first `j` of chain `b`. */
  ghost predicate Moved<V>(hash: Hash, nodes: set<Handle<V>>, chains: seq<seq<Handle<V>>>,
                           done: set<Handle<V>>, b: nat, j: nat)
  {
    && b <= |chains| && (if b < |chains| then j <= |chains[b]| else j == 0) && 0 < |chains|
    && done <= nodes
    && forall h :: h in nodes ==>
         (h in done <==> hash(h.key) % |chains| < b || (b < |chains| && h in chains[b][..j]))
  }

  lemma MovedFirst<V>(hash: Hash, nodes: set<Handle<V>>, chains: seq<seq<Handle<V>>>)
    requires 0 < |chains|
    ensures Moved(hash, nodes, chains, {}, 0, 0)
  {
  }

  lemma MovedOne<V>(hash: Hash, nodes: set<Handle<V>>, chains: seq<seq<Handle<V>>>,
                    done: set<Handle<V>>, b: nat, j: nat)
    requires Placed(hash, nodes, chains) && Moved(hash, nodes, chains, done, b, j)
    requires b < |chains| && j < |chains[b]|
    ensures chains[b][j] in nodes && chains[b][j] !in done
    ensures Moved(hash, nodes, chains, done + {chains[b][j]}, b, j + 1)
  {
    OneChain(hash, nodes, chains, b);
    var s := chains[b];
    assert s[..j + 1] == s[..j] + [s[j]];
  }

  lemma MovedChain<V>(hash: Hash, nodes: set<Handle<V>>, chains: seq<seq<Handle<V>>>, done: set<Handle<V>>, b: nat)
    requires Placed(hash, nodes, chains) && b < |chains| && Moved(hash, nodes, chains, done, b, |chains[b]|)
    ensures Moved(hash, nodes, chains, done, b + 1, 0)
  {
    OneChain(hash, nodes, chains, b);
    assert chains[b][..|chains[b]|] == chains[b];
    assert b + 1 < |chains| ==> chains[b + 1][..0] == [];
  }

  lemma MovedAll<V>(hash: Hash, nodes: set<Handle<V>>, chains: seq<seq<Handle<V>>>, done: set<Handle<V>>)
    requires Moved(hash, nodes, chains, done, |chains|, 0)
    ensures done == nodes
  {
  }

  lemma NotMovedYet<V>(hash: Hash, nodes: set<Handle<V>>, chains: seq<seq<Handle<V>>>,
                       done: set<Handle<V>>, b: nat, j: nat, h: Handle<V>)
    requires Placed(hash, nodes, chains) && Moved(hash, nodes, chains, done, b, j)
    requires b < |chains| && h in nodes && hash(h.key) % |chains| > b
    ensures h !in done && (j < |chains[b]| ==> h != chains[b][j])
  {
    OneChain(hash, nodes, chains, b);
  }

  /** The rest of a chain can still be followed from `h` on. */
  ghost predicate Followed<V>(h: Handle?<V>, rest: seq<Handle<V>>)
    reads rest`hhNext
  {
    h == At(rest, 0) && forall i :: 0 <= i < |rest| ==> rest[i].hhNext == At(rest, i + 1)
  }

  lemma FollowedNext<V>(h: Handle?<V>, s: seq<Handle<V>>, j: nat)
    requires j <= |s| && Followed(h, s[j..]) && NoDup(s)
    ensures h == null <==> j == |s|
    ensures h != null ==> h == s[j] && Followed(h.hhNext, s[j + 1..]) && h !in s[j + 1..]
  {
    if j < |s| {
      var t, u := s[j..], s[j + 1..];
      assert forall i :: 0 <= i < |u| ==> u[i] == t[i + 1];
    }
  }

  // ---------------------------------------------------------------- chain lengths

  function Surplus(count: nat, ideal: nat): nat {
    if count > ideal then count - ideal else 0
  }

  /** The items beyond the ideal position in their chains. */
  ghost function Excess<V>(buckets: seq<Bucket<V>>, ideal: nat): nat {
    if buckets == [] then 0 else Surplus(buckets[0].count, ideal) + Excess(buckets[1..], ideal)
  }

  lemma {:induction false} ExcessUpdate<V>(buckets: seq<Bucket<V>>, ideal: nat, b: nat, x: Bucket<V>)
    requires b < |buckets|
    ensures Excess(buckets[b := x], ideal) + Surplus(buckets[b].count, ideal) ==
            Excess(buckets, ideal) + Surplus(x.count, ideal)
    decreases b
  {
    var t := buckets[b := x];
    if b == 0 {
      assert t[1..] == buckets[1..];
    } else {
      assert t[1..] == buckets[1..][b - 1 := x];
      ExcessUpdate(buckets[1..], ideal, b - 1, x);
    }
  }

  lemma {:induction false} NoExcess<V>(buckets: seq<Bucket<V>>, ideal: nat)
    requires forall b :: 0 <= b < |buckets| ==> buckets[b].count == 0
    ensures Excess(buckets, ideal) == 0
  {
    if buckets != [] {
      NoExcess(buckets[1..], ideal);
    }
  }

  /** No chain is longer than its multiplier allows. */
  ghost predicate Bounded<V>(buckets: seq<Bucket<V>>, ideal: nat) {
    forall b :: 0 <= b < |buckets| ==> Allowed(buckets[b].count, buckets[b].expandMult, ideal)
  }

  /** The multiplier is zero as long as the chain is ideal, and then the count is near its multiple. */
  predicate Allowed(count: nat, mult: nat, ideal: nat) {
    && count <= (mult + 1) * ideal
    && (mult == 0 <==> count <= ideal)
    && (mult > 0 ==> (mult - 1) * ideal < count)
  }

  /** The places in chains beyond the ideal length. */
  ghost function Beyond<V>(chains: seq<seq<Handle<V>>>, ideal: nat): set<(nat, nat)> {
    set b: nat, i: nat | b < |chains| && ideal <= i < |chains[b]| :: (b, i)
  }

  lemma {:induction false} PlacesOfChain(b: nat, lo: nat, hi: nat)
    ensures |set i: nat | lo <= i < hi :: (b, i)| == if lo <= hi then hi - lo else 0
    decreases hi
  {
    var places := set i: nat | lo <= i < hi :: (b, i);
    if lo < hi {
      PlacesOfChain(b, lo, hi - 1);
      assert places == (set i: nat | lo <= i < hi - 1 :: (b, i)) + {(b, hi - 1)};
    } else {
      assert places == {};
    }
  }

  lemma {:induction false} ExcessSnoc<V>(buckets: seq<Bucket<V>>, x: Bucket<V>, ideal: nat)
    ensures Excess(buckets + [x], ideal) == Excess(buckets, ideal) + Surplus(x.count, ideal)
  {
    if buckets == [] {
      assert (buckets + [x])[1..] == [];
    } else {
      assert (buckets + [x])[1..] == buckets[1..] + [x];
      ExcessSnoc(buckets[1..], x, ideal);
    }
  }

  /** The excess is the number of those places. */
  lemma {:induction false} ExcessIsNumber<V>(buckets: seq<Bucket<V>>, chains: seq<seq<Handle<V>>>, ideal: nat)
    requires |buckets| == |chains| && forall b :: 0 <= b < |chains| ==> buckets[b].count == |chains[b]|
    ensures Excess(buckets, ideal) == |Beyond(chains, ideal)|
    decreases |chains|
  {
    hide Beyond;
    if chains == [] {
      BeyondNone<V>(ideal);
    } else {
      var n := |chains| - 1;
      ExcessIsNumber(buckets[..n], chains[..n], ideal);
      ExcessSnoc(buckets[..n], buckets[n], ideal);
      assert buckets[..n] + [buckets[n]] == buckets;
      PlacesOfChain(n, ideal, |chains[n]|);
      BeyondSnoc(chains, ideal);
    }
  }

  lemma BeyondNone<V>(ideal: nat)
    ensures Beyond<V>([], ideal) == {}
  {
  }

  lemma BeyondSnoc<V>(chains: seq<seq<Handle<V>>>, ideal: nat)
    requires chains != []
    ensures var n := |chains| - 1; var last := set i: nat | ideal <= i < |chains[n]| :: (n, i);
      Beyond(chains, ideal) == Beyond(chains[..n], ideal) + last && Beyond(chains[..n], ideal) !! last
  {
  }

  /** What an expansion leaves in the buckets, number by number. */
  lemma BucketsAre<V>(nodes: set<Handle<V>>, buckets: seq<Bucket<V>>, chains: seq<seq<Handle<V>>>, ideal: nat)
    requires AllChained(nodes, buckets, chains) && Bounded(buckets, ideal)
    ensures Excess(buckets, ideal) == |set b: nat, i: nat | b < |chains| && ideal <= i < |chains[b]| :: (b, i)|
    ensures forall b :: 0 <= b < |buckets| ==>
      && buckets[b].count <= (buckets[b].expandMult + 1) * ideal
      && (buckets[b].expandMult == 0 <==> buckets[b].count <= ideal)
      && (buckets[b].expandMult > 0 ==> (buckets[b].expandMult - 1) * ideal < buckets[b].count)
  {
    hide Excess, Within, Chained;
    ExcessIsNumber(buckets, chains, ideal);
  }

  /** The multiplier of a bucket that has just got its `count`-th item. */
  function NextMult(count: nat, mult: nat, ideal: nat): nat {
    if count > ideal && count > mult * ideal then mult + 1 else mult
  }

  lemma StillAllowed(count: nat, mult: nat, ideal: nat)
    requires 0 < ideal && Allowed(count, mult, ideal)
    ensures Allowed(count + 1, NextMult(count + 1, mult, ideal), ideal)
  {
    Times(mult, ideal);
    Times(mult + 1, ideal);
    TimesMonotone(1, mult + 1, ideal);
  }

  lemma TimesMonotone(a: nat, b: nat, k: nat)
    requires a <= b
    ensures a * k <= b * k
  {
  }

  // ---------------------------------------------------------------- moving

  /** The body of the loops: one item goes to its new bucket. */
  method MoveOne<V>(arr: array<Bucket<V>>, h: Handle<V>, log2: nat, ideal: nat, nonideal: nat,
                    ghost hash: Hash, ghost done: set<Handle<V>>, ghost chains: seq<seq<Handle<V>>>)
    returns (nonideal': nat, ghost chains': seq<seq<Handle<V>>>)
    requires Placed(hash, done, chains) && AllChained(done, arr[..], chains) && h !in done
    requires |chains| == Pow2(log2) && h.hashv == hash(h.key)
    requires 0 < ideal && nonideal == Excess(arr[..], ideal) && Bounded(arr[..], ideal)
    modifies arr, h`hhNext, h`hhPrev, done`hhPrev
    ensures |chains'| == |chains| && Placed(hash, done + {h}, chains') && AllChained(done + {h}, arr[..], chains')
    ensures nonideal' == Excess(arr[..], ideal) && Bounded(arr[..], ideal)
  {
    hide Placed, AllChained, Excess, BitAnd, Pow2, Within, Allowed, NextMult;
    MaskIsRemainder(h.hashv, log2);
    PlacedWithin(hash, done, chains);
    ChainedLength(done, arr[..], chains);
    var b := BitAnd(h.hashv, Pow2(log2) - 1);
    var count, mult := arr[b].count + 1, arr[b].expandMult;
    ghost var x := Bucket(h, count, NextMult(count, mult, ideal));
    ExcessUpdate(arr[..], ideal, b, x);
    StillAllowed(count - 1, mult, ideal);
    OneMore(count, mult, ideal);
    nonideal' := nonideal;
    if count > ideal {
      nonideal' := nonideal' + 1;
      if count > mult * ideal {
        mult := mult + 1;
      }
    }
    Push(arr, b, h, mult, hash, done, chains);
    chains' := Pushed(chains, b, h);
    PushedAt(chains, b, h);
  }

  lemma OneMore(count: nat, mult: nat, ideal: nat)
    requires 0 < count
    ensures Surplus(count, ideal) == Surplus(count - 1, ideal) + if count > ideal then 1 else 0
    ensures NextMult(count, mult, ideal) == if count > ideal && count > mult * ideal then mult + 1 else mult
  {
  }

  lemma ChainedLength<V>(nodes: set<Handle<V>>, buckets: seq<Bucket<V>>, chains: seq<seq<Handle<V>>>)
    requires AllChained(nodes, buckets, chains)
    ensures |buckets| == |chains|
  {
  }

  /** The inner loop: all items of one old chain. */
  method MoveChain<V>(arr: array<Bucket<V>>, head: Handle?<V>, log2: nat, ideal: nat, nonideal: nat,
                      ghost hash: Hash, ghost nodes: set<Handle<V>>, ghost chains: seq<seq<Handle<V>>>,
                      ghost done: set<Handle<V>>, ghost b: nat, ghost newChains: seq<seq<Handle<V>>>)
    returns (nonideal': nat, ghost done': set<Handle<V>>, ghost newChains': seq<seq<Handle<V>>>)
    requires Placed(hash, nodes, chains) && b < |chains| && Moved(hash, nodes, chains, done, b, 0)
    requires Followed(head, chains[b])
    requires Hashed(hash, nodes)
    requires Placed(hash, done, newChains) && AllChained(done, arr[..], newChains) && |newChains| == Pow2(log2)
    requires 0 < ideal && nonideal == Excess(arr[..], ideal) && Bounded(arr[..], ideal)
    modifies arr, nodes`hhNext, nodes`hhPrev
    ensures Moved(hash, nodes, chains, done', b + 1, 0)
    ensures Placed(hash, done', newChains') && AllChained(done', arr[..], newChains') && |newChains'| == Pow2(log2)
    ensures nonideal' == Excess(arr[..], ideal) && Bounded(arr[..], ideal)
    ensures forall h :: h in nodes && hash(h.key) % |chains| > b ==> unchanged(h)
  {
    hide *;
    var thh := head;
    ghost var s, j := chains[b], 0;
    nonideal', done', newChains' := nonideal, done, newChains;
    OneChain(hash, nodes, chains, b);
    assert s[0..] == s;
    FollowedNext(thh, s, j);
    while thh != null
      invariant j <= |s| && Followed(thh, s[j..])
      invariant Moved(hash, nodes, chains, done', b, j)
      invariant Placed(hash, done', newChains') && AllChained(done', arr[..], newChains') && |newChains'| == Pow2(log2)
      invariant nonideal' == Excess(arr[..], ideal) && Bounded(arr[..], ideal)
      invariant forall h :: h in nodes && hash(h.key) % |chains| > b ==> unchanged(h)
      invariant Hashed(hash, nodes)
      invariant thh == null <==> j == |s|
      decreases |s| - j
    {
      FollowedNext(thh, s, j);
      MovedOne(hash, nodes, chains, done', b, j);
      forall h | h in nodes && hash(h.key) % |chains| > b
        ensures h !in done' && h != thh
      {
        NotMovedYet(hash, nodes, chains, done', b, j, h);
      }
      MovedSubset(hash, nodes, chains, done', b, j);
      HashedAt(hash, nodes, thh);
      var next := thh.hhNext;
      nonideal', newChains' := MoveOne(arr, thh, log2, ideal, nonideal', hash, done', newChains');
      done' := done' + {thh};
      thh, j := next, j + 1;
      FollowedNext(thh, s, j);
    }
    MovedChain(hash, nodes, chains, done', b);
  }

  lemma HashedAt<V>(hash: Hash, nodes: set<Handle<V>>, h: Handle<V>)
    requires Hashed(hash, nodes) && h in nodes
    ensures h.hashv == hash(h.key)
  {
  }

  lemma MovedSubset<V>(hash: Hash, nodes: set<Handle<V>>, chains: seq<seq<Handle<V>>>,
                       done: set<Handle<V>>, b: nat, j: nat)
    requires Moved(hash, nodes, chains, done, b, j)
    ensures done <= nodes
  {
  }

  lemma NewBuckets<V>(hash: Hash, buckets: seq<Bucket<V>>, chains: seq<seq<Handle<V>>>, ideal: nat)
    requires 0 < |buckets| == |chains|
    requires forall b :: 0 <= b < |buckets| ==> buckets[b] == Bucket(null, 0, 0) && chains[b] == []
    ensures Placed(hash, {}, chains) && AllChained({}, buckets, chains)
    ensures Excess(buckets, ideal) == 0 && Bounded(buckets, ideal)
  {
    NoExcess(buckets, ideal);
  }

  /** The outer loop: all items of all old chains, into buckets that start out empty. */
  method MoveAll<V>(arr: array<Bucket<V>>, olds: array<Bucket<V>>, log2: nat, ideal: nat,
                    ghost hash: Hash, ghost nodes: set<Handle<V>>, ghost chains: seq<seq<Handle<V>>>)
    returns (nonideal: nat, ghost newChains: seq<seq<Handle<V>>>)
    requires arr != olds && arr.Length == Pow2(log2) && forall b :: 0 <= b < arr.Length ==> arr[b] == Bucket(null, 0, 0)
    requires Placed(hash, nodes, chains) && AllChained(nodes, olds[..], chains) && olds.Length == |chains|
    requires Hashed(hash, nodes)
    requires 0 < ideal
    modifies arr, nodes`hhNext, nodes`hhPrev
    ensures Placed(hash, nodes, newChains) && AllChained(nodes, arr[..], newChains) && |newChains| == Pow2(log2)
    ensures nonideal == Excess(arr[..], ideal) && Bounded(arr[..], ideal)
  {
    hide *;
    ghost var done: set<Handle<V>> := {};
    nonideal, newChains := 0, seq(arr.Length, _ => []);
    NewBuckets(hash, arr[..], newChains, ideal);
    PlacedWithin(hash, nodes, chains);
    MovedFirst(hash, nodes, chains);
    forall c | 0 <= c < |chains|
      ensures Chained(olds[c].head, chains[c])
    {
      ChainOf(nodes, olds[..], chains, c);
    }
    for i := 0 to olds.Length
      invariant olds[..] == old(olds[..])
      invariant Moved(hash, nodes, chains, done, i, 0)
      invariant Placed(hash, done, newChains) && AllChained(done, arr[..], newChains) && |newChains| == Pow2(log2)
      invariant nonideal == Excess(arr[..], ideal) && Bounded(arr[..], ideal)
      invariant forall c :: i <= c < |chains| ==> Chained(olds[c].head, chains[c])
      invariant Hashed(hash, nodes)
    {
      ChainedIsFollowed(olds[i].head, chains[i]);
      forall c, h | i < c < |chains| && h in chains[c]
        ensures h in nodes && hash(h.key) % |chains| == c
      {
        OneChain(hash, nodes, chains, c);
      }
      nonideal, done, newChains :=
        MoveChain(arr, olds[i].head, log2, ideal, nonideal, hash, nodes, chains, done, i, newChains);
    }
    MovedAll(hash, nodes, chains, done);
  }

  lemma ChainedIsFollowed<V>(head: Handle?<V>, s: seq<Handle<V>>)
    requires Chained(head, s)
    ensures Followed(head, s)
  {
  }
}
