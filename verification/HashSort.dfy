/** HASH_SRT: the merge sort on the insertion-order list, in place. */
module HashSort {
  import opened Bytes
  import opened HashLinks
  import opened HashTable
  import opened MergeSort

  // ---------------------------------------------------------------- lists in the making

  /** A list that can be followed from `h` to its end, whatever its `prev` links. */
  ghost predicate Forward<V>(h: Handle?<V>, s: seq<Handle<V>>)
    reads s`next
  {
    h == At(s, 0) && forall i :: 0 <= i < |s| ==> s[i].next == At(s, i + 1)
  }

  /** The run of the first `|s|` items that can be reached from `h`; its last `next` does not matter. */
  ghost predicate RunFrom<V>(h: Handle?<V>, s: seq<Handle<V>>)
    reads s`next
  {
    (s != [] ==> h == s[0]) && forall i :: 0 <= i < |s| - 1 ==> s[i].next == s[i + 1]
  }

  /** The list built so far: linked both ways, except that its end is still open. */
  ghost predicate Built<V>(list: Handle?<V>, tail: Handle?<V>, s: seq<Handle<V>>)
    reads s`next, s`prev
  {
    && list == At(s, 0) && tail == At(s, |s| - 1)
    && (forall i :: 0 <= i < |s| - 1 ==> s[i].next == s[i + 1])
    && (forall i :: 0 <= i < |s| ==> s[i].prev == At(s, i - 1))
  }

  /** Appending an item to the list built so far. */
  method AppendItem<V>(list: Handle?<V>, tail: Handle?<V>, e: Handle<V>, ghost s: seq<Handle<V>>)
    returns (list': Handle?<V>)
    requires Built(list, tail, s) && NoDup(s) && e !in s
    modifies e`prev, (if tail != null then {tail} else {})`next
    ensures Built(list', e, s + [e])
  {
    list' := list;
    if tail != null {
      tail.next := e;
    } else {
      list' := e;
    }
    e.prev := tail;
    ghost var t := s + [e];
    forall i | 0 <= i < |t|
      ensures t[i].prev == At(t, i - 1)
    {
      assert i < |s| ==> t[i] == s[i] && At(t, i - 1) == At(s, i - 1);
    }
  }

  /** What is built, and the two runs still to be merged, have no item in common. */
  ghost predicate Split<V>(out: seq<Handle<V>>, p: seq<Handle<V>>, q: seq<Handle<V>>) {
    && NoDup(out) && NoDup(p) && NoDup(q)
    && (forall h :: h in out ==> h !in p && h !in q)
    && (forall h :: h in p ==> h !in q)
  }

  lemma SplitTakeP<V>(out: seq<Handle<V>>, p: seq<Handle<V>>, q: seq<Handle<V>>)
    requires Split(out, p, q) && p != []
    ensures p[0] !in out && p[0] !in q && p[0] !in p[1..]
    ensures Split(out + [p[0]], p[1..], q)
  {
  }

  lemma SplitTakeQ<V>(out: seq<Handle<V>>, p: seq<Handle<V>>, q: seq<Handle<V>>)
    requires Split(out, p, q) && q != []
    ensures q[0] !in out && q[0] !in p && q[0] !in q[1..]
    ensures Split(out + [q[0]], p, q[1..])
  {
  }

  lemma RunNext<V>(h: Handle?<V>, s: seq<Handle<V>>)
    requires RunFrom(h, s) && s != []
    ensures h == s[0] && RunFrom(h.next, s[1..])
  {
  }

  lemma ForwardNext<V>(h: Handle?<V>, s: seq<Handle<V>>)
    requires Forward(h, s)
    ensures h == null <==> s == []
    ensures s != [] ==> h == s[0] && Forward(h.next, s[1..])
  {
  }

  lemma BuiltTail<V>(list: Handle?<V>, tail: Handle?<V>, s: seq<Handle<V>>)
    requires Built(list, tail, s)
    ensures tail == null <==> s == []
    ensures list == null <==> s == []
    ensures s != [] ==> tail == s[|s| - 1] && list == s[0] && tail in s
  {
  }

  // ---------------------------------------------------------------- merging two runs

  lemma MinLeast(a: nat, b: nat)
    ensures Min(a, b) <= a && Min(a, b) <= b && (Min(a, b) == a || Min(a, b) == b)
  {
  }

  /** Removing the first item of the second run. */
  lemma QueueNext<V>(q: Handle?<V>, rest: seq<Handle<V>>, j: nat, n: nat)
    requires j < n <= |rest| && Forward(q, rest[j..])
    ensures q == rest[j] && Forward(rest[j].next, rest[j + 1..])
    ensures rest[j..][0] == rest[j] && rest[j..][1..] == rest[j + 1..]
    ensures rest[j..n] != [] && rest[j..n][0] == rest[j] && rest[j..n][1..] == rest[j + 1..n]
  {
    ForwardNext(q, rest[j..]);
  }

  lemma MergeTakesP<T, K>(o: Order<T, K>, p: seq<T>, q: seq<T>)
    requires p != [] && (q != [] ==> Cmp(o, p[0], q[0]) <= 0)
    ensures Merge(o, p, q) == [p[0]] + Merge(o, p[1..], q)
  {
    MergeStep(o, p, q);
    MergeStep(o, p[1..], q);
    if q == [] {
      assert p == [p[0]] + p[1..];
    }
  }

  lemma MergeTakesQ<T, K>(o: Order<T, K>, p: seq<T>, q: seq<T>)
    requires q != [] && (p != [] ==> Cmp(o, p[0], q[0]) > 0)
    ensures Merge(o, p, q) == [q[0]] + Merge(o, p, q[1..])
  {
    MergeStep(o, p, q);
    MergeStep(o, p, q[1..]);
    if p == [] {
      assert q == [q[0]] + q[1..];
    }
  }

  /** The branches of the inner loop: which item comes next, and how far that takes us. */
  method TakeOne<V, K>(order: Order<Handle<V>, K>, p: Handle?<V>, psize: nat, q: Handle?<V>, qsize: nat,
                       ghost out: seq<Handle<V>>, ghost ps: seq<Handle<V>>, ghost rest: seq<Handle<V>>,
                       ghost j: nat, ghost n: nat)
    returns (e: Handle<V>, p': Handle?<V>, psize': nat, q': Handle?<V>, qsize': nat,
             ghost ps': seq<Handle<V>>, ghost j': nat)
    requires j <= n <= |rest| && n == Min(j + qsize, |rest|)
    requires RunFrom(p, ps) && psize == |ps| && Forward(q, rest[j..])
    requires Split(out, ps, rest[j..])
    requires psize != 0 || (qsize != 0 && q != null)
    ensures RunFrom(p', ps') && psize' == |ps'| && j <= j' <= n && Forward(q', rest[j'..])
    ensures j' + qsize' == j + qsize && psize' + qsize' < psize + qsize
    ensures e !in out && e !in ps' && e !in rest[j'..] && (e in ps || e in rest) && Split(out + [e], ps', rest[j'..])
    ensures forall h :: h in ps' ==> h in ps
    ensures Merge(order, ps, rest[j..n]) == [e] + Merge(order, ps', rest[j'..n])
  {
    hide *;
    MinLeast(j + qsize, |rest|);
    ForwardNext(q, rest[j..]);
    p', psize', q', qsize', ps', j' := p, psize, q, qsize, ps, j;
    if psize == 0 {
      e := q;
      q' := q.next;
      qsize', j' := qsize - 1, j + 1;
      QueueNext(q, rest, j, n);
      SplitTakeQ(out, ps, rest[j..]);
      MergeTakesQ(order, ps, rest[j..n]);
    } else if qsize == 0 || q == null {
      RunNext(p, ps);
      e := p;
      p' := p.next;
      psize', ps' := psize - 1, ps[1..];
      SplitTakeP(out, ps, rest[j..]);
      assert rest[j..n] == [];
      MergeTakesP(order, ps, rest[j..n]);
    } else {
      RunNext(p, ps);
      QueueNext(q, rest, j, n);
      if Cmp(order, p, q) <= 0 {
        e := p;
        p' := p.next;
        psize', ps' := psize - 1, ps[1..];
        SplitTakeP(out, ps, rest[j..]);
        MergeTakesP(order, ps, rest[j..n]);
      } else {
        e := q;
        q' := q.next;
        qsize', j' := qsize - 1, j + 1;
        SplitTakeQ(out, ps, rest[j..]);
        MergeTakesQ(order, ps, rest[j..n]);
      }
    }
  }

  /** The inner loop: merges the run at `firstP` with the first `insize` items from `firstQ` on. */
  method MergeRuns<V, K>(order: Order<Handle<V>, K>, first: Handle?<V>, last: Handle?<V>,
                         firstP: Handle?<V>, sizeP: nat, firstQ: Handle?<V>, insize: nat,
                         ghost nodes: set<Handle<V>>, ghost out: seq<Handle<V>>,
                         ghost run: seq<Handle<V>>, ghost rest: seq<Handle<V>>)
    returns (list: Handle?<V>, tail: Handle?<V>, q: Handle?<V>, ghost out': seq<Handle<V>>)
    requires Built(first, last, out) && RunFrom(firstP, run) && sizeP == |run| && Forward(firstQ, rest)
    requires Split(out, run, rest)
    requires forall h :: h in out || h in run || h in rest ==> h in nodes
    modifies nodes`next, nodes`prev
    ensures var n := Min(insize, |rest|);
            && n <= |rest|
            && out' == out + Merge(order, run, rest[..n]) && Forward(q, rest[n..])
            && Built(list, tail, out') && Split(out', [], rest[n..])
            && (forall h :: h in out' ==> h in nodes)
  {
    hide *;
    ghost var n, j := Min(insize, |rest|), 0;
    MinLeast(insize, |rest|);
    var p := firstP;
    var psize, qsize := sizeP, insize;
    list, tail, q, out' := first, last, firstQ, out;
    ghost var ps := run;
    assert rest[0..] == rest;
    ForwardNext(q, rest[j..]);
    while psize != 0 || (qsize != 0 && q != null)
      invariant j <= n && j + qsize == insize && psize == |ps|
      invariant Built(list, tail, out') && RunFrom(p, ps) && Forward(q, rest[j..]) && Split(out', ps, rest[j..])
      invariant out' + Merge(order, ps, rest[j..n]) == out + Merge(order, run, rest[..n])
      invariant forall h :: h in out' || h in ps ==> h in nodes
      invariant q == null <==> j == |rest|
      decreases psize + qsize
    {
      var e;
      ghost var before, m := out', Merge(order, ps, rest[j..n]);
      e, p, psize, q, qsize, ps, j := TakeOne(order, p, psize, q, qsize, out', ps, rest, j, n);
      Assoc(before, [e], Merge(order, ps, rest[j..n]));
      BuiltTail(list, tail, out');
      SplitFirst(out', ps, rest[j..], e);
      list := AppendItem(list, tail, e, out');
      tail, out' := e, out' + [e];
      ForwardNext(q, rest[j..]);
    }
    assert ps == [] && rest[j..n] == [];
    MergeStep(order, ps, rest[j..n]);
    assert out' + [] == out';
  }

  lemma SplitFirst<V>(out: seq<Handle<V>>, p: seq<Handle<V>>, q: seq<Handle<V>>, e: Handle<V>)
    requires Split(out + [e], p, q)
    ensures NoDup(out) && forall h :: h in out ==> h !in p && h !in q
  {
    var t := out + [e];
    assert forall i :: 0 <= i < |out| ==> t[i] == out[i];
    forall h | h in out
      ensures h !in p && h !in q
    {
      assert h in t;
    }
  }

  // ---------------------------------------------------------------- one pass

  /** Steps over the first run: at most `insize` items. */
  method StepOver<V>(p: Handle<V>, insize: nat, ghost rest: seq<Handle<V>>) returns (q: Handle?<V>, psize: nat)
    requires Forward(p, rest) && rest != [] && 0 < insize
    ensures psize == Min(insize, |rest|) && psize <= |rest|
    ensures RunFrom(p, rest[..psize]) && Forward(q, rest[psize..])
  {
    hide Forward, RunFrom, Min;
    q := p;
    psize := 0;
    assert rest[0..] == rest;
    ForwardNext(q, rest[psize..]);
    for i := 0 to insize
      invariant psize == i < |rest| && q != null && Forward(q, rest[psize..])
    {
      ForwardNext(q, rest[psize..]);
      assert rest[psize..][1..] == rest[psize + 1..];
      psize := psize + 1;
      q := q.next;
      ForwardNext(q, rest[psize..]);
      if q == null {
        break;
      }
    }
    MinLeast(insize, |rest|);
    ForwardNext(q, rest[psize..]);
    RunOfForward(p, rest, psize);
  }

  lemma RunOfForward<V>(h: Handle?<V>, s: seq<Handle<V>>, n: nat)
    requires Forward(h, s) && n <= |s|
    ensures RunFrom(h, s[..n])
  {
  }

  lemma SplitRun<V>(out: seq<Handle<V>>, rest: seq<Handle<V>>, n: nat)
    requires Split(out, [], rest) && n <= |rest|
    ensures Split(out, rest[..n], rest[n..])
    ensures forall h :: h in rest[..n] || h in rest[n..] ==> h in rest
  {
    var a, b := rest[..n], rest[n..];
    forall i, j | 0 <= i < |a| && 0 <= j < |b|
      ensures a[i] != b[j]
    {
      assert a[i] == rest[i] && b[j] == rest[n + j];
    }
  }

  /** A pass, in terms of the run stepped over and the run that follows it. */
  lemma PassParts<T, K>(o: Order<T, K>, s: seq<T>, k: nat)
    requires 0 < k && s != []
    ensures Min(k, |s|) <= |s|
    ensures var a := Min(k, |s|); var n := Min(k, |s[a..]|);
            && n <= |s[a..]|
            && Pass(o, s, k) == Merge(o, s[..a], s[a..][..n]) + Pass(o, s[a..][n..], k)
            && Merges(|s|, k) == 1 + Merges(|s[a..][n..]|, k)
            && |s[a..][n..]| < |s|
  {
    hide Merge, Pass;
    var a := Min(k, |s|);
    var n := Min(k, |s[a..]|);
    assert a + n == Min(2 * k, |s|);
    PassStep(o, s, k);
    Cut(s, a, n);
  }

  lemma Cut<T>(s: seq<T>, a: nat, n: nat)
    requires a + n <= |s|
    ensures s[a..][..n] == s[a..a + n] && s[a..][n..] == s[a + n..]
  {
  }

  /** The body of the outermost loop: one pass over the list. */
  method OnePass<V, K>(order: Order<Handle<V>, K>, first: Handle<V>, insize: nat,
                       ghost nodes: set<Handle<V>>, ghost s: seq<Handle<V>>)
    returns (list: Handle?<V>, tail: Handle?<V>, nmerges: nat)
    requires Forward(first, s) && NoDup(s) && 0 < insize && forall h :: h in s ==> h in nodes
    modifies nodes`next, nodes`prev
    ensures nmerges == Merges(|s|, insize)
    ensures var t := Pass(order, s, insize);
            Listed(t) && NoDup(t) && list == At(t, 0) && tail == At(t, |t| - 1)
  {
    hide *;
    var p: Handle?<V> := first;
    list, tail, nmerges := null, null, 0;
    ghost var out: seq<Handle<V>>, rest := [], s;
    Start(s);
    assert out + Pass(order, rest, insize) == Pass(order, s, insize);
    while p != null
      invariant Forward(p, rest) && Built(list, tail, out) && Split(out, [], rest)
      invariant out + Pass(order, rest, insize) == Pass(order, s, insize)
      invariant nmerges + Merges(|rest|, insize) == Merges(|s|, insize)
      invariant forall h :: h in out || h in rest ==> h in nodes
      decreases |rest|
    {
      nmerges := nmerges + 1;
      ForwardNext(p, rest);
      var q, psize := StepOver(p, insize, rest);
      SplitRun(out, rest, psize);
      PassParts(order, rest, insize);
      ghost var before, n := out, Min(insize, |rest[psize..]|);
      ghost var merged := Merge(order, rest[..psize], rest[psize..][..n]);
      list, tail, p, out := MergeRuns(order, list, tail, p, psize, q, insize, nodes, out, rest[..psize], rest[psize..]);
      rest := rest[psize..][n..];
      Assoc(before, merged, Pass(order, rest, insize));
    }
    ForwardNext(p, rest);
    PassNothing(order, insize);
    assert out + [] == out;
    BuiltTail(list, tail, out);
    SplitFacts(out, rest);
    CloseList(list, tail, out);
  }

  /** The end of a pass: the list built is closed. */
  method CloseList<V>(list: Handle?<V>, tail: Handle?<V>, ghost s: seq<Handle<V>>)
    requires Built(list, tail, s) && NoDup(s)
    modifies (if tail != null then {tail} else {})`next
    ensures Listed(s) && list == At(s, 0) && tail == At(s, |s| - 1)
  {
    if tail != null {
      tail.next := null;
    }
  }

  lemma Start<V>(s: seq<Handle<V>>)
    requires NoDup(s)
    ensures Built<V>(null, null, []) && Split([], [], s)
  {
  }

  lemma PassNothing<T, K>(o: Order<T, K>, k: nat)
    requires 0 < k
    ensures Pass(o, [], k) == [] && Merges(0, k) == 0
  {
  }

  lemma SplitFacts<V>(out: seq<Handle<V>>, rest: seq<Handle<V>>)
    requires Split(out, [], rest)
    ensures NoDup(out)
  {
  }

  // ---------------------------------------------------------------- the whole sort

  /** The keys and values of items, compared. */
  function ByEntry<V>(compare: ((seq<byte>, V), (seq<byte>, V)) -> int): Order<Handle<V>, (seq<byte>, V)> {
    Order((h: Handle<V>) => (h.key, h.value), compare)
  }

  /** Passes over the list with runs twice as long each time, until one merge was enough. */
  method SortList<V, K>(order: Order<Handle<V>, K>, first: Handle<V>,
                        ghost nodes: set<Handle<V>>, ghost s: seq<Handle<V>>)
    returns (list: Handle<V>, tail: Handle<V>)
    requires s != [] && Listed(s) && NoDup(s) && first == s[0] && forall h :: h in s ==> h in nodes
    modifies nodes`next, nodes`prev
    ensures var t := Passes(order, s, 1);
            t != [] && Listed(t) && NoDup(t) && list == t[0] && tail == t[|t| - 1]
  {
    hide *;
    var insize, looping := 1, true;
    list, tail := first, first;
    ghost var cur := s;
    ListedForward(s);
    while looping
      invariant 0 < insize && |cur| == |s| && cur != []
      invariant Passes(order, s, 1) == if looping then Passes(order, cur, insize) else cur
      invariant Forward(list, cur) && NoDup(cur) && forall h :: h in cur ==> h in nodes
      invariant !looping ==> Listed(cur) && list == cur[0] && tail == cur[|cur| - 1]
      invariant looping ==> insize <= |cur|
      decreases looping, |s| - insize
    {
      ghost var t := Pass(order, cur, insize);
      PassElements(order, cur, insize);
      SameItems(cur, t, nodes);
      PassesStep(order, cur, insize);
      ForwardNext(list, cur);
      var list', tail', nmerges := OnePass(order, list, insize, nodes, cur);
      ListedForward(t);
      ManyMerges(|cur|, insize);
      if nmerges <= 1 {
        looping := false;
      }
      ForwardNext(list', t);
      list, tail := list', tail';
      cur := t;
      insize := insize * 2;
    }
  }

  lemma ListedForward<V>(s: seq<Handle<V>>)
    requires Listed(s)
    ensures Forward(At(s, 0), s)
    ensures s != [] ==> At(s, 0) == s[0] && At(s, |s| - 1) == s[|s| - 1]
  {
  }

  lemma SameItems<V>(s: seq<Handle<V>>, t: seq<Handle<V>>, nodes: set<Handle<V>>)
    requires multiset(t) == multiset(s) && forall h :: h in s ==> h in nodes
    ensures |t| == |s| && forall h :: h in t ==> h in nodes
  {
    assert |multiset(t)| == |t| && |multiset(s)| == |s|;
    forall h | h in t
      ensures h in nodes
    {
      assert h in multiset(t);
    }
  }

  lemma PassesStep<T, K>(o: Order<T, K>, s: seq<T>, k: nat)
    requires 0 < k
    ensures var t := Pass(o, s, k);
            Passes(o, s, k) == if Merges(|s|, k) <= 1 then t else Passes(o, t, 2 * k)
  {
    ManyMerges(|s|, k);
  }

  /**
   * HASH_SRT: afterwards the items are in the order the merge sort puts them, and the table
   * is a table as before. Buckets and chains are not touched.
   */
  method Sort<V(!new)>(t: Table<V>, compare: ((seq<byte>, V), (seq<byte>, V)) -> int)
    requires t.Valid()
    modifies t`head, t`tail, t`items, t.items`next, t.items`prev
    ensures t.Valid() && t.items == Passes(ByEntry(compare), old(t.items), 1)
    ensures NodeSet(t.items) == NodeSet(old(t.items)) && Entries(t.items) == Entries(old(t.items))
    ensures (forall a, b :: compare(a, b) <= 0 || compare(b, a) <= 0)
            && (forall a, b, c :: compare(a, b) <= 0 && compare(b, c) <= 0 ==> compare(a, c) <= 0) ==>
      && (forall i, j :: 0 <= i < j < |t.items| ==>
            compare((t.items[i].key, t.items[i].value), (t.items[j].key, t.items[j].value)) <= 0)
      && KeptInOrder(compare, old(t.items), t.items)
  {
    hide *;
    ghost var s, nodes := t.items, NodeSet(t.items);
    ghost var r := Passes(ByEntry(compare), s, 1);
    t.ItemsDistinct();
    DistinctItems(s);
    SortedEntries(compare, s);
    SameNodes(ByEntry(compare), s);
    NodeSetOf(s);
    t.HeadIsFirst();
    t.ItemsDistinct();
    if t.head != null {
      t.Facts();
      assert t.Holding(nodes);
      var list, tail := SortList(ByEntry(compare), t.head, nodes, s);
      assert t.Holding(nodes);
      t.head, t.tail, t.items := list, tail, r;
      assert Listed(r);
      SameEntries(s, r);
      t.ValidIntro();
    }
  }

  lemma DistinctItems<V>(s: seq<Handle<V>>)
    requires DistinctKeys(s)
    ensures NoDup(s)
  {
  }

  /** Of two items that may come in either order, the one that was first still is. */
  ghost predicate KeptInOrder<V>(compare: ((seq<byte>, V), (seq<byte>, V)) -> int,
                                 s: seq<Handle<V>>, t: seq<Handle<V>>) {
    forall i, j, k, l ::
      && 0 <= i < j < |t| && 0 <= k < |s| && 0 <= l < |s| && s[k] == t[i] && s[l] == t[j]
      && compare((t[j].key, t[j].value), (t[i].key, t[i].value)) <= 0 ==>
        k < l
  }

  /** The sort, in terms of the comparison it is given: ascending, and stable. */
  lemma SortedEntries<V(!new)>(compare: ((seq<byte>, V), (seq<byte>, V)) -> int, s: seq<Handle<V>>)
    requires NoDup(s)
    ensures var t := Passes(ByEntry(compare), s, 1);
      (forall a, b :: compare(a, b) <= 0 || compare(b, a) <= 0)
      && (forall a, b, c :: compare(a, b) <= 0 && compare(b, c) <= 0 ==> compare(a, c) <= 0) ==>
      && (forall i, j :: 0 <= i < j < |t| ==> compare((t[i].key, t[i].value), (t[j].key, t[j].value)) <= 0)
      && KeptInOrder(compare, s, t)
  {
    hide Passes, Class, NoDup, KeptInOrder;
    var o := ByEntry<V>(compare);
    if Ordering(o) {
      SortSorts(o, s);
      StableEntries(compare, s);
    }
  }

  lemma StableEntries<V(!new)>(compare: ((seq<byte>, V), (seq<byte>, V)) -> int, s: seq<Handle<V>>)
    requires NoDup(s) && Ordering(ByEntry<V>(compare))
    ensures KeptInOrder(compare, s, Passes(ByEntry(compare), s, 1))
  {
    hide Passes, Class, NoDup;
    var o := ByEntry(compare);
    var t := Passes(o, s, 1);
    SortSorts(o, s);
    forall i, j, k, l |
      && 0 <= i < j < |t| && 0 <= k < |s| && 0 <= l < |s| && s[k] == t[i] && s[l] == t[j]
      && compare((t[j].key, t[j].value), (t[i].key, t[i].value)) <= 0
      ensures k < l
    {
      SameOrder(o, s, t, i, j, k, l);
    }
  }

  lemma SameOrder<V>(o: Order<Handle<V>, (seq<byte>, V)>, s: seq<Handle<V>>, t: seq<Handle<V>>,
                     i: nat, j: nat, k: nat, l: nat)
    requires NoDup(s) && i < j < |t| && k < |s| && l < |s| && s[k] == t[i] && s[l] == t[j]
    requires o.compare(o.key(t[i]), o.key(t[j])) <= 0 && o.compare(o.key(t[j]), o.key(t[i])) <= 0
    requires o.compare(o.key(t[i]), o.key(t[i])) <= 0
    requires Class(o, t, o.key(t[i])) == Class(o, s, o.key(t[i])) && multiset(s) == multiset(t)
    ensures k < l
  {
    hide Class;
    var x := o.key(t[i]);
    var p, q := ClassOrder(o, t, x, i, j);
    ClassDistinct(o, s, x);
    if l < k {
      var q', p' := ClassOrder(o, s, x, l, k);
    }
  }

  /** Two equivalent elements are in their class in the same order. */
  lemma {:induction false} ClassOrder<T, K>(o: Order<T, K>, s: seq<T>, x: K, i: nat, j: nat) returns (p: nat, q: nat)
    requires i < j < |s| && Equivalent(o, s[i], x) && Equivalent(o, s[j], x)
    ensures p < q < |Class(o, s, x)| && Class(o, s, x)[p] == s[i] && Class(o, s, x)[q] == s[j]
  {
    if i > 0 {
      p, q := ClassOrder(o, s[1..], x, i - 1, j - 1);
      if Equivalent(o, s[0], x) {
        p, q := p + 1, q + 1;
      }
    } else {
      q := InClass(o, s[1..], x, j - 1);
      p, q := 0, q + 1;
    }
  }

  lemma {:induction false} InClass<T, K>(o: Order<T, K>, s: seq<T>, x: K, i: nat) returns (p: nat)
    requires i < |s| && Equivalent(o, s[i], x)
    ensures p < |Class(o, s, x)| && Class(o, s, x)[p] == s[i]
  {
    if i == 0 {
      p := 0;
    } else {
      p := InClass(o, s[1..], x, i - 1);
      if Equivalent(o, s[0], x) {
        p := p + 1;
      }
    }
  }

  lemma {:induction false} ClassDistinct<T, K>(o: Order<T, K>, s: seq<T>, x: K)
    requires NoDup(s)
    ensures NoDup(Class(o, s, x)) && forall y :: y in Class(o, s, x) ==> y in s
  {
    if s != [] {
      ClassDistinct(o, s[1..], x);
      assert s[0] !in s[1..];
      assert Class(o, s, x) == if Equivalent(o, s[0], x) then [s[0]] + Class(o, s[1..], x) else Class(o, s[1..], x);
    }
  }

  /** The map of a list does not depend on its order. */
  lemma SameEntries<V>(s: seq<Handle<V>>, t: seq<Handle<V>>)
    requires DistinctKeys(s) && DistinctKeys(t) && NodeSet(s) == NodeSet(t)
    ensures Entries(s) == Entries(t)
  {
    hide Entries, DistinctKeys, NodeSet;
    EntriesOf(s);
    EntriesOf(t);
    NodeSetOf(s);
    NodeSetOf(t);
    forall key | key in Entries(s)
      ensures key in Entries(t) && Entries(t)[key] == Entries(s)[key]
    {
      var h :| h in s && h.key == key;
      assert h in NodeSet(s);
      assert h in t;
    }
    forall key | key in Entries(t)
      ensures key in Entries(s)
    {
      var h :| h in t && h.key == key;
      assert h in NodeSet(t);
      assert h in s;
    }
  }

  /** Sorting an empty list yields an empty list, and any list a list of the same items. */
  lemma SameNodes<V, K>(o: Order<Handle<V>, K>, s: seq<Handle<V>>)
    ensures var t := Passes(o, s, 1);
            && |t| == |s| && NodeSet(t) == NodeSet(s) && (forall h :: h in s ==> h in NodeSet(s))
            && (DistinctKeys(s) && NoDup(t) ==> DistinctKeys(t))
            && (s != [] ==> At(t, 0) == t[0])
  {
    hide Passes;
    var t := Passes(o, s, 1);
    PassesElements(o, s, 1);
    assert |multiset(t)| == |t| && |multiset(s)| == |s|;
    forall h | h in t
      ensures h in s
    {
      assert h in multiset(t);
    }
    forall h | h in s
      ensures h in t
    {
      assert h in multiset(s);
    }
    assert NodeSet(t) == NodeSet(s);
    if DistinctKeys(s) && NoDup(t) {
      forall i, j | 0 <= i < j < |t|
        ensures t[i].key != t[j].key
      {
        assert t[i] in s && t[j] in s;
      }
    }
  }
}
