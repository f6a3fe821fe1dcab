/** Bottom-up merge sort as a function: what the in-place sort of the hash table computes. */
module MergeSort {
  import opened Bytes

  /**
   * What to compare, and how: the comparison is negative or zero when its first argument may
   * come first.
   */
  datatype Order<!T, !K> = Order(key: T -> K, compare: (K, K) -> int)

  /** The comparison of two elements. */
  function Cmp<T, K>(o: Order<T, K>, a: T, b: T): int {
    o.compare(o.key(a), o.key(b))
  }

  /** A comparison that the sort can rely on: any two are comparable, and it is transitive. */
  ghost predicate Ordering<T, K(!new)>(o: Order<T, K>) {
    && (forall a, b :: o.compare(a, b) <= 0 || o.compare(b, a) <= 0)
    && (forall a, b, c :: o.compare(a, b) <= 0 && o.compare(b, c) <= 0 ==> o.compare(a, c) <= 0)
  }

  ghost predicate Sorted<T, K>(o: Order<T, K>, s: seq<T>) {
    forall i, j :: 0 <= i < j < |s| ==> Cmp(o, s[i], s[j]) <= 0
  }

  function Min(a: nat, b: nat): nat {
    if a <= b then a else b
  }

  /** Merging two runs; of equal elements, those of the first run come first. */
  function Merge<T, K>(o: Order<T, K>, p: seq<T>, q: seq<T>): (r: seq<T>)
    ensures |r| == |p| + |q|
    decreases |p| + |q|
  {
    if p == [] then q
    else if q == [] then p
    else if Cmp(o, p[0], q[0]) <= 0 then [p[0]] + Merge(o, p[1..], q)
    else [q[0]] + Merge(o, p, q[1..])
  }

  /** One pass: neighbouring runs of length `k` are merged. */
  function Pass<T, K>(o: Order<T, K>, s: seq<T>, k: nat): (r: seq<T>)
    requires 0 < k
    ensures |r| == |s|
    decreases |s|
  {
    if s == [] then []
    else
      var a := Min(k, |s|);
      var b := Min(2 * k, |s|);
      Merge(o, s[..a], s[a..b]) + Pass(o, s[b..], k)
  }

  /** The number of merges in a pass. */
  function Merges(n: nat, k: nat): nat
    requires 0 < k
  {
    if n == 0 then 0 else 1 + Merges(n - Min(2 * k, n), k)
  }

  /** Passes with runs twice as long each time, until one merge was enough. */
  function Passes<T, K>(o: Order<T, K>, s: seq<T>, k: nat): (r: seq<T>)
    requires 0 < k
    decreases |s| - k
  {
    var t := Pass(o, s, k);
    if Merges(|s|, k) <= 1 then t else ManyMerges(|s|, k); Passes(o, t, 2 * k)
  }

  lemma ManyMerges(n: nat, k: nat)
    requires 0 < k
    ensures Merges(n, k) <= 1 <==> n <= 2 * k
  {
    if n > 0 {
      assert Merges(n - Min(2 * k, n), k) == 0 <==> n <= 2 * k;
    }
  }

  // ---------------------------------------------------------------- sorted

  lemma {:induction false} MergeElements<T, K>(o: Order<T, K>, p: seq<T>, q: seq<T>)
    ensures multiset(Merge(o, p, q)) == multiset(p) + multiset(q)
    decreases |p| + |q|
  {
    hide *;
    MergeStep(o, p, q);
    if p == [] || q == [] {
    } else if Cmp(o, p[0], q[0]) <= 0 {
      MergeElements(o, p[1..], q);
      assert p == [p[0]] + p[1..];
    } else {
      MergeElements(o, p, q[1..]);
      assert q == [q[0]] + q[1..];
    }
  }

  lemma SortedCons<T, K>(o: Order<T, K>, x: T, s: seq<T>)
    requires Sorted(o, s) && forall y :: y in s ==> Cmp(o, x, y) <= 0
    ensures Sorted(o, [x] + s)
  {
    var t := [x] + s;
    forall i, j | 0 <= i < j < |t|
      ensures Cmp(o, t[i], t[j]) <= 0
    {
      assert t[j] == s[j - 1] && t[j] in s;
      if i > 0 {
        assert t[i] == s[i - 1];
      }
    }
  }

  /** What may come before all of both runs may come before all of their merge. */
  lemma BeforeMerge<T, K>(o: Order<T, K>, x: T, p: seq<T>, q: seq<T>)
    requires forall y :: y in p ==> Cmp(o, x, y) <= 0
    requires forall y :: y in q ==> Cmp(o, x, y) <= 0
    ensures forall y :: y in Merge(o, p, q) ==> Cmp(o, x, y) <= 0
  {
    hide *;
    MergeElements(o, p, q);
    forall y | y in Merge(o, p, q)
      ensures Cmp(o, x, y) <= 0
    {
      assert y in multiset(Merge(o, p, q));
      assert y in multiset(p) || y in multiset(q);
    }
  }

  /** In a sorted run, the first element may come before any other. */
  lemma FirstIsLeast<T, K(!new)>(o: Order<T, K>, s: seq<T>, x: T)
    requires Ordering(o) && Sorted(o, s) && s != [] && Cmp(o, x, s[0]) <= 0
    ensures forall y :: y in s ==> Cmp(o, x, y) <= 0
  {
    forall y | y in s
      ensures Cmp(o, x, y) <= 0
    {
      var i :| 0 <= i < |s| && s[i] == y;
    }
  }

  lemma {:induction false} MergeSorted<T, K(!new)>(o: Order<T, K>, p: seq<T>, q: seq<T>)
    requires Ordering(o) && Sorted(o, p) && Sorted(o, q)
    ensures Sorted(o, Merge(o, p, q))
    decreases |p| + |q|
  {
    hide *;
    MergeStep(o, p, q);
    if p == [] || q == [] {
    } else if Cmp(o, p[0], q[0]) <= 0 {
      SortedTail(o, p);
      MergeSorted(o, p[1..], q);
      FirstIsLeast(o, q, p[0]);
      BeforeMerge(o, p[0], p[1..], q);
      SortedCons(o, p[0], Merge(o, p[1..], q));
    } else {
      Reversed(o, p[0], q[0]);
      SortedTail(o, q);
      MergeSorted(o, p, q[1..]);
      FirstIsLeast(o, p, q[0]);
      BeforeMerge(o, q[0], p, q[1..]);
      SortedCons(o, q[0], Merge(o, p, q[1..]));
    }
  }

  lemma Reversed<T, K(!new)>(o: Order<T, K>, a: T, b: T)
    requires Ordering(o) && Cmp(o, a, b) > 0
    ensures Cmp(o, b, a) <= 0
  {
  }

  /** Runs of length `k`, the last one perhaps shorter, each of them sorted. */
  ghost predicate Runs<T, K>(o: Order<T, K>, s: seq<T>, k: nat)
    requires 0 < k
    decreases |s|
  {
    s == [] || (Sorted(o, s[..Min(k, |s|)]) && Runs(o, s[Min(k, |s|)..], k))
  }

  lemma {:induction false} RunsOfOne<T, K>(o: Order<T, K>, s: seq<T>)
    ensures Runs(o, s, 1)
  {
    if s != [] {
      RunsOfOne(o, s[1..]);
    }
  }

  /** A pass doubles the length of sorted runs. */
  lemma {:induction false} PassRuns<T, K(!new)>(o: Order<T, K>, s: seq<T>, k: nat)
    requires 0 < k && Ordering(o) && Runs(o, s, k)
    ensures Runs(o, Pass(o, s, k), 2 * k)
    decreases |s|
  {
    if s != [] {
      var a, b := Min(k, |s|), Min(2 * k, |s|);
      TwoRuns(o, s, k);
      MergeSorted(o, s[..a], s[a..b]);
      PassRuns(o, s[b..], k);
      var m, t := Merge(o, s[..a], s[a..b]), Pass(o, s[b..], k);
      assert |m| == b && (m + t)[..b] == m && (m + t)[b..] == t;
    }
  }

  lemma TwoRuns<T, K>(o: Order<T, K>, s: seq<T>, k: nat)
    requires 0 < k && s != [] && Runs(o, s, k)
    ensures var a, b := Min(k, |s|), Min(2 * k, |s|);
            Sorted(o, s[..a]) && Sorted(o, s[a..b]) && Runs(o, s[b..], k)
  {
    var a, b := Min(k, |s|), Min(2 * k, |s|);
    var r := s[a..];
    if r != [] {
      assert r[..Min(k, |r|)] == s[a..b] && r[Min(k, |r|)..] == s[b..];
    } else {
      assert s[a..b] == [] && s[b..] == r;
    }
  }

  // ---------------------------------------------------------------- stable

  predicate Equivalent<T, K>(o: Order<T, K>, a: T, x: K) {
    o.compare(o.key(a), x) <= 0 && o.compare(x, o.key(a)) <= 0
  }

  /** The elements that the order does not distinguish from `x`, as they stand. */
  function Class<T, K>(o: Order<T, K>, s: seq<T>, x: K): seq<T> {
    if s == [] then []
    else (if Equivalent(o, s[0], x) then [s[0]] else []) + Class(o, s[1..], x)
  }

  lemma {:induction false} ClassNone<T, K>(o: Order<T, K>, s: seq<T>, x: K)
    requires forall y :: y in s ==> !Equivalent(o, y, x)
    ensures Class(o, s, x) == []
  {
    if s != [] {
      ClassNone(o, s[1..], x);
    }
  }

  /** What `h` adds to the class of `x`. */
  function Own<T, K>(o: Order<T, K>, h: T, x: K): seq<T> {
    if Equivalent(o, h, x) then [h] else []
  }

  lemma ClassPut<T, K>(o: Order<T, K>, h: T, t: seq<T>, x: K)
    ensures Class(o, [h] + t, x) == Own(o, h, x) + Class(o, t, x)
  {
    assert ([h] + t)[1..] == t;
  }

  lemma {:induction false} ClassAppend<T, K>(o: Order<T, K>, a: seq<T>, b: seq<T>, x: K)
    ensures Class(o, a + b, x) == Class(o, a, x) + Class(o, b, x)
    decreases |a|
  {
    hide *;
    if a == [] {
      assert a + b == b;
      ClassNothing(o, b, x);
    } else {
      ClassAppend(o, a[1..], b, x);
      ClassPut(o, a[0], a[1..] + b, x);
      ClassPut(o, a[0], a[1..], x);
      assert [a[0]] + a[1..] == a;
      Assoc([a[0]], a[1..], b);
      Assoc(Own(o, a[0], x), Class(o, a[1..], x), Class(o, b, x));
    }
  }

  lemma ClassNothing<T, K>(o: Order<T, K>, s: seq<T>, x: K)
    ensures Class(o, [], x) == []
    ensures Class(o, [], x) + Class(o, s, x) == Class(o, s, x) == Class(o, s, x) + Class(o, [], x)
  {
  }

  lemma MergeStep<T, K>(o: Order<T, K>, p: seq<T>, q: seq<T>)
    ensures p == [] ==> Merge(o, p, q) == q
    ensures q == [] ==> Merge(o, p, q) == p
    ensures p != [] && q != [] ==>
            Merge(o, p, q) == if Cmp(o, p[0], q[0]) <= 0 then [p[0]] + Merge(o, p[1..], q)
                                else [q[0]] + Merge(o, p, q[1..])
  {
  }

  /** An element that goes before a sorted run is equivalent to none of it. */
  lemma BeforeRun<T, K(!new)>(o: Order<T, K>, p: seq<T>, h: T, x: K)
    requires Ordering(o) && Sorted(o, p) && p != [] && Cmp(o, p[0], h) > 0 && Equivalent(o, h, x)
    ensures Class(o, p, x) == []
  {
    forall y | y in p
      ensures !Equivalent(o, y, x)
    {
      var i :| 0 <= i < |p| && p[i] == y;
      assert Cmp(o, p[0], y) <= 0;
    }
    ClassNone(o, p, x);
  }

  lemma SortedTail<T, K>(o: Order<T, K>, s: seq<T>)
    requires Sorted(o, s) && s != []
    ensures Sorted(o, s[1..]) && forall y :: y in s[1..] ==> Cmp(o, s[0], y) <= 0
  {
    forall y | y in s[1..]
      ensures Cmp(o, s[0], y) <= 0
    {
      var i :| 0 <= i < |s[1..]| && s[1..][i] == y;
      assert s[i + 1] == y;
    }
  }

  /** Merging keeps equivalent elements in order, those of the first run before the second. */
  lemma {:induction false} MergeStable<T, K(!new)>(o: Order<T, K>, p: seq<T>, q: seq<T>, x: K)
    requires Ordering(o) && Sorted(o, p) && Sorted(o, q)
    ensures Class(o, Merge(o, p, q), x) == Class(o, p, x) + Class(o, q, x)
    decreases |p| + |q|
  {
    hide *;
    MergeStep(o, p, q);
    if p == [] {
      ClassNothing(o, q, x);
    } else if q == [] {
      ClassNothing(o, p, x);
    } else if Cmp(o, p[0], q[0]) <= 0 {
      SortedTail(o, p);
      MergeStable(o, p[1..], q, x);
      ClassPut(o, p[0], Merge(o, p[1..], q), x);
      ClassPut(o, p[0], p[1..], x);
      assert [p[0]] + p[1..] == p;
      Assoc(Own(o, p[0], x), Class(o, p[1..], x), Class(o, q, x));
    } else {
      SortedTail(o, q);
      MergeStable(o, p, q[1..], x);
      ClassPut(o, q[0], Merge(o, p, q[1..]), x);
      ClassPut(o, q[0], q[1..], x);
      assert [q[0]] + q[1..] == q;
      var own, a, b := Own(o, q[0], x), Class(o, p, x), Class(o, q[1..], x);
      OwnOrNot(o, q[0], x);
      if Equivalent(o, q[0], x) {
        BeforeRun(o, p, q[0], x);
        Assoc(a, own, b);
        Assoc(a, b, b);
      } else {
        Assoc(own, a + b, b);
        Assoc(own, b, b);
      }
    }
  }

  lemma OwnOrNot<T, K>(o: Order<T, K>, h: T, x: K)
    ensures !Equivalent(o, h, x) ==> Own(o, h, x) == []
  {
  }

  /** A pass, in terms of the two runs it starts with. */
  lemma PassStep<T, K>(o: Order<T, K>, s: seq<T>, k: nat)
    requires 0 < k && s != []
    ensures var a, b := Min(k, |s|), Min(2 * k, |s|);
            && a <= b <= |s| && 0 < b
            && Pass(o, s, k) == Merge(o, s[..a], s[a..b]) + Pass(o, s[b..], k)
            && s == (s[..a] + s[a..b]) + s[b..]
  {
    hide Merge;
    ThreeParts(s, Min(k, |s|), Min(2 * k, |s|));
  }

  lemma ThreeParts<T>(s: seq<T>, a: nat, b: nat)
    requires a <= b <= |s|
    ensures s == (s[..a] + s[a..b]) + s[b..]
  {
  }

  lemma {:induction false} PassStable<T, K(!new)>(o: Order<T, K>, s: seq<T>, k: nat, x: K)
    requires 0 < k && Ordering(o) && Runs(o, s, k)
    ensures Class(o, Pass(o, s, k), x) == Class(o, s, x)
    decreases |s|
  {
    if s == [] {
    } else {
      hide *;
      var a, b := Min(k, |s|), Min(2 * k, |s|);
      PassStep(o, s, k);
      TwoRuns(o, s, k);
      MergeStable(o, s[..a], s[a..b], x);
      PassStable(o, s[b..], k, x);
      ClassAppend(o, Merge(o, s[..a], s[a..b]), Pass(o, s[b..], k), x);
      ClassAppend(o, s[..a] + s[a..b], s[b..], x);
      ClassAppend(o, s[..a], s[a..b], x);
    }
  }

  lemma {:induction false} PassElements<T, K>(o: Order<T, K>, s: seq<T>, k: nat)
    requires 0 < k
    ensures multiset(Pass(o, s, k)) == multiset(s)
    decreases |s|
  {
    if s == [] {
    } else {
      hide *;
      var a, b := Min(k, |s|), Min(2 * k, |s|);
      PassStep(o, s, k);
      var p, q, r := s[..a], s[a..b], s[b..];
      MergeElements(o, p, q);
      PassElements(o, r, k);
      assert multiset(p + q) == multiset(p) + multiset(q);
      assert multiset((p + q) + r) == multiset(p + q) + multiset(r);
    }
  }

  /** Whatever the comparison does, the sort neither loses nor invents an element. */
  lemma {:induction false} PassesElements<T, K>(o: Order<T, K>, s: seq<T>, k: nat)
    requires 0 < k
    ensures multiset(Passes(o, s, k)) == multiset(s)
    decreases |s| - k
  {
    PassElements(o, s, k);
    ManyMerges(|s|, k);
    if Merges(|s|, k) > 1 {
      PassesElements(o, Pass(o, s, k), 2 * k);
    }
  }

  lemma {:induction false} PassesSort<T, K(!new)>(o: Order<T, K>, s: seq<T>, k: nat)
    requires 0 < k && Ordering(o) && Runs(o, s, k)
    ensures Sorted(o, Passes(o, s, k))
    ensures forall x: K :: Class(o, Passes(o, s, k), x) == Class(o, s, x)
    decreases |s| - k
  {
    var t := Pass(o, s, k);
    PassRuns(o, s, k);
    forall x: K
      ensures Class(o, t, x) == Class(o, s, x)
    {
      PassStable(o, s, k, x);
    }
    ManyMerges(|s|, k);
    if Merges(|s|, k) <= 1 {
      OneRun(o, t, 2 * k);
    } else {
      PassesSort(o, t, 2 * k);
    }
  }

  lemma OneRun<T, K>(o: Order<T, K>, s: seq<T>, k: nat)
    requires 0 < k && |s| <= k && Runs(o, s, k)
    ensures Sorted(o, s)
  {
    assert s[..Min(k, |s|)] == s;
  }

  /** The sort sorts, and is stable. */
  lemma SortSorts<T, K(!new)>(o: Order<T, K>, s: seq<T>)
    requires Ordering(o)
    ensures var t := Passes(o, s, 1);
            forall i, j :: 0 <= i < j < |t| ==> o.compare(o.key(t[i]), o.key(t[j])) <= 0
    ensures forall x: K :: Class(o, Passes(o, s, 1), x) == Class(o, s, x)
    ensures multiset(Passes(o, s, 1)) == multiset(s)
  {
    hide Passes, Class;
    RunsOfOne(o, s);
    PassesSort(o, s, 1);
    PassesElements(o, s, 1);
  }
}
