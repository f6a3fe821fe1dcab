/**
 * The two intrusive lists every item of a hash table is on: the doubly linked list in
 * insertion order, and the doubly linked chain of its bucket.
 */
module HashLinks {
  import opened Bytes

  /** An item with its UT_hash_handle. Of all fields, only the key and value never change. */
  class Handle<V> {
    const key: seq<byte>
    const value: V
    var hashv: nat
    var prev: Handle?<V>    // insertion order
    var next: Handle?<V>
    var hhPrev: Handle?<V>  // bucket order
    var hhNext: Handle?<V>

    constructor (key: seq<byte>, value: V)
      ensures this.key == key && this.value == value
    {
      this.key, this.value := key, value;
      hashv, prev, next, hhPrev, hhNext := 0, null, null, null, null;
    }
  }

  /** The item at `i`, or NULL beyond either end. */
  ghost function At<V>(s: seq<Handle<V>>, i: int): Handle?<V> {
    if 0 <= i < |s| then s[i] else null
  }

  /** `s` without its element at `k`. */
  ghost function Without<T>(s: seq<T>, k: nat): (r: seq<T>)
    requires k < |s|
    ensures |r| == |s| - 1
    ensures forall i :: 0 <= i < |r| ==> r[i] == if i < k then s[i] else s[i + 1]
  {
    s[..k] + s[k + 1..]
  }

  /** The neighbours of an item after another one has been taken out. */
  lemma Neighbours<V>(s: seq<Handle<V>>, k: nat, i: nat)
    requires k < |s| && i < |s| - 1
    ensures var t, j := Without(s, k), if i < k then i else i + 1;
            && t[i] == s[j]
            && At(t, i + 1) == (if j == k - 1 then At(s, k + 1) else At(s, j + 1))
            && At(t, i - 1) == (if j == k + 1 then At(s, k - 1) else At(s, j - 1))
  {
  }

  /** The neighbours of an item after another one has been appended. */
  lemma SnocNeighbours<V>(s: seq<Handle<V>>, add: Handle<V>, i: nat)
    requires s != [] && i <= |s|
    ensures var t := s + [add];
            if i == |s| then t[i] == add && At(t, i + 1) == null && At(t, i - 1) == s[|s| - 1]
            else && t[i] == s[i] && At(t, i - 1) == At(s, i - 1)
                 && At(t, i + 1) == if i == |s| - 1 then add else At(s, i + 1)
  {
  }

  ghost predicate NoDup<T>(s: seq<T>) {
    forall i, j :: 0 <= i < j < |s| ==> s[i] != s[j]
  }

  /** An item other than `s[k]` is one of its neighbours only if it stands next to it. */
  lemma Distinct<V>(s: seq<Handle<V>>, k: nat, j: nat)
    requires NoDup(s) && k < |s| && j < |s| && j != k
    ensures s[j] != s[k]
    ensures s[j] == At(s, k - 1) <==> j == k - 1
    ensures s[j] == At(s, k + 1) <==> j == k + 1
  {
  }

  // ---------------------------------------------------------------- insertion order

  /** The items are linked in this order. */
  ghost predicate Listed<V>(s: seq<Handle<V>>)
    reads s`next, s`prev
  {
    forall i :: 0 <= i < |s| ==> s[i].next == At(s, i + 1) && s[i].prev == At(s, i - 1)
  }

  /** HASH_APPEND_LIST, on a list that is not empty. */
  method AppendList<V>(tail: Handle<V>, add: Handle<V>, ghost s: seq<Handle<V>>)
    requires s != [] && tail == s[|s| - 1] && Listed(s) && NoDup(s) && add !in s
    modifies tail`next, add`next, add`prev
    ensures Listed(s + [add])
  {
    hide NoDup, At;
    assert forall i :: 0 <= i < |s| ==> s[i] != add;
    add.next := null;
    add.prev := tail;
    tail.next := add;
    ghost var t := s + [add];
    forall i | 0 <= i < |t|
      ensures t[i].next == At(t, i + 1) && t[i].prev == At(t, i - 1)
    {
      SnocNeighbours(s, add, i);
      if i < |s| - 1 {
        Distinct(s, |s| - 1, i);
      }
    }
  }

  /** The links of a list from which `s[k]` has been unlinked. */
  lemma ListedWithout<V>(s: seq<Handle<V>>, k: nat)
    requires k < |s|
    requires forall i :: 0 <= i < |s| && i != k ==>
      && s[i].next == (if i == k - 1 then At(s, k + 1) else At(s, i + 1))
      && s[i].prev == (if i == k + 1 then At(s, k - 1) else At(s, i - 1))
    ensures Listed(Without(s, k))
  {
    hide Without;
    var t := Without(s, k);
    forall i | 0 <= i < |t|
      ensures t[i].next == At(t, i + 1) && t[i].prev == At(t, i - 1)
    {
      Neighbours(s, k, i);
    }
  }

  /** The patch-up of HASH_DELETE_HH: `del` leaves a list of at least two. */
  method Unlink<V>(del: Handle<V>, ghost s: seq<Handle<V>>, ghost k: nat)
    requires k < |s| && s[k] == del && |s| >= 2 && Listed(s) && NoDup(s)
    modifies (if del.prev != null then {del.prev} else {})`next
    modifies (if del.next != null then {del.next} else {})`prev
    ensures Listed(Without(s, k))
  {
    hide Without, NoDup;
    ghost var prev, next := At(s, k - 1), At(s, k + 1);
    assert del.prev == prev && del.next == next;
    forall i | 0 <= i < |s| && i != k
      ensures s[i] != del && (s[i] == prev <==> i == k - 1) && (s[i] == next <==> i == k + 1)
    {
      Distinct(s, k, i);
    }
    if del.prev != null {
      del.prev.next := del.next;
    }
    if del.next != null {
      del.next.prev := del.prev;
    }
    ListedWithout(s, k);
  }

  // ---------------------------------------------------------------- bucket order

  /** The items form a chain, in this order, that starts at `head`. */
  ghost predicate Chained<V>(head: Handle?<V>, s: seq<Handle<V>>)
    reads s`hhNext, s`hhPrev
  {
    && head == At(s, 0)
    && forall i :: 0 <= i < |s| ==> s[i].hhNext == At(s, i + 1) && s[i].hhPrev == At(s, i - 1)
  }

  /** Pushing an item to the front of a chain. */
  method PushFront<V>(head: Handle?<V>, add: Handle<V>, ghost s: seq<Handle<V>>)
    requires Chained(head, s) && NoDup(s) && add !in s
    modifies add`hhNext, add`hhPrev, (if head != null then {head} else {})`hhPrev
    ensures Chained(add, [add] + s) && NoDup([add] + s)
  {
    add.hhNext := head;
    add.hhPrev := null;
    if head != null {
      head.hhPrev := add;
    }
    ghost var t := [add] + s;
    assert forall i :: 1 <= i < |t| ==> t[i] == s[i - 1];
  }

  /** The links of a chain from which `s[k]` has been unlinked. */
  lemma ChainedWithout<V>(head: Handle?<V>, s: seq<Handle<V>>, k: nat)
    requires k < |s| && head == if k == 0 then At(s, 1) else At(s, 0)
    requires forall i :: 0 <= i < |s| && i != k ==>
      && s[i].hhNext == (if i == k - 1 then At(s, k + 1) else At(s, i + 1))
      && s[i].hhPrev == (if i == k + 1 then At(s, k - 1) else At(s, i - 1))
    ensures Chained(head, Without(s, k))
  {
    hide Without;
    var t := Without(s, k);
    forall i | 0 <= i < |t|
      ensures t[i].hhNext == At(t, i + 1) && t[i].hhPrev == At(t, i - 1)
    {
      Neighbours(s, k, i);
    }
  }

  /** HASH_DEL_IN_BKT, on the links: `del` leaves its chain, whose head may change. */
  method Unchain<V>(head: Handle?<V>, del: Handle<V>, ghost s: seq<Handle<V>>, ghost k: nat)
    returns (head': Handle?<V>)
    requires k < |s| && s[k] == del && Chained(head, s) && NoDup(s)
    modifies (if del.hhPrev != null then {del.hhPrev} else {})`hhNext
    modifies (if del.hhNext != null then {del.hhNext} else {})`hhPrev
    ensures Chained(head', Without(s, k))
  {
    hide Without, NoDup;
    ghost var prev, next := At(s, k - 1), At(s, k + 1);
    assert del.hhPrev == prev && del.hhNext == next;
    forall i | 0 <= i < |s| && i != k
      ensures s[i] != del && (s[i] == prev <==> i == k - 1) && (s[i] == next <==> i == k + 1)
    {
      Distinct(s, k, i);
    }
    head' := head;
    if head == del {
      head' := del.hhNext;
    }
    if del.hhPrev != null {
      del.hhPrev.hhNext := del.hhNext;
    }
    if del.hhNext != null {
      del.hhNext.hhPrev := del.hhPrev;
    }
    ChainedWithout(head', s, k);
  }
}
