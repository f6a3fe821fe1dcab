/** The heap, as far as ownership goes, and the chain of response objects a handler builds. */
module ResponseChain {
  import opened Objects
  import opened HashLinks

  /** An object in a block of its own, from proto_object_copy or proto_object_allocate. */
  class Block {
    const properties: Object

    constructor (properties: Object)
      ensures this.properties == properties
    {
      this.properties := properties;
    }
  }

  /** Which blocks are allocated. Nothing can be freed that is not, so nothing is freed twice. */
  class Heap {
    ghost var live: set<object>

    constructor ()
      ensures live == {}
    {
      live := {};
    }

    ghost method Malloc(block: object)
      requires block !in live
      modifies this
      ensures live == old(live) + {block}
    {
      live := live + {block};
    }

    ghost method Free(block: object)
      requires block in live
      modifies this
      ensures live == old(live) - {block}
    {
      live := live - {block};
    }
  }

  class Node {
    const response: Block
    var next: Node?

    constructor (response: Block)
      ensures this.response == response && next == null
    {
      this.response := response;
      next := null;
    }
  }

  ghost function NodeAt(s: seq<Node>, i: int): Node? {
    if 0 <= i < |s| then s[i] else null
  }

  /** The nodes are chained in this order. */
  ghost predicate Linked(head: Node?, s: seq<Node>)
    reads s`next
  {
    head == NodeAt(s, 0) && forall i :: 0 <= i < |s| ==> s[i].next == NodeAt(s, i + 1)
  }

  /** The response objects along the chain. */
  ghost function Responses(s: seq<Node>): (r: seq<Object>)
    ensures |r| == |s|
  {
    if s == [] then [] else Responses(s[..|s| - 1]) + [s[|s| - 1].response.properties]
  }

  lemma {:induction false} ResponsesAt(s: seq<Node>)
    ensures forall i :: 0 <= i < |s| ==> Responses(s)[i] == s[i].response.properties
  {
    if s != [] {
      ResponsesAt(s[..|s| - 1]);
    }
  }

  /** LL_APPEND. */
  method Append(head: Node?, add: Node, ghost s: seq<Node>) returns (head': Node)
    requires Linked(head, s) && NoDup(s) && add !in s
    modifies add`next, s`next
    ensures Linked(head', s + [add]) && NoDup(s + [add])
  {
    add.next := null;
    if head != null {
      var tmp := head;
      ghost var i := 0;
      while tmp.next != null
        invariant i < |s| && tmp == s[i] && Linked(head, s) && add.next == null
        decreases |s| - i
      {
        tmp := tmp.next;
        i := i + 1;
      }
      tmp.next := add;
      head' := head;
    } else {
      head' := add;
    }
    ghost var t := s + [add];
    assert forall i :: 0 <= i < |s| ==> t[i] == s[i];
  }

  /**
   * server_request_add_response: a new entry at the end of the chain, which takes over an
   * object that is allocated and not in the chain yet.
   */
  method AddResponse(head: Node?, response: Block, heap: Heap, ghost s: seq<Node>)
    returns (head': Node, ghost entry: Node)
    requires Linked(head, s) && Owned(heap, s)
    requires response in heap.live && forall n :: n in s ==> n.response != response
    modifies heap, s`next
    ensures fresh(entry) && entry.response == response
    ensures heap.live == old(heap.live) + {entry}
    ensures Linked(head', s + [entry]) && Owned(heap, s + [entry])
  {
    hide Linked;
    var add := new Node(response);
    heap.Malloc(add);
    assert Linked(head, s);
    head' := Append(head, add, s);
    entry := add;
  }

  /** What a handler does with its response objects: allocates them and adds them in order. */
  method Respond(responses: seq<Object>, heap: Heap) returns (head: Node?, ghost s: seq<Node>)
    modifies heap
    ensures Linked(head, s) && Owned(heap, s) && Responses(s) == responses
    ensures heap.live == old(heap.live) + NodesOf(s) + BlocksOf(s)
    ensures old(heap.live) !! NodesOf(s) + BlocksOf(s)
    ensures fresh(s)
  {
    hide Linked, NodesOf, BlocksOf;
    head, s := null, [];
    NothingOwned(s);
    LinkedNone();
    var i := 0;
    while i < |responses|
      invariant i <= |responses| && Responses(s) == responses[..i]
      invariant Linked(head, s) && Owned(heap, s) && fresh(s)
      invariant heap.live == old(heap.live) + NodesOf(s) + BlocksOf(s)
      invariant old(heap.live) !! NodesOf(s) + BlocksOf(s)
    {
      ghost var before := heap.live;
      var response := new Block(responses[i]);
      heap.Malloc(response);
      ghost var entry;
      head, entry := AddResponse(head, response, heap, s);
      OwnedSnoc(s, entry);
      s := s + [entry];
      i := i + 1;
    }
  }

  lemma LinkedNone()
    ensures Linked(null, [])
  {
  }

  lemma {:induction false} OwnedSnoc(s: seq<Node>, n: Node)
    ensures NodesOf(s + [n]) == NodesOf(s) + {n}
    ensures BlocksOf(s + [n]) == BlocksOf(s) + {n.response}
    ensures Responses(s + [n]) == Responses(s) + [n.response.properties]
  {
    assert (s + [n])[..|s|] == s;
    if s != [] {
      assert (s + [n])[1..] == s[1..] + [n];
      OwnedSnoc(s[1..], n);
    }
  }

  /** LL_COUNT. */
  method Count(head: Node?, ghost s: seq<Node>) returns (n: nat)
    requires Linked(head, s)
    ensures n == |s|
  {
    n := 0;
    var el := head;
    while el != null
      invariant n <= |s| && el == NodeAt(s, n)
      decreases |s| - n
    {
      n := n + 1;
      el := el.next;
    }
  }

  lemma LinkedAt(head: Node?, s: seq<Node>, i: nat)
    requires Linked(head, s) && i <= |s|
    ensures i == 0 ==> head == if s == [] then null else s[0]
    ensures i > 0 ==> s[i - 1].next == if i < |s| then s[i] else null
  {
  }

  /** LL_FOREACH, collecting the objects in an array. */
  method AsArray(head: Node?, count: nat, ghost s: seq<Node>) returns (a: array<Block?>)
    requires Linked(head, s) && count == |s|
    ensures fresh(a) && a.Length == count && forall i :: 0 <= i < count ==> a[i] == s[i].response
  {
    hide Linked, NodeAt;
    LinkedAt(head, s, 0);
    a := new Block?[count](_ => null);
    var counter := 0;
    var el := head;
    while el != null
      invariant counter <= |s| && (el == null <==> counter == |s|) && (counter < |s| ==> el == s[counter])
      invariant forall i :: 0 <= i < counter ==> a[i] == s[i].response
      decreases |s| - counter
    {
      LinkedAt(head, s, counter + 1);
      a[counter] := el.response;
      counter := counter + 1;
      el := el.next;
    }
  }

  lemma LinkedWithout(head: Node, s: seq<Node>, k: nat)
    requires 0 < k < |s| && NoDup(s) && head == s[0]
    requires forall i :: 0 <= i < |s| && i != k - 1 ==> s[i].next == NodeAt(s, i + 1)
    requires s[k - 1].next == NodeAt(s, k + 1)
    ensures Linked(head, Without(s, k))
  {
    var t := Without(s, k);
    forall i | 0 <= i < |t|
      ensures t[i].next == NodeAt(t, i + 1)
    {
      if i >= k {
        assert t[i] == s[i + 1];
      }
    }
  }

  lemma NoDupWithout(s: seq<Node>, k: nat)
    requires NoDup(s) && k < |s|
    ensures NoDup(Without(s, k))
  {
  }

  /**
   * LL_DELETE: the head moves on, or the node before `del` is linked past it; a node that is
   * not in the list, for which `k` is its length, changes nothing.
   */
  method Delete(head: Node, del: Node, ghost s: seq<Node>, ghost k: nat, ghost nodes: set<Node>) returns (head': Node?)
    requires Linked(head, s) && NoDup(s) && k <= |s| && (if k < |s| then s[k] == del else del !in s)
    requires forall n :: n in s ==> n in nodes
    modifies nodes`next
    ensures var t := if k < |s| then Without(s, k) else s; Linked(head', t) && NoDup(t)
    ensures k == 0 || k == |s| ==> forall n :: n in nodes ==> n.next == old(n.next)
  {
    hide NoDup, Without;
    if k < |s| {
      NoDupWithout(s, k);
      OtherNodes(s, k);
    }
    if head == del {
      assert k == 0;
      head' := head.next;
      LinkedRest(s);
    } else {
      var tmp := head;
      ghost var i := 0;
      while tmp.next != null && tmp.next != del
        invariant i < k && tmp == s[i] && forall n :: n in nodes ==> n.next == old(n.next)
        decreases |s| - i
      {
        if k < |s| {
          OtherNodes(s, i + 1);
        }
        tmp := tmp.next;
        i := i + 1;
      }
      assert i == k - 1;
      OtherNodes(s, i);
      if tmp.next != null {
        tmp.next := del.next;
        LinkedWithout(head, s, k);
      }
      head' := head;
    }
  }

  lemma OtherNodes(s: seq<Node>, k: nat)
    requires NoDup(s) && k < |s|
    ensures forall i :: 0 <= i < |s| && i != k ==> s[i] != s[k]
  {
  }

  lemma LinkedRest(s: seq<Node>)
    requires s != [] && forall i :: 0 <= i < |s| ==> s[i].next == NodeAt(s, i + 1)
    ensures Linked(s[0].next, Without(s, 0))
  {
  }

  ghost function BlocksOf(s: seq<Node>): set<object> {
    if s == [] then {} else {s[0].response} + BlocksOf(s[1..])
  }

  ghost function NodesOf(s: seq<Node>): set<object> {
    if s == [] then {} else {s[0]} + NodesOf(s[1..])
  }

  /** A chain owns its nodes and, one each, the objects in them. */
  ghost predicate Owned(heap: Heap, s: seq<Node>)
    reads heap
  {
    && (forall i :: 0 <= i < |s| ==> s[i] as object in heap.live && s[i].response as object in heap.live)
    && (forall i, j :: 0 <= i < j < |s| ==> s[i].response != s[j].response)
    && NoDup(s)
  }

  lemma OwnedNext(heap: Heap, s: seq<Node>)
    requires Owned(heap, s) && s != []
    ensures s[0] as object in heap.live && s[0].response as object in heap.live
    ensures NoDup(s) && (forall i :: 1 <= i < |s| ==> s[i] != s[0] && s[i].response != s[0].response)
    ensures NodesOf(s) == {s[0] as object} + NodesOf(s[1..])
    ensures BlocksOf(s) == {s[0].response as object} + BlocksOf(s[1..])
  {
  }

  lemma OwnedRest(heap: Heap, s: seq<Node>)
    requires s != [] && NoDup(s) && forall i, j :: 0 <= i < j < |s| ==> s[i].response != s[j].response
    requires forall i :: 1 <= i < |s| ==> s[i] as object in heap.live && s[i].response as object in heap.live
    ensures Owned(heap, s[1..])
  {
  }

  /**
   * LL_FOREACH_SAFE with LL_DELETE and two calls to free: the whole chain is torn down, every
   * node and every object is freed exactly once, and nothing else is.
   */
  method TearDown(head: Node?, heap: Heap, ghost s: seq<Node>) returns (head': Node?)
    requires Linked(head, s) && Owned(heap, s)
    modifies heap, (set n | n in s)`next
    ensures head' == null
    ensures heap.live == old(heap.live) - NodesOf(s) - BlocksOf(s)
    ensures forall n :: n in s ==> n !in heap.live && n.response !in heap.live
    ensures forall x :: x in old(heap.live) && x !in heap.live ==> exists n :: n in s && (x == n || x == n.response)
  {
    hide Linked, NodesOf, BlocksOf, Without;
    ghost var nodes := set n | n in s;
    head' := head;
    var elem := head;
    ghost var rest := s;
    LinkedHead(head', rest);
    while elem != null
      invariant Linked(head', rest) && elem == head' && Owned(heap, rest)
      invariant elem == null <==> rest == []
      invariant forall n :: n in rest ==> n in s
      invariant heap.live - NodesOf(rest) - BlocksOf(rest) == old(heap.live) - NodesOf(s) - BlocksOf(s)
      decreases |rest|
    {
      LinkedHead(head', rest);
      OwnedNext(heap, rest);
      var tmp := elem.next;
      head' := Delete(head', elem, rest, 0, nodes);
      WithoutFirst(rest);
      heap.Free(elem.response);
      heap.Free(elem);
      OwnedRest(heap, rest);
      elem := tmp;
      rest := rest[1..];
      LinkedHead(head', rest);
    }
    NothingOwned(rest);
    TornDown(s, old(heap.live), heap.live);
  }

  lemma TornDown(s: seq<Node>, before: set<object>, live: set<object>)
    requires live == before - NodesOf(s) - BlocksOf(s)
    ensures forall n :: n in s ==> n !in live && n.response !in live
    ensures forall x :: x in before && x !in live ==> exists n :: n in s && (x == n || x == n.response)
  {
    hide NodesOf, BlocksOf;
    ChainOwns(s);
  }

  /** What a chain owns: its nodes, and the objects in them. */
  lemma {:induction false} ChainOwns(s: seq<Node>)
    ensures forall n :: n in s ==> n in NodesOf(s) && n.response in BlocksOf(s)
    ensures forall x :: x in NodesOf(s) || x in BlocksOf(s) ==> exists n :: n in s && (x == n || x == n.response)
  {
    if s != [] {
      ChainOwns(s[1..]);
      assert s[0] in s;
      assert forall n :: n in s[1..] ==> n in s;
    }
  }

  lemma LinkedHead(head: Node?, s: seq<Node>)
    requires Linked(head, s)
    ensures head == null <==> s == []
    ensures s != [] ==> head == s[0] && (s[0].next == if |s| > 1 then s[1] else null)
  {
  }

  lemma WithoutFirst(s: seq<Node>)
    requires s != []
    ensures Without(s, 0) == s[1..]
  {
  }

  lemma NothingOwned(s: seq<Node>)
    requires s == []
    ensures NodesOf(s) == {} && BlocksOf(s) == {}
  {
  }

  lemma OwnsSome(s: seq<Node>)
    ensures NodesOf(s) + BlocksOf(s) == {} <==> s == []
  {
  }

  lemma {:induction false} OwnedLive(s: seq<Node>, live: set<object>)
    requires forall i :: 0 <= i < |s| ==> s[i] in live && s[i].response in live
    ensures NodesOf(s) + BlocksOf(s) <= live
  {
    if s != [] {
      OwnedLive(s[1..], live);
    }
  }
}
