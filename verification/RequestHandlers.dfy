/**
 * Serving requests: the objects of the request at hand are copied as they arrive, a handler
 * is looked up by name when it is complete, and its response chain is sent and torn down.
 */
module RequestHandlers {
  import opened Bytes
  import opened Objects
  import opened Messages
  import opened Receiver
  import opened Requests
  import opened ResponseChain
  import opened HashLinks
  import opened HashTable
  import Lookup

  /** The objects in the first `n` slots. */
  ghost function ObjectsIn(slots: seq<Block?>, n: nat): (r: seq<Object>)
    requires n <= |slots| && forall i :: 0 <= i < n ==> slots[i] != null
    ensures |r| == n
  {
    if n == 0 then [] else ObjectsIn(slots, n - 1) + [slots[n - 1].properties]
  }

  /** The blocks in the first `n` slots. */
  ghost function BlocksIn(slots: seq<Block?>, n: nat): set<object>
    requires n <= |slots| && forall i :: 0 <= i < n ==> slots[i] != null
  {
    if n == 0 then {} else BlocksIn(slots, n - 1) + {slots[n - 1]}
  }

  lemma {:induction false} ObjectsAt(slots: seq<Block?>, n: nat)
    requires n <= |slots| && forall i :: 0 <= i < n ==> slots[i] != null
    ensures forall i :: 0 <= i < n ==> ObjectsIn(slots, n)[i] == slots[i].properties
    ensures forall i :: 0 <= i < n ==> slots[i] in BlocksIn(slots, n)
    ensures forall b :: b in BlocksIn(slots, n) ==> exists i :: 0 <= i < n && slots[i] == b
  {
    if n > 0 {
      ObjectsAt(slots, n - 1);
    }
  }

  /** A block put in the next slot comes last. */
  lemma NextSlot(slots: seq<Block?>, n: nat, block: Block)
    requires n < |slots| && forall i :: 0 <= i < n ==> slots[i] != null
    ensures var slots' := slots[n := block];
            && ObjectsIn(slots', n + 1) == ObjectsIn(slots, n) + [block.properties]
            && BlocksIn(slots', n + 1) == BlocksIn(slots, n) + {block}
  {
    Agree(slots, slots[n := block], n);
  }

  lemma {:induction false} Agree(slots: seq<Block?>, other: seq<Block?>, n: nat)
    requires n <= |slots| && n <= |other| && forall i :: 0 <= i < n ==> slots[i] != null && slots[i] == other[i]
    ensures ObjectsIn(other, n) == ObjectsIn(slots, n) && BlocksIn(other, n) == BlocksIn(slots, n)
  {
    if n > 0 {
      Agree(slots, other, n - 1);
    }
  }

  /** What arrives from the receiver. */
  datatype Call = NewRequest | NewObject(properties: Object) | Complete(id: u16)

  /** What has been sent and returned, and whether a handler left allocated objects behind. */
  datatype Service = Service(server: Server, sent: seq<byte>, errors: seq<Option<Text>>, leaked: bool)

  function Serve(handlers: Handlers, s: Server, c: Call): Service {
    match c
    case NewRequest => Service(RequestNew(s), [], [], false)
    case NewObject(o) => Service(RequestObject(s, o), [], [], false)
    case Complete(id) =>
      var a := Answer(handlers, s);
      Service(Served(handlers, s), ResponseBytes(a, id), [a.error], a.error.Some? && a.responses != [])
  }

  function ServeAll(handlers: Handlers, s: Server, calls: seq<Call>): Service {
    if calls == [] then Service(s, [], [], false)
    else
      var before := ServeAll(handlers, s, calls[..|calls| - 1]);
      var r := Serve(handlers, before.server, calls[|calls| - 1]);
      Service(r.server, before.sent + r.sent, before.errors + r.errors, before.leaked || r.leaked)
  }

  /** A new request and its objects, up to its completion. */
  function RequestCalls(os: seq<Object>): seq<Call> {
    if os == [] then [NewRequest] else RequestCalls(os[..|os| - 1]) + [NewObject(os[|os| - 1])]
  }

  /** The first 32 objects of a request are those the handler sees, whatever was there before. */
  lemma {:induction false} FirstObjects(handlers: Handlers, s: Server, os: seq<Object>)
    ensures ServeAll(handlers, s, RequestCalls(os)).server ==
            Server(Considered(os), s.served)
  {
    hide Answer, Served, ResponseBytes, ServeAll;
    if os == [] {
      ServeNone(handlers, s);
      ServeLast(handlers, s, [], NewRequest);
      assert [] + [NewRequest] == [NewRequest];
    } else {
      var k := |os| - 1;
      FirstObjects(handlers, s, os[..k]);
      ServeLast(handlers, s, RequestCalls(os[..k]), NewObject(os[k]));
      assert os[..k] + [os[k]] == os;
    }
  }

  lemma ServeNone(handlers: Handlers, s: Server)
    ensures ServeAll(handlers, s, []).server == s
  {
  }

  lemma ServeLast(handlers: Handlers, s: Server, calls: seq<Call>, c: Call)
    ensures var before := ServeAll(handlers, s, calls); var r := Serve(handlers, before.server, c);
            ServeAll(handlers, s, calls + [c]) ==
            Service(r.server, before.sent + r.sent, before.errors + r.errors, before.leaked || r.leaked)
  {
    hide Serve;
    assert (calls + [c])[..|calls|] == calls;
  }

  /** server_handlers_handle_request. */
  method HandleRequest(handlers: Table<Handler>, name: seq<byte>, handler: Handler)
    requires handlers.Valid() && name !in Entries(handlers.items)
    modifies handlers, handlers.buckets, handlers.items
    ensures handlers.Valid() && Entries(handlers.items) == Entries(old(handlers.items))[name := handler]
  {
    hide *;
    var newHandler := new Handle(name, handler);
    handlers.ItemsDistinct();
    EntriesOf(handlers.items);
    handlers.Add(newHandler);
  }

  /** The answer to a request that names an item of the table: what its handler makes of the objects. */
  lemma ItemsAnswer(handlers: Table<Handler>, s: Server)
    requires handlers.Valid()
    ensures forall i, h :: s.objects != [] && 0 <= i < |s.objects[0]| && s.objects[0][i].key == KEY_ID
                           && (forall j :: 0 <= j < i ==> s.objects[0][j].key != KEY_ID)
                           && h in handlers.items && h.key == CString(s.objects[0][i].value) ==>
              Answer(Entries(handlers.items), s) == h.value(s.served, s.objects)
  {
    hide Answer, Entries, Table.Valid, CString;
    handlers.ItemsDistinct();
    EntriesOf(handlers.items);
    AnswerIs(Entries(handlers.items), s);
  }

  /** What a lookup of the handler for these objects yields, in terms of the items of the table. */
  ghost predicate Found(items: seq<Handle<Handler>>, os: seq<Object>, handler: Option<Handler>, why: Text,
                        at: nat, item: Handle?<Handler>) {
    if os == [] then handler == None && why == EmptyRequest()
    else if forall p :: p in os[0] ==> p.key != KEY_ID then handler == None && why == UnknownReqId()
    else
      && at < |os[0]| && os[0][at].key == KEY_ID && (forall j :: 0 <= j < at ==> os[0][j].key != KEY_ID)
      && var name := CString(os[0][at].value);
         if handler == None then why == UnknownRequest() && forall h :: h in items ==> h.key != name
         else item != null && item in items && item.key == name && item.value == handler.value
  }

  lemma FirstAt(o: Object, p: Property) returns (at: nat)
    requires Lookup.FirstMatch(o, KEY_ID, None) == Some(p)
    ensures at < |o| && o[at] == p && p.key == KEY_ID && forall j :: 0 <= j < at ==> o[j].key != KEY_ID
  {
    at :| 0 <= at < |o| && o[at] == p && p.key == KEY_ID && forall j :: 0 <= j < at ==> o[j].key != KEY_ID;
  }

  /** What has been found is what the functions say. */
  lemma FoundIs(handlers: Table<Handler>, os: seq<Object>, handler: Option<Handler>, why: Text,
                at: nat, item: Handle?<Handler>)
    requires handlers.Valid() && Found(handlers.items, os, handler, why, at, item)
    ensures (handler, if handler == None then why else UnknownRequest()) == Dispatch(Entries(handlers.items), os)
  {
    hide Entries, Table.Valid, CString;
    handlers.ItemsDistinct();
    EntriesOf(handlers.items);
    if os != [] && exists p :: p in os[0] && p.key == KEY_ID {
      var p := Lookup.FirstMatch(os[0], KEY_ID, None).value;
      var i := FirstAt(os[0], p);
      assert i == at;
    }
  }

  class ServerHandlers {
    const heap: Heap
    const handlers: Table<Handler>
    const objects: array<Block?>
    var objectsNum: nat
    var served: nat  // stands for the state of the handlers

    ghost predicate Valid()
      reads this, heap, objects, handlers, handlers.buckets, handlers.items
    {
      && objects.Length == MAX_RECEIVING_OBJECTS
      && Held(objects[..])
      && handlers.Valid()
    }

    /** The first `objectsNum` slots hold allocated blocks, each another one. */
    ghost predicate Held(slots: seq<Block?>)
      reads this`objectsNum, heap
    {
      && objectsNum <= |slots|
      && (forall i :: 0 <= i < objectsNum ==> slots[i] != null && slots[i] in heap.live)
      && (forall i, j :: 0 <= i < j < objectsNum ==> slots[i] != slots[j])
    }

    ghost function State(): (s: Server)
      requires Valid()
      reads this, heap, objects, handlers, handlers.buckets, handlers.items
      ensures |s.objects| == objectsNum
    {
      Server(ObjectsIn(objects[..], objectsNum), served)
    }

    /** The copies that the server holds on to. */
    ghost function Copies(): set<object>
      requires Valid()
      reads this, heap, objects, handlers, handlers.buckets, handlers.items
    {
      BlocksIn(objects[..], objectsNum)
    }

    /** server_handlers_init. */
    constructor (heap: Heap, handlers: Table<Handler>)
      requires handlers.Valid()
      ensures Valid() && State() == Server([], 0) && Copies() == {}
      ensures this.heap == heap && this.handlers == handlers && fresh(objects)
    {
      this.heap, this.handlers := heap, handlers;
      objects := new Block?[MAX_RECEIVING_OBJECTS](_ => null);
      objectsNum, served := 0, 0;
    }

    /** client_request_new: the copies of the previous request are freed. */
    method RequestNew()
      requires Valid()
      modifies this`objectsNum, heap
      ensures Valid() && State() == Requests.RequestNew(old(State()))
      ensures Copies() == {} && heap.live == old(heap.live) - old(Copies())
      ensures objectsNum == 0 && forall i :: 0 <= i < old(objectsNum) ==> objects[i] !in heap.live
    {
      hide Table.Valid;
      ObjectsAt(objects[..], objectsNum);
      var i := 0;
      while i < objectsNum
        invariant i <= objectsNum == old(objectsNum)
        invariant heap.live == old(heap.live) - BlocksIn(objects[..], i)
        invariant forall j :: i <= j < objectsNum ==> objects[j] in heap.live
      {
        heap.Free(objects[i]);
        i := i + 1;
      }
      objectsNum := 0;
    }

    /** client_request_new_object: an object is copied, unless there are too many. */
    method RequestObject(o: Object)
      requires Valid()
      modifies this`objectsNum, heap, objects
      ensures Valid() && State() == Requests.RequestObject(old(State()), o)
      ensures heap.live - Copies() == old(heap.live) - old(Copies())
    {
      hide Table.Valid, ObjectsIn, BlocksIn;
      if objectsNum >= MAX_RECEIVING_OBJECTS {
        return;
      }
      var copy := new Block(o);
      heap.Malloc(copy);
      ghost var slots := objects[..];
      NextSlot(slots, objectsNum, copy);
      ObjectsAt(slots, objectsNum);
      objects[objectsNum] := copy;
      assert objects[..] == slots[objectsNum := copy];
      objectsNum := objectsNum + 1;
    }

    /**
     * The lookup of client_request_complete: the handler of the item whose key is the first ID
     * of the first object, up to its first NUL; or why there is none. `at` is where that ID is.
     */
    method FindHandler() returns (handler: Option<Handler>, why: Text, ghost at: nat, ghost item: Handle?<Handler>)
      requires Valid()
      ensures Found(handlers.items, State().objects, handler, why, at, item)
    {
      hide Table.Valid, Entries, CString, ObjectsIn;
      at, item := 0, null;
      if objectsNum == 0 {
        return None, EmptyRequest(), at, item;
      }
      ObjectsAt(objects[..], objectsNum);
      var id := Lookup.FirstMatch(objects[0].properties, KEY_ID, None);
      if id == None {
        return None, UnknownReqId(), at, item;
      }
      at := FirstAt(objects[0].properties, id.value);
      var h := handlers.Find(CString(id.value.value));
      if h == null {
        return None, UnknownRequest(), at, item;
      }
      return Some(h.value), UnknownRequest(), at, h;
    }

    /** The objects that a handler is given. */
    method ObjectsHeld() returns (r: seq<Object>)
      requires Valid()
      ensures r == State().objects
    {
      r := [];
      var i := 0;
      while i < objectsNum
        invariant i <= objectsNum && r == ObjectsIn(objects[..], i)
      {
        r := r + [objects[i].properties];
        i := i + 1;
      }
    }

    /** The handler is called with the objects held, and its responses are sent unless it fails. */
    method CallHandler(handler: Handler, id: u16) returns (sent: seq<byte>, err: Option<Text>)
      requires Valid()
      modifies this`served, heap
      ensures Valid() && Copies() == old(Copies())
      ensures State() == old(State()).(served := old(State().served) + 1)
      ensures var a := handler(old(State().served), old(State().objects));
              && err == a.error && sent == ResponseBytes(a, id)
              && old(heap.live) <= heap.live && (heap.live == old(heap.live) <==> a.error == None || a.responses == [])
    {
      hide Encode, Linked, Owned, NodesOf, BlocksOf, CString, Table.Valid, Entries, ObjectsIn, BlocksIn;
      var objects := ObjectsHeld();
      var a := handler(served, objects);
      served := served + 1;
      var head, s := Respond(a.responses, heap);
      OwnsSome(s);
      if a.error.Some? {
        return [], a.error;
      }
      sent := SendResponses(head, heap, id, s);
      return sent, None;
    }

    /**
     * client_request_complete: the error text or, if there is none, the response that was sent.
     * The handler that was found, or why there is none, decides.
     */
    method Complete(id: u16) returns (sent: seq<byte>, err: Option<Text>, ghost handler: Option<Handler>,
                                      ghost why: Text, ghost at: nat, ghost item: Handle?<Handler>)
      requires Valid()
      modifies this`served, heap
      ensures Valid() && Copies() == old(Copies())
      ensures State() == Served(Entries(handlers.items), old(State()))
      ensures var a := Answer(Entries(handlers.items), old(State()));
              && err == a.error && sent == ResponseBytes(a, id)
              && old(heap.live) <= heap.live && (heap.live == old(heap.live) <==> a.error == None || a.responses == [])
      ensures Found(handlers.items, old(State().objects), handler, why, at, item)
      ensures handler == None ==> sent == [] && err == Some(why)
      ensures handler.Some? ==> var a := handler.value(old(State().served), old(State().objects));
              err == a.error && sent == ResponseBytes(a, id)
    {
      hide Table.Valid, Held, ServerHandlers.State, ServerHandlers.Copies, Entries, Dispatch, ResponseBytes, Found;
      var found, text;
      found, text, at, item := FindHandler();
      handler, why := found, text;
      FoundIs(handlers, State().objects, handler, why, at, item);
      if found == None {
        sent, err := [], Some(text);
        return;
      }
      sent, err := CallHandler(found.value, id);
    }

    /**
     * Ownership over any sequence of calls: apart from what failing handlers leave behind, the
     * copies that the server holds on to are all that it has allocated and not freed.
     */
    method ServeCalls(calls: seq<Call>) returns (sent: seq<byte>, errors: seq<Option<Text>>)
      requires Valid()
      modifies this`objectsNum, this`served, heap, objects
      ensures Valid()
      ensures var r := ServeAll(Entries(handlers.items), old(State()), calls);
              && State() == r.server && sent == r.sent && errors == r.errors
              && Copies() <= heap.live
              && old(heap.live) - old(Copies()) <= heap.live - Copies()
              && (heap.live - Copies() == old(heap.live) - old(Copies()) <==> !r.leaked)
    {
      hide Table.Valid, Held, ServerHandlers.State, ServerHandlers.Copies, Answer, Served, ResponseBytes, Entries;
      sent, errors := [], [];
      var i := 0;
      CopiesLive();
      while i < |calls|
        invariant i <= |calls| && Valid() && Copies() <= heap.live
        invariant var r := ServeAll(Entries(handlers.items), old(State()), calls[..i]);
                  && State() == r.server && sent == r.sent && errors == r.errors
                  && old(heap.live) - old(Copies()) <= heap.live - Copies()
                  && (heap.live - Copies() == old(heap.live) - old(Copies()) <==> !r.leaked)
      {
        assert calls[..i + 1][..i] == calls[..i];
        ghost var live, copies := heap.live, Copies();
        match calls[i] {
          case NewRequest =>
            RequestNew();
          case NewObject(o) =>
            RequestObject(o);
          case Complete(id) =>
            var more, err, _, _, _, _ := Complete(id);
            sent, errors := sent + more, errors + [err];
        }
        CopiesLive();
        Grown(old(heap.live) - old(Copies()), live, copies, heap.live, Copies());
        i := i + 1;
      }
      assert calls[..|calls|] == calls;
    }

    /** The state, field by field. */
    lemma StateIs()
      requires Valid()
      ensures State().served == served && |State().objects| == objectsNum
      ensures forall i :: 0 <= i < objectsNum ==> State().objects[i] == objects[i].properties
    {
      ObjectsAt(objects[..], objectsNum);
    }

    lemma CopiesLive()
      requires Valid()
      ensures Copies() <= heap.live
    {
      ObjectsAt(objects[..], objectsNum);
    }
  }

  /** The response chain is sent as one message, if there are any, and torn down. */
  method SendResponses(head: Node?, heap: Heap, id: u16, ghost s: seq<Node>) returns (sent: seq<byte>)
    requires Linked(head, s) && Owned(heap, s)
    modifies heap, (set n | n in s)`next
    ensures sent == ResponseBytes(Outcome(None, Responses(s)), id)
    ensures heap.live == old(heap.live) - NodesOf(s) - BlocksOf(s)
  {
    hide Encode, Linked, NodesOf, BlocksOf;
    OwnsSome(s);
    OwnedLive(s, heap.live);
    ghost var owned := NodesOf(s) + BlocksOf(s);
    sent := [];
    var responseCount := Count(head, s);
    if responseCount != 0 {
      var asArray := AsArray(head, responseCount, s);
      heap.Malloc(asArray);
      ResponsesAt(s);
      sent := Send(asArray, responseCount % 0x100, id, Responses(s));
      var _ := TearDown(head, heap, s);
      assert asArray !in owned;
      heap.Free(asArray);
    }
  }

  lemma Grown(start: set<object>, live: set<object>, copies: set<object>, live': set<object>, copies': set<object>)
    requires start <= live - copies && copies <= live && copies' <= live'
    requires live' - copies' == live - copies || (copies' == copies && live <= live')
    ensures start <= live' - copies'
    ensures live' - copies' == start <==> live - copies == start && live' - copies' == live - copies
    ensures copies' == copies ==> (live' - copies' == live - copies <==> live' == live)
  {
    if copies' == copies {
      assert live' == (live' - copies) + copies && live == (live - copies) + copies;
    }
  }

  /** proto_send, for objects in blocks of their own. */
  method Send(objects: array<Block?>, num: byte, id: u16, ghost os: seq<Object>) returns (sent: seq<byte>)
    requires num <= objects.Length == |os|
    requires forall i :: 0 <= i < |os| ==> objects[i] != null && objects[i].properties == os[i]
    ensures sent == Encode(Message(FLAG_RESPONSE, id, os[..num]))
  {
    hide Encode;
    var some: seq<Object> := [];
    var i := 0;
    while i < num
      invariant i <= num && some == os[..i]
    {
      some := some + [objects[i].properties];
      i := i + 1;
    }
    sent := Encode(Message(FLAG_RESPONSE, id, some));
  }
}
