/** One end of a connection: a receiver and the peer behind its callbacks. */
module Endpoints {
  import opened Bytes
  import opened Objects
  import opened Messages
  import opened Parser
  import opened Streams
  import opened Receiver
  import opened Requests
  import Lookup

  /** What a `Receiver` object with the callbacks of a peer amounts to. */
  datatype Endpoint = Endpoint(control: Control, rest: seq<byte>, session: Session<Peer>)

  /** One recv_process: what `Receiver.RecvProcess` does to the state of the receiver. */
  function Receive(handlers: Handlers, ptr: nat, e: Endpoint, chunk: seq<byte>): Endpoint {
    var p := Parse(ptr, e.control, e.rest + chunk);
    Endpoint(p.control, p.rest, Run(PeerCallbacks(handlers), e.session, p.events))
  }

  /** Two arrivals amount to one. */
  lemma ReceiveTwice(handlers: Handlers, ptr: nat, e: Endpoint, a: seq<byte>, b: seq<byte>)
    ensures Receive(handlers, ptr, Receive(handlers, ptr, e, a), b) == Receive(handlers, ptr, e, a + b)
  {
    hide Parse, Run, PeerCallbacks;
    var p := Parse(ptr, e.control, e.rest + a);
    Assoc(e.rest, a, b);
    ParseAppend(ptr, e.control, e.rest + a, b);
    RunAppend(PeerCallbacks(handlers), e.session, p.events, Parse(ptr, p.control, p.rest + b).events);
  }

  /** Between messages, with everything received so far processed. */
  ghost predicate AtRest(e: Endpoint) {
    e.control.phase == RecvHeader && e.rest == [] && e.session.status == Alive && e.session.user.defined
  }

  /** A whole message arriving at rest has the effect of its events. */
  lemma ReceiveMessage(handlers: Handlers, ptr: nat, e: Endpoint, m: Message)
    requires AtRest(e) && Deliverable(ptr, m)
    ensures Receive(handlers, ptr, e, Encode(m)) ==
            Endpoint(Idle(m), [], Run(PeerCallbacks(handlers), e.session, EventsOf(m)))
    ensures Idle(m).phase == RecvHeader
  {
    hide Parse, Run, PeerCallbacks, Encode, EventsOf, Deliverable;
    assert e.rest + Encode(m) == Encode(m) + [];
    MessageRoundTrip(ptr, e.control, m, []);
    NothingToParse(ptr, Idle(m));
    assert EventsOf(m) + [] == EventsOf(m);
  }

  /** A part of a message arriving at rest has the effect of a proper prefix of its events. */
  lemma ReceivePart(handlers: Handlers, ptr: nat, e: Endpoint, m: Message, n: nat) returns (es: seq<Event>)
    requires AtRest(e) && Deliverable(ptr, m) && n < |Encode(m)|
    ensures es < EventsOf(m)
    ensures Receive(handlers, ptr, e, Encode(m)[..n]).session == Run(PeerCallbacks(handlers), e.session, es)
  {
    hide Parse, Run, PeerCallbacks, Encode, EventsOf, Deliverable;
    assert e.rest + Encode(m)[..n] == Encode(m)[..n];
    NeverEarly(ptr, e.control, m, n);
    es := Parse(ptr, e.control, Encode(m)[..n]).events;
  }

  // ---------------------------------------------------------------- the server side

  function RequestMessage(o: Object, id: u16): Message {
    Message(0, id, [o])
  }

  /** The first `k` objects of a request, as the server keeps them. */
  lemma {:induction false} ServerObjects(handlers: Handlers, u: Peer, h: Header, objects: seq<Object>, k: nat)
    requires u.defined && u.incoming.Some? && !IsResponse(h.flags) && k <= |objects|
    ensures Run(PeerCallbacks(handlers), Session(u, Alive), [Started(h)] + Deliveries(h, objects)[..k]) ==
            Session(u.(incoming := Some(Server(Considered(objects[..k]), u.incoming.value.served))), Alive)
    decreases k
  {
    hide Run;
    var cb, ds := PeerCallbacks(handlers), Deliveries(h, objects);
    NoCompletedDelivery(h, objects);
    if k == 0 {
      assert [Started(h)] + ds[..0] == [Started(h)];
      RunOne(cb, Session(u, Alive), Started(h));
    } else {
      ServerObjects(handlers, u, h, objects, k - 1);
      var es := [Started(h)] + ds[..k - 1];
      assert [Started(h)] + ds[..k] == es + [ds[k - 1]];
      RunAppend(cb, Session(u, Alive), es, [ds[k - 1]]);
      var s := Server(Considered(objects[..k - 1]), u.incoming.value.served);
      RunOne(cb, Session(u.(incoming := Some(s)), Alive), ds[k - 1]);
      ConsideredNext(objects[..k - 1], objects[k - 1], s.served);
      assert objects[..k - 1] + [objects[k - 1]] == objects[..k];
    }
  }

  /** While a request is incomplete, nothing is sent. */
  lemma ServerPart(handlers: Handlers, u: Peer, m: Message, es: seq<Event>)
    requires u.defined && u.incoming.Some? && !IsResponse(m.flags)
    requires es < EventsOf(m)
    ensures var s := Run(PeerCallbacks(handlers), Session(u, Alive), es);
            s.status == Alive && s.user == u.(incoming := s.user.incoming) && s.user.incoming.Some?
            && s.user.incoming.value.served == u.incoming.value.served
  {
    hide Run, Encode, EventsOf, HeaderOf;
    HeaderFields(m);
    PrefixOfEvents(m, es);
    RunNone(PeerCallbacks(handlers), Session(u, Alive));
    if es != [] {
      ServerObjects(handlers, u, HeaderOf(m), m.objects, |es| - 1);
    }
  }

  /** The reply of a server in this state to the request that it has the objects of. */
  function Reply(handlers: Handlers, s: Server, id: u16): Message {
    ReplyWith(Answer(handlers, s), id)
  }

  /** The reply that carries this answer. */
  function ReplyWith(a: Outcome, id: u16): Message {
    match a.error
    case Some(text) => ErrorReply(text, id)
    case None => Message(FLAG_RESPONSE, id, a.responses)
  }

  /** What makes an answer one: a non-empty error text, or a sendable number of objects. */
  ghost predicate GoodAnswer(a: Outcome) {
    match a.error
    case Some(text) => 0 < |text| <= ERROR_STR
    case None => 0 < |a.responses| < 0x100
  }

  /** A complete request is answered with exactly its reply. */
  lemma ServerWhole(handlers: Handlers, u: Peer, m: Message)
    requires u.defined && u.incoming.Some? && !IsResponse(m.flags)
    requires GoodAnswer(Answer(handlers, Server(Considered(m.objects), u.incoming.value.served)))
    ensures var server := Server(Considered(m.objects), u.incoming.value.served);
            Run(PeerCallbacks(handlers), Session(u, Alive), EventsOf(m)) ==
            Session(u.(incoming := Some(Served(handlers, server)),
                       out := u.out + Encode(Reply(handlers, server, m.id))), Alive)
  {
    hide Run, Encode, Answer, Dispatch, Served, Reply, ResponseBytes, HeaderOf;
    HeaderFields(m);
    var cb, h, n := PeerCallbacks(handlers), HeaderOf(m), |m.objects|;
    var u' := u.(incoming := Some(Server(Considered(m.objects), u.incoming.value.served)));
    ServerObjects(handlers, u, h, m.objects, n);
    var ds := Deliveries(h, m.objects);
    assert ds[..n] == ds && m.objects[..n] == m.objects;
    RunAppend(cb, Session(u, Alive), [Started(h)] + ds, [Completed(h)]);
    RunOne(cb, Session(u', Alive), Completed(h));
    AnswerIsSent(handlers, u', h);
  }

  /**
   * A complete request that names a handler: that handler is called with the objects of the
   * request, and what it returns is sent, as an error or as a response, under the same id.
   */
  lemma NamedRequest(handlers: Handlers, u: Peer, m: Message, i: nat)
    requires u.defined && u.incoming.Some? && !IsResponse(m.flags) && m.objects != []
    requires i < |m.objects[0]| && m.objects[0][i].key == KEY_ID
    requires forall j :: 0 <= j < i ==> m.objects[0][j].key != KEY_ID
    requires CString(m.objects[0][i].value) in handlers
    requires GoodAnswer(handlers[CString(m.objects[0][i].value)](u.incoming.value.served, Considered(m.objects)))
    ensures var a := handlers[CString(m.objects[0][i].value)](u.incoming.value.served, Considered(m.objects));
            var sent := if a.error.Some? then Message(3, m.id, [[Property(1, a.error.value)]])
                        else Message(2, m.id, a.responses);
            Run(PeerCallbacks(handlers), Session(u, Alive), EventsOf(m)).user.out == u.out + Encode(sent)
  {
    hide Run, Encode, Answer, Served, EventsOf, CString;
    var server := Server(Considered(m.objects), u.incoming.value.served);
    assert server.objects[0] == m.objects[0];
    AnswerIs(handlers, server);
    ServerWhole(handlers, u, m);
  }

  /** A handler that returns what it is given: the first 32 objects of the request come back. */
  lemma ObjectsComeBack(handlers: Handlers, u: Peer, m: Message, name: seq<byte>)
    requires u.defined && u.incoming.Some? && !IsResponse(m.flags) && m.objects != [] && 0 !in name
    requires |name| < 0x1_0000 && m.objects[0] == [Property(KEY_ID, name)]
    requires name in handlers && handlers[name] == ((n: nat, os: seq<Object>) => Outcome(None, os))
    ensures Run(PeerCallbacks(handlers), Session(u, Alive), EventsOf(m)).user.out ==
            u.out + Encode(Message(2, m.id, if |m.objects| <= 32 then m.objects else m.objects[..32]))
  {
    hide Run, Encode, EventsOf;
    NamedRequest(handlers, u, m, 0);
  }

  /** A request to a peer without incoming callbacks: its objects are ignored, its end is undefined. */
  lemma RequestToNobody(handlers: Handlers, u: Peer, m: Message)
    requires u.defined && u.incoming == None && !IsResponse(m.flags)
    ensures Run(PeerCallbacks(handlers), Session(u, Alive), EventsOf(m)) == Session(u.(defined := false), Alive)
  {
    hide Run, HeaderOf;
    HeaderFields(m);
    var cb, h, ds := PeerCallbacks(handlers), HeaderOf(m), Deliveries(HeaderOf(m), m.objects);
    NobodyIgnores(handlers, u, h, m.objects);
    RunAppend(cb, Session(u, Alive), [Started(h)] + ds, [Completed(h)]);
    RunAppend(cb, Session(u, Alive), [Started(h)], ds);
    RunOne(cb, Session(u, Alive), Started(h));
    RunOne(cb, Session(u, Alive), Completed(h));
  }

  lemma {:induction false} NobodyIgnores(handlers: Handlers, u: Peer, h: Header, objects: seq<Object>)
    requires u.defined && u.incoming == None && !IsResponse(h.flags)
    ensures Run(PeerCallbacks(handlers), Session(u, Alive), Deliveries(h, objects)) == Session(u, Alive)
  {
    if objects != [] {
      NobodyIgnores(handlers, u, h, objects[1..]);
    }
  }

  /** An object that was not readable: whoever looks at it leaves what C defines, others do not. */
  lemma UnreadableObject(u: Peer, h: Header, code: byte)
    requires u.defined
    ensures OnObject(u, h, Unreadable(code)).defined <==>
            if !IsResponse(h.flags) then u.incoming == None || |u.incoming.value.objects| >= 32
            else u.currentId != h.id || (if IsError(h.flags) then u.objectNum != 0 else !u.bindings.onObject)
    ensures OnObject(u, h, Unreadable(code)).(defined := true) == u
  {
  }

  lemma HeaderFields(m: Message)
    ensures HeaderOf(m).flags == m.flags && HeaderOf(m).id == m.id
  {
  }

  /** Either the handler's response or, through the receiver, its error text goes out. */
  lemma AnswerIsSent(handlers: Handlers, u: Peer, h: Header)
    requires u.defined && u.incoming.Some? && !IsResponse(h.flags)
    requires GoodAnswer(Answer(handlers, u.incoming.value))
    ensures Apply(PeerCallbacks(handlers), Session(u, Alive), Completed(h)) ==
            Session(u.(incoming := Some(Served(handlers, u.incoming.value)),
                       out := u.out + Encode(Reply(handlers, u.incoming.value, h.id))), Alive)
  {
    hide Encode, Answer, Dispatch, Served;
    var a := Answer(handlers, u.incoming.value);
    assert a.responses[..|a.responses|] == a.responses;
    if a.error.Some? {
      assert u.out + [] == u.out;
    }
  }

  // ---------------------------------------------------------------- the client side

  /** The user callbacks that the objects of a response lead to, numbered from `from`. */
  function Arrivals(objects: seq<Object>, from: nat): seq<UserCall> {
    if objects == [] then []
    else [ObjectArrived(from % 0x100, objects[0])] + Arrivals(objects[1..], from + 1)
  }

  /** The user callbacks that a request should lead to: its objects and success, or one error. */
  function Calls(a: Outcome): seq<UserCall> {
    match a.error
    case Some(text) => [Failed(text)]
    case None => Arrivals(a.responses, 0) + [Succeeded]
  }

  /** A peer that has just sent a request and waits for the response. */
  ghost predicate Waiting(u: Peer, id: u16) {
    && u.defined && u.currentId == id && u.objectNum == 0 && !u.notifyError
    && u.bindings == Bindings(true, true, true)
  }

  lemma {:induction false} ArrivalsSnoc(objects: seq<Object>, from: nat, k: nat)
    requires k < |objects|
    ensures Arrivals(objects[..k + 1], from) ==
            Arrivals(objects[..k], from) + [ObjectArrived((from + k) % 0x100, objects[k])]
    decreases k
  {
    if k > 0 {
      ArrivalsSnoc(objects[1..], from + 1, k - 1);
      assert objects[..k + 1][1..] == objects[1..][..k] && objects[..k][1..] == objects[1..][..k - 1];
    } else {
      assert objects[..1][1..] == [] && Arrivals([], from + 1) == [];
    }
  }

  lemma {:induction false} ArrivalsSize(objects: seq<Object>, from: nat)
    ensures |Arrivals(objects, from)| == |objects|
    ensures forall i :: 0 <= i < |objects| ==>
              Arrivals(objects, from)[i] == ObjectArrived((from + i) % 0x100, objects[i])
  {
    if objects != [] {
      var rest := Arrivals(objects[1..], from + 1);
      ArrivalsSize(objects[1..], from + 1);
      assert Arrivals(objects, from) == [ObjectArrived(from % 0x100, objects[0])] + rest;
      forall i | 0 <= i < |objects|
        ensures Arrivals(objects, from)[i] == ObjectArrived((from + i) % 0x100, objects[i])
      {
        if i > 0 {
          assert rest[i - 1] == ObjectArrived((from + 1 + (i - 1)) % 0x100, objects[1..][i - 1]);
        }
      }
    }
  }

  /** A peer that is defined and has this current id. */
  ghost predicate Current(u: Peer, id: u16) {
    u.defined && u.currentId == id
  }

  /** The objects of a response without the error flag: handed on and counted, or neither. */
  function AfterObjects(u: Peer, objects: seq<Object>): Peer {
    if !u.bindings.onObject then u
    else u.(calls := u.calls + Arrivals(objects, u.objectNum), objectNum := (u.objectNum + |objects|) % 0x100)
  }

  /** One more object of a response without the error flag. */
  lemma ObjectStep(handlers: Handlers, u: Peer, h: Header, objects: seq<Object>, o: Object)
    requires Current(u, h.id) && IsResponse(h.flags) && !IsError(h.flags)
    ensures Apply(PeerCallbacks(handlers), Session(AfterObjects(u, objects), Alive), Delivered(h, Readable(o))) ==
            Session(AfterObjects(u, objects + [o]), Alive)
  {
    hide Arrivals, Encode, Answer, CString, Lookup.FirstMatch, OnRequestEnd, OnRequestObject, OnComplete, OnStart;
    var all, k := objects + [o], |objects|;
    ArrivalsSnoc(all, u.objectNum, k);
    assert all[..k] == objects && all[..k + 1] == all;
    Assoc(u.calls, Arrivals(objects, u.objectNum), [ObjectArrived((u.objectNum + k) % 0x100, o)]);
  }

  lemma ResponseStart(handlers: Handlers, u: Peer, h: Header)
    requires IsResponse(h.flags)
    ensures Apply(PeerCallbacks(handlers), Session(u, Alive), Started(h)) == Session(u, Alive)
  {
  }

  /** The first `k` objects of a response, as a peer takes them that is waiting for it, or not any more. */
  lemma {:induction false} ObjectsOf(handlers: Handlers, u: Peer, h: Header, objects: seq<Object>, k: nat)
    requires Current(u, h.id) && IsResponse(h.flags) && !IsError(h.flags) && k <= |objects|
    ensures Run(PeerCallbacks(handlers), Session(u, Alive), [Started(h)] + Deliveries(h, objects)[..k]) ==
            Session(AfterObjects(u, objects[..k]), Alive)
    decreases k
  {
    hide Run, Apply, PeerCallbacks, AfterObjects, Deliveries, IsResponse, IsError;
    var cb, ds := PeerCallbacks(handlers), Deliveries(h, objects);
    NoCompletedDelivery(h, objects);
    if k == 0 {
      assert [Started(h)] + ds[..0] == [Started(h)];
      RunOne(cb, Session(u, Alive), Started(h));
      ResponseStart(handlers, u, h);
      NoObjects(u);
      assert objects[..0] == [];
    } else {
      ObjectsOf(handlers, u, h, objects, k - 1);
      var es := [Started(h)] + ds[..k - 1];
      assert [Started(h)] + ds[..k] == es + [ds[k - 1]];
      RunAppend(cb, Session(u, Alive), es, [ds[k - 1]]);
      RunOne(cb, Session(AfterObjects(u, objects[..k - 1]), Alive), ds[k - 1]);
      ObjectStep(handlers, u, h, objects[..k - 1], objects[k - 1]);
      assert objects[..k - 1] + [objects[k - 1]] == objects[..k];
    }
  }

  lemma NoObjects(u: Peer)
    ensures AfterObjects(u, []) == u
  {
    assert u.calls + [] == u.calls;
  }

  /** The first `k` objects of a response, as the waiting client sees them. */
  lemma ClientObjects(handlers: Handlers, u: Peer, h: Header, objects: seq<Object>, k: nat)
    requires Waiting(u, h.id) && IsResponse(h.flags) && !IsError(h.flags) && k <= |objects|
    ensures Run(PeerCallbacks(handlers), Session(u, Alive), [Started(h)] + Deliveries(h, objects)[..k]) ==
            Session(u.(calls := u.calls + Arrivals(objects[..k], 0), objectNum := k % 0x100), Alive)
  {
    hide Run, Arrivals;
    ObjectsOf(handlers, u, h, objects, k);
  }

  /** The error property of the last object that has one. */
  function LastError(objects: seq<Object>): Option<Property> {
    if objects == [] then None
    else
      var k := |objects| - 1;
      match Lookup.FirstMatch(objects[k], KEY_ERROR, None)
      case None => LastError(objects[..k])
      case Some(p) => Some(p)
  }

  /** Every error text fits `error_str`. */
  ghost predicate TextsFit(objects: seq<Object>) {
    forall o :: o in objects ==>
      match Lookup.FirstMatch(o, KEY_ERROR, None)
      case None => true
      case Some(p) => |p.value| <= ERROR_STR
  }

  /** A client that has found this error property, or none. */
  function Noted(u: Peer, p: Option<Property>): Peer {
    match p
    case None => u
    case Some(p) => u.(notifyError := true, errorStr := p.value)
  }

  /** The error property that a peer takes from these objects: none once objects have been handed on. */
  function ErrorFor(u: Peer, objects: seq<Object>): Option<Property> {
    if u.objectNum != 0 then None else LastError(objects)
  }

  /** The first `k` objects of an error response: each error text replaces the one before. */
  lemma {:induction false} ErrorObjects(handlers: Handlers, u: Peer, h: Header, objects: seq<Object>, k: nat)
    requires Current(u, h.id) && IsResponse(h.flags) && IsError(h.flags) && k <= |objects|
    requires u.objectNum == 0 ==> TextsFit(objects)
    ensures Run(PeerCallbacks(handlers), Session(u, Alive), [Started(h)] + Deliveries(h, objects)[..k]) ==
            Session(Noted(u, ErrorFor(u, objects[..k])), Alive)
    decreases k
  {
    hide Run, Encode, CString, Answer;
    var cb, ds := PeerCallbacks(handlers), Deliveries(h, objects);
    NoCompletedDelivery(h, objects);
    if k == 0 {
      assert [Started(h)] + ds[..0] == [Started(h)];
      RunOne(cb, Session(u, Alive), Started(h));
    } else {
      ErrorObjects(handlers, u, h, objects, k - 1);
      var es := [Started(h)] + ds[..k - 1];
      assert [Started(h)] + ds[..k] == es + [ds[k - 1]];
      RunAppend(cb, Session(u, Alive), es, [ds[k - 1]]);
      RunOne(cb, Session(Noted(u, ErrorFor(u, objects[..k - 1])), Alive), ds[k - 1]);
      assert objects[k - 1] in objects && objects[..k][..k - 1] == objects[..k - 1];
    }
  }

  /**
   * A whole response to the current request, at any time and for any callbacks, NULL or not.
   * Its objects are handed on if it is no error response. Its end is a failure if an error
   * text is there, from this response or before, and success otherwise; whoever has no error
   * callback is not told of a failure, and without a response callback success is undefined.
   */
  lemma ResponseToAny(handlers: Handlers, u: Peer, m: Message)
    requires Current(u, m.id) && IsResponse(m.flags)
    requires IsError(m.flags) && u.objectNum == 0 ==> TextsFit(m.objects)
    ensures var s := Run(PeerCallbacks(handlers), Session(u, Alive), EventsOf(m));
            var p := if IsError(m.flags) && u.objectNum == 0 then LastError(m.objects) else None;
            var failed, text := u.notifyError || p.Some?, if p.Some? then p.value.value else u.errorStr;
            var handed := if IsError(m.flags) || !u.bindings.onObject then [] else Arrivals(m.objects, u.objectNum);
            var told := if failed then (if u.bindings.onError then [Failed(CString(text))] else [])
                        else if u.bindings.onResponse then [Succeeded] else [];
            && s.status == Alive && s.user.calls == (u.calls + handed) + told
            && (s.user.defined <==> failed || u.bindings.onResponse) && !s.user.notifyError
            && s.user.out == u.out && s.user.currentId == m.id
            && s.user.incoming == u.incoming && s.user.bindings == u.bindings
  {
    hide Run, Encode, HeaderOf, LastError, Arrivals, CString;
    HeaderFields(m);
    var cb, h, n := PeerCallbacks(handlers), HeaderOf(m), |m.objects|;
    var ds := Deliveries(h, m.objects);
    assert ds[..n] == ds && m.objects[..n] == m.objects;
    RunAppend(cb, Session(u, Alive), [Started(h)] + ds, [Completed(h)]);
    assert u.calls + [] == u.calls;
    if IsError(m.flags) {
      ErrorObjects(handlers, u, h, m.objects, n);
      RunOne(cb, Session(Noted(u, ErrorFor(u, m.objects)), Alive), Completed(h));
    } else {
      ObjectsOf(handlers, u, h, m.objects, n);
      var u' := AfterObjects(u, m.objects);
      RunOne(cb, Session(u', Alive), Completed(h));
      assert u'.calls + [] == u'.calls;
    }
  }

  /**
   * What a whole response leads to. In an error response the last error text wins; without
   * the error flag, objects with an error property are objects like any other.
   */
  function Outcomes(m: Message): seq<UserCall> {
    if !IsError(m.flags) then Arrivals(m.objects, 0) + [Succeeded]
    else
      match LastError(m.objects)
      case None => [Succeeded]
      case Some(p) => [Failed(CString(p.value))]
  }

  /** Any complete response, whoever sent it: exactly its outcomes, and nothing is sent. */
  lemma ResponseWhole(handlers: Handlers, u: Peer, m: Message)
    requires Waiting(u, m.id) && IsResponse(m.flags) && (IsError(m.flags) ==> TextsFit(m.objects))
    ensures var s := Run(PeerCallbacks(handlers), Session(u, Alive), EventsOf(m));
            && s.status == Alive && s.user.defined && s.user.out == u.out && s.user.currentId == m.id
            && s.user.incoming == u.incoming && s.user.bindings == u.bindings
            && s.user.calls == u.calls + Outcomes(m)
  {
    hide Run, EventsOf, LastError, Arrivals, CString;
    ResponseToAny(handlers, u, m);
    if IsError(m.flags) {
      assert u.calls + [] == u.calls;
    } else {
      Assoc(u.calls, Arrivals(m.objects, 0), [Succeeded]);
    }
  }

  /** The error reply of a server has one error text: its own, unless that is empty. */
  lemma ErrorReplyText(text: Text, id: u16)
    ensures var m := ErrorReply(text, id);
            && IsResponse(m.flags) && IsError(m.flags)
            && (|text| <= ERROR_STR ==> TextsFit(m.objects))
            && Outcomes(m) == [if text == [] then Succeeded else Failed(text)]
  {
    var o := ErrorObject(text);
    var os: seq<Object> := [o];
    assert os[..0] == [] && LastError(os[..0]) == None;
    if text != [] {
      Lookup.FirstIs(o, KEY_ERROR);
      assert LastError(os) == Some(o[0]) && CString(text) == text;
    } else {
      assert LastError(os) == None;
    }
  }

  /** A proper prefix of the events of a message has no completion in it. */
  lemma PrefixOfEvents(m: Message, es: seq<Event>)
    requires es < EventsOf(m)
    ensures |es| <= |m.objects| + 1 && |Deliveries(HeaderOf(m), m.objects)| == |m.objects|
    ensures es == [] || es == [Started(HeaderOf(m))] + Deliveries(HeaderOf(m), m.objects)[..|es| - 1]
  {
    hide HeaderOf;
    NoCompletedDelivery(HeaderOf(m), m.objects);
    if es != [] {
      var t := [Started(HeaderOf(m))] + Deliveries(HeaderOf(m), m.objects)[..|es| - 1];
      assert es == EventsOf(m)[..|es|] == t;
    }
  }

  /** While the response is incomplete, the user has seen a part of it, and nothing is sent. */
  lemma ClientPart(handlers: Handlers, u: Peer, a: Outcome, id: u16, es: seq<Event>)
    requires Waiting(u, id) && GoodAnswer(a) && es < EventsOf(ReplyWith(a, id))
    ensures var s := Run(PeerCallbacks(handlers), Session(u, Alive), es);
            && s.status == Alive && s.user.defined && s.user.out == u.out && s.user.currentId == id
            && s.user.incoming == u.incoming && s.user.bindings == u.bindings
            && exists c :: s.user.calls == u.calls + c && c < Calls(a)
  {
    hide Run, Encode, EventsOf, HeaderOf, LastError;
    var cb, m := PeerCallbacks(handlers), ReplyWith(a, id);
    var h, k := HeaderOf(m), |es| - 1;
    HeaderFields(m);
    PrefixOfEvents(m, es);
    RunNone(cb, Session(u, Alive));
    assert u.calls + [] == u.calls && [] < Calls(a);
    if es != [] {
      match a.error
      case None =>
        ClientObjects(handlers, u, h, m.objects, k);
        ArrivalsSize(m.objects, 0);
        ArrivalsSize(m.objects[..k], 0);
        assert Arrivals(m.objects[..k], 0) < Calls(a);
      case Some(text) =>
        ErrorReplyText(text, id);
        ErrorObjects(handlers, u, h, m.objects, k);
    }
  }

  /** A complete response: exactly its objects and then success, or exactly one error. */
  lemma ClientWhole(handlers: Handlers, u: Peer, a: Outcome, id: u16)
    requires Waiting(u, id) && GoodAnswer(a)
    ensures var s := Run(PeerCallbacks(handlers), Session(u, Alive), EventsOf(ReplyWith(a, id)));
            && s.status == Alive && s.user.defined && s.user.out == u.out && s.user.currentId == id
            && s.user.incoming == u.incoming && s.user.bindings == u.bindings
            && s.user.calls == u.calls + Calls(a)
  {
    hide Run, Encode, EventsOf, LastError;
    if a.error.Some? {
      ErrorReplyText(a.error.value, id);
    }
    ResponseWhole(handlers, u, ReplyWith(a, id));
  }
}
