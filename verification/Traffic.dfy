/** What is under way to an endpoint, message by message, and what it does as it arrives. */
module Traffic {
  import opened Bytes
  import opened Objects
  import opened Messages
  import opened Parser
  import opened Streams
  import opened Receiver
  import opened Requests
  import opened Endpoints
  import opened Network

  lemma ReceiveNothing(handlers: Handlers, ptr: nat, e: Endpoint)
    requires AtRest(e)
    ensures Receive(handlers, ptr, e, []) == e
  {
    NothingToParse(ptr, e.control);
    assert e.rest + [] == [];
    RunNone(PeerCallbacks(handlers), e.session);
  }

  lemma NonEmpty(m: Message)
    ensures 0 < |Encode(m)|
  {
  }

  lemma {:induction false} EncodeAllSnoc(ms: seq<Message>, m: Message)
    ensures EncodeAll(ms + [m]) == EncodeAll(ms) + Encode(m)
  {
    hide Encode;
    if ms == [] {
      assert [m][1..] == [] && [] + [m] == [m];
      assert EncodeAll([m]) == Encode(m) + EncodeAll([]);
    } else {
      EncodeAllSnoc(ms[1..], m);
      assert (ms + [m])[1..] == ms[1..] + [m];
      Assoc(Encode(ms[0]), EncodeAll(ms[1..]), Encode(m));
    }
  }

  /**
   * These messages are under way: `base` is the endpoint before the first of them, `n` bytes
   * of which, but not all, have arrived.
   */
  ghost predicate Flow(handlers: Handlers, ptr: nat, e: Endpoint, inbox: seq<byte>,
                       base: Endpoint, queue: seq<Message>, n: nat) {
    && AtRest(base)
    && (if queue == [] then n == 0 else n < |Encode(queue[0])|)
    && n <= |EncodeAll(queue)|
    && inbox == EncodeAll(queue)[n..]
    && e == Receive(handlers, ptr, base, EncodeAll(queue)[..n])
  }

  lemma FlowNone(handlers: Handlers, ptr: nat, e: Endpoint)
    requires AtRest(e)
    ensures Flow(handlers, ptr, e, [], e, [], 0)
  {
    ReceiveNothing(handlers, ptr, e);
  }

  /** The first message, and how much of it has arrived. */
  lemma FlowFirst(handlers: Handlers, ptr: nat, e: Endpoint, inbox: seq<byte>,
                  base: Endpoint, queue: seq<Message>, n: nat)
    requires Flow(handlers, ptr, e, inbox, base, queue, n)
    ensures queue == [] ==> e == base && inbox == []
    ensures queue != [] ==>
              && n < |Encode(queue[0])| && |inbox| >= |Encode(queue[0])| - n
              && e == Receive(handlers, ptr, base, Encode(queue[0])[..n])
  {
    hide Encode, Receive;
    if queue == [] {
      ReceiveNothing(handlers, ptr, base);
    } else {
      assert EncodeAll(queue)[..n] == Encode(queue[0])[..n];
    }
  }

  /** Another message gets under way. */
  lemma FlowAppend(handlers: Handlers, ptr: nat, e: Endpoint, inbox: seq<byte>,
                   base: Endpoint, queue: seq<Message>, n: nat, m: Message)
    requires Flow(handlers, ptr, e, inbox, base, queue, n)
    ensures Flow(handlers, ptr, e, inbox + Encode(m), base, queue + [m], n)
  {
    hide Encode, Receive, AtRest;
    EncodeAllSnoc(queue, m);
    NonEmpty(m);
    var all := EncodeAll(queue + [m]);
    assert all[..n] == EncodeAll(queue)[..n] && all[n..] == EncodeAll(queue)[n..] + Encode(m);
  }

  /** More of the first message arrives, but not the rest of it. */
  lemma FlowPart(handlers: Handlers, ptr: nat, e: Endpoint, inbox: seq<byte>,
                 base: Endpoint, queue: seq<Message>, n: nat, k: nat)
    requires Flow(handlers, ptr, e, inbox, base, queue, n)
    requires queue != [] && n + k < |Encode(queue[0])| && k <= |inbox|
    ensures Flow(handlers, ptr, Receive(handlers, ptr, e, inbox[..k]), inbox[k..], base, queue, n + k)
  {
    hide Encode, Receive, AtRest;
    var all := EncodeAll(queue);
    assert all[..n] + inbox[..k] == all[..n + k] && inbox[k..] == all[n + k..];
    ReceiveTwice(handlers, ptr, base, all[..n], inbox[..k]);
  }

  /** The rest of the first message arrives. */
  lemma FlowWhole(handlers: Handlers, ptr: nat, e: Endpoint, inbox: seq<byte>,
                  base: Endpoint, queue: seq<Message>, n: nat)
    requires Flow(handlers, ptr, e, inbox, base, queue, n) && queue != []
    requires AtRest(Receive(handlers, ptr, base, Encode(queue[0])))
    ensures var k := |Encode(queue[0])| - n; var base' := Receive(handlers, ptr, base, Encode(queue[0]));
            && k <= |inbox| && Receive(handlers, ptr, e, inbox[..k]) == base'
            && Flow(handlers, ptr, Drained(base'), inbox[k..], Drained(base'), queue[1..], 0)
  {
    hide Encode, Receive;
    var all, k := EncodeAll(queue), |Encode(queue[0])| - n;
    assert all == Encode(queue[0]) + EncodeAll(queue[1..]);
    assert all[..n] + inbox[..k] == Encode(queue[0]) && inbox[k..] == EncodeAll(queue[1..]);
    ReceiveTwice(handlers, ptr, base, all[..n], inbox[..k]);
    var base' := Drained(Receive(handlers, ptr, base, Encode(queue[0])));
    ReceiveNothing(handlers, ptr, base');
    assert EncodeAll(queue[1..])[..0] == [] && EncodeAll(queue[1..])[0..] == EncodeAll(queue[1..]);
    if queue[1..] != [] {
      NonEmpty(queue[1]);
    }
  }

  // ---------------------------------------------------------------- requests

  /** While a request arrives, nothing but the objects received changes. */
  lemma RequestArriving(handlers: Handlers, ptr: nat, base: Endpoint, m: Message, n: nat)
    requires AtRest(base) && base.session.user.incoming.Some?
    requires !IsResponse(m.flags) && Deliverable(ptr, m) && n < |Encode(m)|
    ensures var s, u := Receive(handlers, ptr, base, Encode(m)[..n]).session, base.session.user;
            && s.status == Alive && s.user.incoming.Some? && s.user.incoming.value.served == u.incoming.value.served
            && s.user == u.(incoming := s.user.incoming)
  {
    hide Encode, Receive, Run, EventsOf, PeerCallbacks, Deliverable;
    var es := ReceivePart(handlers, ptr, base, m, n);
    ServerPart(handlers, base.session.user, m, es);
  }

  /** A request that has arrived is answered. */
  lemma RequestArrived(handlers: Handlers, ptr: nat, base: Endpoint, m: Message)
    requires AtRest(base) && base.session.user.incoming.Some?
    requires !IsResponse(m.flags) && Deliverable(ptr, m)
    requires GoodAnswer(Answer(handlers, Server(Considered(m.objects), base.session.user.incoming.value.served)))
    ensures var e, u := Receive(handlers, ptr, base, Encode(m)), base.session.user;
            var server := Server(Considered(m.objects), u.incoming.value.served);
            && AtRest(e)
            && e.session.user == u.(incoming := Some(Served(handlers, server)),
                                    out := u.out + Encode(Reply(handlers, server, m.id)))
  {
    hide Encode, Run, EventsOf, PeerCallbacks, Deliverable, Parse, Answer, Served, Reply;
    ReceiveMessage(handlers, ptr, base, m);
    ServerWhole(handlers, base.session.user, m);
  }

  /** Sends a request, as far as the fields of the peer go. */
  function Asks(u: Peer, o: Object): Peer {
    SendRequest(u, o, Bindings(true, true, true)).(out := u.out)
  }

  function EndAsks(e: Endpoint, o: Object): Endpoint {
    e.(session := e.session.(user := Asks(e.session.user, o)))
  }

  /** Sending a request in the middle of receiving one is like sending it before. */
  lemma AskWhileArriving(handlers: Handlers, ptr: nat, base: Endpoint, m: Message, n: nat, o: Object)
    requires AtRest(base) && base.session.user.incoming.Some?
    requires !IsResponse(m.flags) && Deliverable(ptr, m) && n < |Encode(m)|
    ensures Receive(handlers, ptr, EndAsks(base, o), Encode(m)[..n]) ==
            EndAsks(Receive(handlers, ptr, base, Encode(m)[..n]), o)
  {
    hide Encode, Run, EventsOf, PeerCallbacks, Deliverable, Parse, HeaderOf;
    var u := base.session.user;
    HeaderFields(m);
    NeverEarly(ptr, base.control, m, n);
    assert base.rest + Encode(m)[..n] == Encode(m)[..n];
    var events := Parse(ptr, base.control, Encode(m)[..n]).events;
    PrefixOfEvents(m, events);
    RunNone(PeerCallbacks(handlers), Session(u, Alive));
    RunNone(PeerCallbacks(handlers), Session(Asks(u, o), Alive));
    if events != [] {
      ServerObjects(handlers, u, HeaderOf(m), m.objects, |events| - 1);
      ServerObjects(handlers, Asks(u, o), HeaderOf(m), m.objects, |events| - 1);
    }
  }

  // ---------------------------------------------------------------- replies

  /** While the reply to the current request arrives, the user sees a part of it. */
  lemma ReplyArriving(handlers: Handlers, ptr: nat, base: Endpoint, a: Outcome, id: u16, n: nat)
    requires AtRest(base) && Waiting(base.session.user, id) && GoodAnswer(a)
    requires Deliverable(ptr, ReplyWith(a, id)) && n < |Encode(ReplyWith(a, id))|
    ensures var s, u := Receive(handlers, ptr, base, Encode(ReplyWith(a, id))[..n]).session, base.session.user;
            && s.status == Alive && s.user.defined && s.user.out == u.out
            && exists c :: s.user.calls == u.calls + c && c < Calls(a)
  {
    hide Encode, Receive, Run, EventsOf, PeerCallbacks, Deliverable, ReplyWith;
    var es := ReceivePart(handlers, ptr, base, ReplyWith(a, id), n);
    ClientPart(handlers, base.session.user, a, id, es);
  }

  /** Once the reply has arrived, the user has seen all of it, and nothing else has changed. */
  lemma ReplyArrived(handlers: Handlers, ptr: nat, base: Endpoint, a: Outcome, id: u16)
    requires AtRest(base) && Waiting(base.session.user, id) && GoodAnswer(a)
    requires Deliverable(ptr, ReplyWith(a, id))
    ensures var e, u := Receive(handlers, ptr, base, Encode(ReplyWith(a, id))), base.session.user;
            && AtRest(e) && e.session.user.out == u.out && e.session.user.currentId == id
            && e.session.user.incoming == u.incoming && e.session.user.bindings == u.bindings
            && e.session.user.calls == u.calls + Calls(a)
  {
    hide Encode, Run, EventsOf, PeerCallbacks, Deliverable, Parse, ReplyWith;
    ReceiveMessage(handlers, ptr, base, ReplyWith(a, id));
    ClientWhole(handlers, base.session.user, a, id);
  }
}
