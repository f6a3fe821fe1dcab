/** Where the code does not do what one would expect, and exactly when. */
module Limits {
  import opened Bytes
  import opened Objects
  import opened Messages
  import opened Parser
  import opened Streams
  import opened Receiver
  import opened Requests
  import opened Endpoints
  import Lookup

  // ---------------------------------------------------------------- messages without objects

  /** A message without objects is not completed: the receiver waits for an object. */
  lemma EmptyMessage(ptr: nat, c: Control, flags: byte, id: u16)
    requires c.phase == RecvHeader
    ensures var h := Header(flags, 0, id);
            Parse(ptr, c, Encode(Message(flags, id, []))) ==
            Parsed([Started(h)], c.(phase := RecvObjectSize, header := h, consumed := 0, objectsNum := 0), [])
  {
    hide ReadObject;
    var h := Header(flags, 0, id);
    var s := Encode(Message(flags, id, []));
    HeaderParses(h, []);
    assert s == HeaderBytes(h) + [];
    var c1 := c.(phase := RecvObjectSize, header := h, consumed := 0, objectsNum := 0);
    assert Step(ptr, c, s) == Took(5, [Started(h)], c1);
    assert Parse(ptr, c1, []) == Parsed([], c1, []);
  }

  /** A message whose objects are readable is reported as such if and only if it has objects. */
  lemma MessageNeedsObject(ptr: nat, c: Control, m: Message)
    requires c.phase == RecvHeader && Sendable(m.objects)
    requires forall o :: o in m.objects ==> TableSize(|o|, ptr) <= OBJECT_BUFFER
    ensures Parse(ptr, c, Encode(m)).events == EventsOf(m) <==> m.objects != []
  {
    hide Parse, Encode, TableSize, Wire;
    if m.objects == [] {
      EmptyMessage(ptr, c, m.flags, m.id);
      NoObjectEvents(m);
      assert m == Message(m.flags, m.id, []);
    } else {
      MessageRoundTrip(ptr, c, m, []);
      assert Encode(m) + [] == Encode(m);
      NothingToParse(ptr, Idle(m));
      assert EventsOf(m) + [] == EventsOf(m);
    }
  }

  lemma NoObjectEvents(m: Message)
    requires m.objects == []
    ensures |EventsOf(m)| == 2
  {
  }

  // ---------------------------------------------------------------- error texts

  /** An error text reaches the user of the other side as one if and only if it is not empty. */
  lemma ErrorIsReported(handlers: Handlers, u: Peer, text: Text, id: u16)
    requires Waiting(u, id) && |text| <= ERROR_STR
    ensures var s := Run(PeerCallbacks(handlers), Session(u, Alive), EventsOf(ErrorReply(text, id)));
            s.user.calls == u.calls + [if text == [] then Succeeded else Failed(text)]
  {
    hide Run, EventsOf, Outcomes;
    ErrorReplyText(text, id);
    ResponseWhole(handlers, u, ErrorReply(text, id));
  }

  ghost predicate HasError(o: Object) {
    exists p :: p in o && p.key == KEY_ERROR
  }

  lemma {:induction false} LastErrorExactly(objects: seq<Object>)
    ensures LastError(objects).Some? <==> exists o :: o in objects && HasError(o)
    decreases |objects|
  {
    if objects != [] {
      var k := |objects| - 1;
      LastErrorExactly(objects[..k]);
      assert forall o :: o in objects <==> o in objects[..k] || o == objects[k] by {
        assert objects == objects[..k] + [objects[k]];
      }
      assert HasError(objects[k]) ==> objects[k] in objects;
    }
  }

  /**
   * A response is reported as a failure if and only if it has the error flag and some object,
   * the first or another, has an error property.
   */
  lemma FailureExactly(handlers: Handlers, u: Peer, m: Message)
    requires Waiting(u, m.id) && IsResponse(m.flags) && (IsError(m.flags) ==> TextsFit(m.objects))
    ensures var s := Run(PeerCallbacks(handlers), Session(u, Alive), EventsOf(m));
            && u.calls < s.user.calls
            && (s.user.calls[|s.user.calls| - 1].Failed? <==>
                IsError(m.flags) && exists o :: o in m.objects && HasError(o))
  {
    hide Run, EventsOf, LastError, HasError, Waiting;
    ResponseWhole(handlers, u, m);
    LastErrorExactly(m.objects);
  }

  /** An error property in the first object alone: without the flag, the response succeeds. */
  lemma UnflaggedError(handlers: Handlers, u: Peer, text: Text, id: u16)
    requires Waiting(u, id) && text != []
    ensures HasError(ErrorObject(text))
    ensures var m := Message(FLAG_RESPONSE, id, [ErrorObject(text)]);
            Run(PeerCallbacks(handlers), Session(u, Alive), EventsOf(m)).user.calls ==
            u.calls + [ObjectArrived(0, ErrorObject(text)), Succeeded]
  {
    hide Run, EventsOf;
    var o := ErrorObject(text);
    var m := Message(FLAG_RESPONSE, id, [o]);
    Lookup.FirstIs(o, KEY_ERROR);
    ResponseWhole(handlers, u, m);
    assert m.objects[1..] == [] && Arrivals(m.objects[1..], 1) == [];
    assert Outcomes(m) == [ObjectArrived(0, o), Succeeded];
  }

  /** With the flag, a later object decides, whatever the first one says. */
  lemma LaterErrorWins(handlers: Handlers, u: Peer, first: Object, text: Text, id: u16)
    requires Waiting(u, id) && 0 < |text| <= ERROR_STR && TextsFit([first])
    ensures var m := Message(3, id, [first, ErrorObject(text)]);
            Run(PeerCallbacks(handlers), Session(u, Alive), EventsOf(m)).user.calls == u.calls + [Failed(text)]
  {
    hide Run, EventsOf;
    var o := ErrorObject(text);
    var m := Message(3, id, [first, o]);
    Lookup.FirstIs(o, KEY_ERROR);
    assert first in [first] && CString(text) == text;
    ResponseWhole(handlers, u, m);
  }

  // ---------------------------------------------------------------- numbers of responses

  /** All responses of a handler are sent if and only if there are fewer than 256. */
  lemma ResponsesAreSent(a: Outcome, id: u16)
    requires a.error == None && a.responses != []
    ensures ResponseBytes(a, id) == Encode(Message(FLAG_RESPONSE, id, a.responses[..|a.responses| % 256]))
    ensures ResponseBytes(a, id) == Encode(Message(FLAG_RESPONSE, id, a.responses)) <==> |a.responses| < 256
  {
    hide Framed, HeaderBytes;
    var n := |a.responses| % 0x100;
    var sent, lost := a.responses[..n], a.responses[n..];
    assert a.responses == sent + lost;
    BodyAppend(sent, lost);
    BodySize(lost);
  }

  // ---------------------------------------------------------------- answers to stale responses

  /** A whole response to another request is answered with one error response, whatever is in it. */
  lemma AnsweredExactly(handlers: Handlers, ptr: nat, e: Endpoint, m: Message)
    requires AtRest(e) && Deliverable(ptr, m) && IsResponse(m.flags)
    requires m.id != e.session.user.currentId
    ensures var e' := Receive(handlers, ptr, e, Encode(m));
            && AtRest(e')
            && e'.session.user ==
               e.session.user.(out := e.session.user.out + Encode(ErrorReply(UnknownRequestId(), m.id)))
  {
    hide Parse, Run, PeerCallbacks, Encode, EventsOf, Deliverable, HeaderOf;
    var u := e.session.user;
    ReceiveMessage(handlers, ptr, e, m);
    StaleEvents(u, m);
    StaleIsolation(handlers, u, EventsOf(m));
    OneStaleReply(m);
  }

  /** A whole response is answered if and only if its id is not the one the peer waits for. */
  lemma AnsweredIff(handlers: Handlers, ptr: nat, e: Endpoint, m: Message)
    requires AtRest(e) && Deliverable(ptr, m) && IsResponse(m.flags)
    ensures Receive(handlers, ptr, e, Encode(m)).session.user.out != e.session.user.out <==>
            m.id != e.session.user.currentId
  {
    hide Parse, Run, PeerCallbacks, EventsOf, Deliverable, HeaderOf;
    if m.id == e.session.user.currentId {
      ReceiveMessage(handlers, ptr, e, m);
      ResponseEvents(m);
      MatchedUnanswered(handlers, e.session, EventsOf(m));
    } else {
      AnsweredExactly(handlers, ptr, e, m);
    }
  }

  lemma ResponseEvents(m: Message)
    ensures forall e :: e in EventsOf(m) ==> e.header == HeaderOf(m)
    ensures HeaderOf(m).flags == m.flags && HeaderOf(m).id == m.id
  {
    NoCompletedDelivery(HeaderOf(m), m.objects);
  }

  lemma StaleEvents(u: Peer, m: Message)
    requires IsResponse(m.flags) && m.id != u.currentId
    ensures forall e :: e in EventsOf(m) ==> Stale(u, e)
  {
    hide HeaderOf;
    var h := HeaderOf(m);
    HeaderFields(m);
    NoCompletedDelivery(h, m.objects);
  }

  lemma OneStaleReply(m: Message)
    ensures StaleReplies(EventsOf(m)) == Encode(ErrorReply(UnknownRequestId(), m.id))
  {
    hide HeaderOf, Encode;
    var h := HeaderOf(m);
    HeaderFields(m);
    var es := Deliveries(h, m.objects) + [Completed(h)];
    assert EventsOf(m) == [Started(h)] + es;
    assert EventsOf(m)[1..] == es;
    DeliveriesThenOne(h, m.objects);
    assert [] + StaleReplies(es) == StaleReplies(es);
  }

  lemma {:induction false} DeliveriesThenOne(h: Header, objects: seq<Object>)
    ensures StaleReplies(Deliveries(h, objects) + [Completed(h)]) == Encode(ErrorReply(UnknownRequestId(), h.id))
  {
    hide Encode;
    var es := Deliveries(h, objects) + [Completed(h)];
    if objects == [] {
      assert es == [Completed(h)] && es[1..] == [];
      var r := Encode(ErrorReply(UnknownRequestId(), h.id));
      assert r + StaleReplies([]) == r;
    } else {
      DeliveriesThenOne(h, objects[1..]);
      var rest := Deliveries(h, objects[1..]) + [Completed(h)];
      assert es[1..] == rest;
      assert [] + StaleReplies(rest) == StaleReplies(rest);
    }
  }

  // ---------------------------------------------------------------- numbers of properties

  /** How many properties an object may have to be readable where it is received. */
  lemma ReadableProperties(o: Object)
    requires |Wire(o)| < 0x1_0000
    ensures ReadObject(Wire(o), OBJECT_BUFFER, 8) == Readable(o) <==> |o| <= 14
    ensures ReadObject(Wire(o), OBJECT_BUFFER, 4) == Readable(o) <==> |o| <= 30
    ensures ReadObject(Wire(o), OBJECT_BUFFER, 2) == Readable(o) <==> |o| <= 62
  {
    hide Wire, ReadObject, PointerBytes;
    forall ptr | ptr in {2, 4, 8}
      ensures ReadObject(Wire(o), OBJECT_BUFFER, ptr) == Readable(o) <==> 2 + (|o| + 1) * ptr <= OBJECT_BUFFER
    {
      ExactAcceptance(Wire(o), OBJECT_BUFFER, ptr, o);
      PointerBytesProduct(|o| + 1, ptr);
    }
  }
}
