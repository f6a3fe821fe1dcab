/**
 * What happens when a request is sent while another is outstanding: the reply to the first is
 * stale when it arrives, is answered, and the answer is answered, for ever.
 */
module Echo {
  import opened Bytes
  import opened Objects
  import opened Messages
  import opened Parser
  import opened Streams
  import opened Receiver
  import opened Requests
  import opened Endpoints
  import opened Network
  import opened Traffic
  import opened EndToEnd
  import opened Limits
  import Lookup

  /** The error response that both sides send for stale responses. */
  function EchoOf(id: u16): Message {
    ErrorReply(UnknownRequestId(), id)
  }

  /** The size of the object in it. */
  const ECHO_OBJECT: nat := 21

  lemma EchoFits(ptr: nat, id: u16)
    requires ptr <= 8
    ensures var m := EchoOf(id);
      && Deliverable(ptr, m) && IsResponse(m.flags) && TextsFit(m.objects) && m.id == id
      && forall o :: o in m.objects ==> |Wire(o)| == ECHO_OBJECT
  {
    hide Wire, TableSize;
    var o := ErrorObject(UnknownRequestId());
    ErrorObjectSize(UnknownRequestId());
    ErrorReplyText(UnknownRequestId(), id);
    BodyOfOne(o);
    SmallTable(|o|, ptr);
  }

  // ---------------------------------------------------------------- one message

  /** Until a message is complete, a peer writes nothing. */
  lemma {:induction false} RunSilent(handlers: Handlers, s: Session<Peer>, events: seq<Event>)
    requires s.status == Alive
    requires forall e :: e in events ==> !e.Completed? && (e.Delivered? ==> e.received != Overrun)
    ensures var s' := Run(PeerCallbacks(handlers), s, events); s'.status == Alive && s'.user.out == s.user.out
    decreases |events|
  {
    hide Lookup.FirstMatch;
    if events != [] {
      var e, rest := events[0], events[1..];
      assert e in events;
      assert forall x :: x in rest ==> x in events;
      RunSilent(handlers, Apply(PeerCallbacks(handlers), s, e), rest);
    }
  }

  /** While a message arrives, nothing is written. */
  lemma ArrivingSilent(handlers: Handlers, ptr: nat, base: Endpoint, m: Message, n: nat)
    requires AtRest(base) && Deliverable(ptr, m) && n < |Encode(m)|
    ensures var s := Receive(handlers, ptr, base, Encode(m)[..n]).session;
            s.status == Alive && s.user.out == base.session.user.out
  {
    hide Encode, Receive, Run, EventsOf, PeerCallbacks, Deliverable;
    var es := ReceivePart(handlers, ptr, base, m, n);
    PrefixOfEvents(m, es);
    NoCompletedDelivery(HeaderOf(m), m.objects);
    RunSilent(handlers, base.session, es);
  }

  /** A response to the current request, expected or not, leaves a peer in defined territory. */
  lemma {:induction false} MatchedDefined(handlers: Handlers, s: Session<Peer>, events: seq<Event>)
    requires s.status == Alive && s.user.defined && s.user.bindings == Bindings(true, true, true)
    requires forall e :: e in events ==>
      && IsResponse(e.header.flags) && e.header.id == s.user.currentId
      && (e.Delivered? ==> e.received.Readable? && (IsError(e.header.flags) ==> TextsFit([e.received.properties])))
    ensures var s' := Run(PeerCallbacks(handlers), s, events);
      && s'.status == Alive && s'.user.defined && s'.user.bindings == s.user.bindings
      && s'.user.out == s.user.out && s'.user.currentId == s.user.currentId && s'.user.incoming == s.user.incoming
    decreases |events|
  {
    hide Encode, Answer, Lookup.FirstMatch, CString;
    if events != [] {
      var e, rest := events[0], events[1..];
      assert e in events;
      if e.Delivered? {
        assert e.received.properties in [e.received.properties];
      }
      var s' := Apply(PeerCallbacks(handlers), s, e);
      assert forall x :: x in rest ==> x in events;
      MatchedDefined(handlers, s', rest);
    }
  }

  /** A side in an exchange of echoes with this id: the one that asked, or the other. */
  ghost predicate Ready(asker: bool, e: Endpoint, id: u16, current: u16) {
    var u := e.session.user;
    && AtRest(e) && u.out == [] && u.currentId != id
    && if asker then u.currentId == current && u.bindings == Bindings(true, true, true) else u.incoming.Some?
  }

  /** A message that may be under way to such a side. */
  ghost predicate Expected(asker: bool, p: Party, m: Message, id: u16, current: u16) {
    || m == EchoOf(id)
    || (asker && (m.id == id || m.id == current) && IsResponse(m.flags) && (IsError(m.flags) ==> TextsFit(m.objects))
        && Deliverable(p.ptr, m) && forall o :: o in m.objects ==> |Wire(o)| <= p.buffer)
    || (!asker && (m.id == id || m.id == current) && p.handlers.Some?
        && exists o :: Requestable(p, o) && m == RequestMessage(o, m.id))
  }

  lemma ExpectedFits(asker: bool, p: Party, m: Message, id: u16, current: u16)
    requires Expected(asker, p, m, id, current) && p.ptr <= 8
    ensures Deliverable(p.ptr, m)
    ensures ECHO_OBJECT <= p.buffer ==> forall o :: o in m.objects ==> |Wire(o)| <= p.buffer
  {
    hide Deliverable, Wire, EchoOf, Requestable;
    EchoFits(p.ptr, id);
    if m != EchoOf(id) && !asker {
      var o :| Requestable(p, o) && m == RequestMessage(o, m.id);
      RequestDeliverable(p, o, m.id);
      RequestFits(p, o);
    }
  }

  /** A whole message arrives: what is written is expected, and nothing less if it has this id. */
  lemma Answers(asker: bool, me: Party, other: Party, base: Endpoint, m: Message, id: u16, current: u16)
    returns (rs: seq<Message>)
    requires Ready(asker, base, id, current) && Expected(asker, me, m, id, current)
    requires me.ptr <= 8 && other.ptr <= 8 && Serves(me, other)
    ensures var e := Receive(HandlersOf(me), me.ptr, base, Encode(m));
      && AtRest(e) && Ready(asker, Drained(e), id, current) && e.session.user.out == EncodeAll(rs)
    ensures |rs| <= 1 && (forall r :: r in rs ==> Expected(!asker, other, r, id, current))
    ensures m.id == id ==> |rs| == 1 && rs[0].id == id
  {
    hide Encode, Deliverable, Requestable, EchoOf, Receive, Wire;
    ExpectedFits(asker, me, m, id, current);
    EchoFits(me.ptr, id);
    EchoId(id);
    if m.id == id && IsResponse(m.flags) {
      AnsweredExactly(HandlersOf(me), me.ptr, base, m);
      rs := [EchoOf(id)];
      OneEncodedMessage(EchoOf(id));
      assert [] + Encode(EchoOf(id)) == Encode(EchoOf(id));
    } else if asker {
      Matched(HandlersOf(me), me.ptr, base, m);
      rs := [];
    } else {
      rs := RequestAnswer(me, other, base, m, id, current);
    }
  }

  lemma EchoId(id: u16)
    ensures EchoOf(id).id == id && EchoOf(id) == ErrorReply(UnknownRequestId(), id)
  {
  }

  lemma OneEncodedMessage(m: Message)
    ensures EncodeAll([m]) == Encode(m)
  {
    hide Encode;
    assert [m][1..] == [] && EncodeAll([m]) == Encode(m) + EncodeAll([]);
  }

  /** The case of the current request: nothing is written. */
  lemma Matched(handlers: Handlers, ptr: nat, base: Endpoint, m: Message)
    requires AtRest(base) && base.session.user.bindings == Bindings(true, true, true) && Deliverable(ptr, m)
    requires IsResponse(m.flags) && m.id == base.session.user.currentId && (IsError(m.flags) ==> TextsFit(m.objects))
    ensures var e, u := Receive(handlers, ptr, base, Encode(m)), base.session.user;
      && AtRest(e) && e.session.user.out == u.out && e.session.user.currentId == u.currentId
      && e.session.user.bindings == u.bindings
  {
    hide Encode, Run, PeerCallbacks, Deliverable, Parse, HeaderOf;
    ReceiveMessage(handlers, ptr, base, m);
    HeaderFields(m);
    NoCompletedDelivery(HeaderOf(m), m.objects);
    forall e | e in EventsOf(m)
      ensures e.header == HeaderOf(m) && (e.Delivered? ==> e.received.Readable? && e.received.properties in m.objects)
    {
    }
    MatchedDefined(handlers, base.session, EventsOf(m));
  }

  /** The case of a request: its reply is written. */
  lemma RequestAnswer(me: Party, other: Party, base: Endpoint, m: Message, id: u16, current: u16)
    returns (rs: seq<Message>)
    requires Ready(false, base, id, current) && Expected(false, me, m, id, current) && m != EchoOf(id)
    requires me.ptr <= 8 && other.ptr <= 8 && Serves(me, other)
    ensures var e := Receive(HandlersOf(me), me.ptr, base, Encode(m));
      && AtRest(e) && Ready(false, Drained(e), id, current) && e.session.user.out == EncodeAll(rs)
    ensures |rs| == 1 && Expected(true, other, rs[0], id, current) && rs[0].id == m.id
  {
    hide Encode, Deliverable, Requestable, EchoOf, Receive, Wire, Answer, Served, TextsFit, Receivable;
    var o :| Requestable(me, o) && m == RequestMessage(o, m.id);
    var server := Server(Considered(m.objects), base.session.user.incoming.value.served);
    var a := Answer(HandlersOf(me), server);
    RequestDeliverable(me, o, m.id);
    assert Receivable(other, a);
    ReceivableIsGood(other, a);
    RequestArrived(HandlersOf(me), me.ptr, base, m);
    ReplyDeliverable(other, a, m.id);
    ReplyTexts(a, m.id);
    rs := [ReplyWith(a, m.id)];
    OneEncodedMessage(rs[0]);
    assert [] + Encode(rs[0]) == Encode(rs[0]);
  }

  lemma ReceivableIsGood(p: Party, a: Outcome)
    requires Receivable(p, a)
    ensures GoodAnswer(a)
  {
  }

  lemma ReplyTexts(a: Outcome, id: u16)
    requires GoodAnswer(a)
    ensures var m := ReplyWith(a, id); m.id == id && IsResponse(m.flags) && (IsError(m.flags) ==> TextsFit(m.objects))
  {
    hide TextsFit;
    if a.error.Some? {
      ErrorReplyText(a.error.value, id);
    }
  }

  // ---------------------------------------------------------------- an exchange

  /** What is under way to a side, and the endpoint before the first message of it. */
  datatype Tour = Tour(base: Endpoint, queue: seq<Message>, n: nat)

  ghost predicate OnTour(asker: bool, p: Party, side: Side, t: Tour, id: u16, current: u16) {
    && Flow(HandlersOf(p), p.ptr, side.end, side.inbox, t.base, t.queue, t.n)
    && Ready(asker, t.base, id, current)
    && forall m :: m in t.queue ==> Expected(asker, p, m, id, current)
  }

  ghost predicate Carries(queue: seq<Message>, id: u16) {
    exists m :: m in queue && m.id == id
  }

  /** A message with this id is under way, in one direction or the other. */
  ghost predicate Circulates(cfg: Config, net: Net, asker: bool, t: Tour, r: Tour, id: u16, current: u16) {
    && OnTour(asker, cfg.here, net.here, t, id, current)
    && OnTour(!asker, cfg.there, net.there, r, id, current)
    && (Carries(t.queue, id) || Carries(r.queue, id))
  }

  lemma MirroredTour(cfg: Config, net: Net, asker: bool, t: Tour, r: Tour, id: u16, current: u16)
    requires Circulates(cfg, net, asker, t, r, id, current)
    ensures Circulates(Across(cfg), Mirror(net), !asker, r, t, id, current)
    ensures WellBehaved(cfg) ==> WellBehaved(Across(cfg))
  {
    hide OnTour, Carries, Serves;
  }

  /** A part of the first message arrives. */
  lemma PartCirculates(cfg: Config, net: Net, asker: bool, t: Tour, r: Tour, id: u16, current: u16, k: nat)
    requires WellBehaved(cfg) && Circulates(cfg, net, asker, t, r, id, current)
    requires t.queue != [] && k <= |net.here.inbox| && t.n + k < |Encode(t.queue[0])|
    ensures Circulates(cfg, DeliverHere(cfg, net, k), asker, t.(n := t.n + k), r, id, current)
  {
    hide Encode, EncodeAll, Flow, Ready, Expected, Receive, Deliverable, Serves;
    var h, ptr, m := HandlersOf(cfg.here), cfg.here.ptr, t.queue[0];
    ExpectedFits(asker, cfg.here, m, id, current);
    ReadyRests(asker, t.base, id, current);
    FlowPart(h, ptr, net.here.end, net.here.inbox, t.base, t.queue, t.n, k);
    var e := Receive(h, ptr, net.here.end, net.here.inbox[..k]);
    FlowFirst(h, ptr, e, net.here.inbox[k..], t.base, t.queue, t.n + k);
    ArrivingSilent(h, ptr, t.base, m, t.n + k);
    assert Drained(e) == e && net.there.inbox + [] == net.there.inbox;
  }

  lemma ReadyRests(asker: bool, e: Endpoint, id: u16, current: u16)
    requires Ready(asker, e, id, current)
    ensures AtRest(e) && e.session.user.out == []
  {
  }

  /** The rest of the first message arrives; if it has this id, so has what is written. */
  lemma WholeCirculates(cfg: Config, net: Net, asker: bool, t: Tour, r: Tour, id: u16, current: u16)
    returns (t': Tour, r': Tour)
    requires WellBehaved(cfg) && Circulates(cfg, net, asker, t, r, id, current) && t.queue != []
    ensures var k := |Encode(t.queue[0])| - t.n;
      && 0 < k <= |net.here.inbox|
      && DeliverHere(cfg, net, k).here.inbox == net.here.inbox[k..]
      && Circulates(cfg, DeliverHere(cfg, net, k), asker, t', r', id, current)
  {
    hide Encode, EncodeAll, Flow, Ready, Expected, Receive, Deliverable;
    var h, ptr, m := HandlersOf(cfg.here), cfg.here.ptr, t.queue[0];
    var rs := Answers(asker, cfg.here, cfg.there, t.base, m, id, current);
    FlowFirst(h, ptr, net.here.end, net.here.inbox, t.base, t.queue, t.n);
    FlowWhole(h, ptr, net.here.end, net.here.inbox, t.base, t.queue, t.n);
    t' := Tour(Drained(Receive(h, ptr, t.base, Encode(m))), t.queue[1..], 0);
    r' := r.(queue := r.queue + rs);
    assert forall x :: x in t'.queue ==> x in t.queue;
    if Carries(t.queue, id) {
      CarriesRest(t.queue, id);
    }
    if rs == [] {
      NoMessages();
      assert r.queue + rs == r.queue && net.there.inbox + [] == net.there.inbox;
    } else {
      assert rs == [rs[0]];
      OneEncodedMessage(rs[0]);
      FlowAppend(HandlersOf(cfg.there), cfg.there.ptr, net.there.end, net.there.inbox, r.base, r.queue, r.n, rs[0]);
      CarriesSnoc(r.queue, rs[0], id);
    }
  }

  lemma NoMessages()
    ensures EncodeAll([]) == []
  {
  }

  lemma CarriesRest(queue: seq<Message>, id: u16)
    requires queue != [] && Carries(queue, id)
    ensures queue[0].id == id || Carries(queue[1..], id)
  {
    var m :| m in queue && m.id == id;
    assert m == queue[0] || m in queue[1..];
  }

  lemma CarriesSnoc(queue: seq<Message>, m: Message, id: u16)
    ensures Carries(queue + [m], id) <==> Carries(queue, id) || m.id == id
  {
    assert m in queue + [m];
    assert forall x :: x in queue + [m] <==> x in queue || x == m;
  }

  /** Any number of bytes arrive. */
  lemma {:induction false} DeliveryCirculates(cfg: Config, net: Net, asker: bool, t: Tour, r: Tour,
                                              id: u16, current: u16, k: nat) returns (t': Tour, r': Tour)
    requires WellBehaved(cfg) && Circulates(cfg, net, asker, t, r, id, current) && k <= |net.here.inbox|
    ensures 0 < k ==> Circulates(cfg, DeliverHere(cfg, net, k), asker, t', r', id, current)
    decreases k
  {
    hide Encode, Circulates, WellBehaved, DeliverHere;
    if k == 0 {
      return t, r;
    }
    TourFirst(cfg, net, asker, t, r, id, current);
    if t.n + k < |Encode(t.queue[0])| {
      PartCirculates(cfg, net, asker, t, r, id, current, k);
      return t.(n := t.n + k), r;
    }
    var first := |Encode(t.queue[0])| - t.n;
    t', r' := WholeCirculates(cfg, net, asker, t, r, id, current);
    DeliverTwice(cfg, net, first, k - first);
    if first < k {
      t', r' := DeliveryCirculates(cfg, DeliverHere(cfg, net, first), asker, t', r', id, current, k - first);
    }
  }

  lemma TourFirst(cfg: Config, net: Net, asker: bool, t: Tour, r: Tour, id: u16, current: u16)
    requires Circulates(cfg, net, asker, t, r, id, current)
    ensures |net.here.inbox| > 0 <==> t.queue != []
    ensures t.queue != [] ==> t.n < |Encode(t.queue[0])| && |net.here.inbox| >= |Encode(t.queue[0])| - t.n
  {
    hide Encode, Flow, Ready, Expected;
    FlowFirst(HandlersOf(cfg.here), cfg.here.ptr, net.here.end, net.here.inbox, t.base, t.queue, t.n);
  }

  /** Deliveries, on either side, one after the other. */
  lemma {:induction false} DeliveriesCirculate(cfg: Config, net: Net, t: Tour, r: Tour, id: u16, current: u16,
                                               more: seq<Action>) returns (t': Tour, r': Tour)
    requires WellBehaved(cfg) && Circulates(cfg, net, true, t, r, id, current)
    requires Possible(cfg, net, more) && OnlyDeliveries(more)
    ensures Circulates(cfg, Steps(cfg, net, more), true, t', r', id, current)
    decreases |more|
  {
    hide WellBehaved, Circulates, DeliverHere;
    if more == [] {
      return t, r;
    }
    var k := |more| - 1;
    t', r' := DeliveriesCirculate(cfg, net, t, r, id, current, more[..k]);
    var before, a := Steps(cfg, net, more[..k]), more[k];
    if a.here {
      t', r' := DeliveryCirculates(cfg, before, true, t', r', id, current, a.n);
    } else {
      MirroredTour(cfg, before, true, t', r', id, current);
      r', t' := DeliveryCirculates(Across(cfg), Mirror(before), false, r', t', id, current, a.n);
      MirroredTour(Across(cfg), DeliverHere(Across(cfg), Mirror(before), a.n), false, r', t', id, current);
    }
  }

  // ---------------------------------------------------------------- how it begins, and that it goes on

  /** Two requests from here, the second one while the first is outstanding. */
  function Overlap(net: Net, o1: Object, o2: Object): Net {
    IssueHere(IssueHere(net, o1), o2)
  }

  /** The second request is one too many. */
  lemma OneTooMany(cfg: Config, net: Net, v: View, w: View, o1: Object, o2: Object)
    requires WellBehaved(cfg) && Good(cfg, net, v, w) && !Outstanding(net.here)
    requires cfg.there.handlers.Some? && Requestable(cfg.there, o1)
    ensures !Enabled(cfg, IssueHere(net, o1), Issue(true, o2))
  {
    hide Half, WellBehaved, IssueHere, Outstanding, Requestable;
    IssueKeeps(cfg, net, v, w, o1);
    var r := RequestMessage(o1, RequestId(net.here.requests + [o1]));
    OutstandingExactly(cfg, IssueHere(net, o1),
                       v.(base := EndAsks(v.base, o1), stage := Asked, written := v.written + [r]),
                       w.(queue := w.queue + [r]));
  }

  /** Nothing outstanding and so nothing under way, on either side. */
  lemma AllQuiet(cfg: Config, net: Net, v: View, w: View)
    requires WellBehaved(cfg) && Good(cfg, net, v, w) && !Outstanding(net.here) && !Outstanding(net.there)
    ensures net.here.end == v.base && net.there.end == w.base && net.here.inbox == [] && net.there.inbox == []
    ensures AtRest(v.base) && AtRest(w.base)
    ensures v.base.session.user.out == [] && w.base.session.user.out == []
    ensures v.base.session.user.currentId == RequestId(net.here.requests)
    ensures w.base.session.user.currentId == RequestId(net.there.requests)
    ensures cfg.there.handlers.Some? ==> w.base.session.user.incoming.Some?
  {
    hide WellBehaved, Role, Wrote, Flow, Outstanding, LastRequest, LastReply, Transcript, AtRest;
    Mirrored(cfg, net, v, w);
    OutstandingExactly(cfg, net, v, w);
    OutstandingExactly(Across(cfg), Mirror(net), w, v);
    RoleFacts(cfg.here, cfg.there, net.here, v, Arrived(net.there, w.stage));
    RoleFacts(cfg.there, cfg.here, net.there, w, Arrived(net.here, v.stage));
    FlowFirst(HandlersOf(cfg.here), cfg.here.ptr, net.here.end, net.here.inbox, v.base, v.queue, v.n);
    FlowFirst(HandlersOf(cfg.there), cfg.there.ptr, net.there.end, net.there.inbox, w.base, w.queue, w.n);
    FlowRests(HandlersOf(cfg.here), cfg.here.ptr, net.here.end, net.here.inbox, v.base, v.queue, v.n);
    FlowRests(HandlersOf(cfg.there), cfg.there.ptr, net.there.end, net.there.inbox, w.base, w.queue, w.n);
  }

  /** A request sent at rest: the endpoint is at rest, and the request is under way. */
  lemma IssueAtRest(net: Net, o: Object)
    requires AtRest(net.here.end) && net.here.end.session.user.out == []
    requires net.here.end.session.user.currentId == RequestId(net.here.requests)
    ensures var net' := IssueHere(net, o); var id := RequestId(net.here.requests + [o]);
      && AtRest(net'.here.end) && net'.here.end.session.user.out == [] && net'.here.end.session.user.currentId == id
      && net'.here.end.session.user.bindings == Bindings(true, true, true)
      && net'.here.requests == net.here.requests + [o] && net'.here.inbox == net.here.inbox
      && net'.there == net.there.(inbox := net.there.inbox + Encode(RequestMessage(o, id)))
  {
    hide Encode, IssueHere;
    IssueIs(net, o);
  }

  /** Both requests are under way. */
  lemma OverlapCirculates(cfg: Config, net: Net, v: View, w: View, o1: Object, o2: Object)
    returns (t: Tour, r: Tour)
    requires WellBehaved(cfg) && Good(cfg, net, v, w) && !Outstanding(net.here) && !Outstanding(net.there)
    requires cfg.there.handlers.Some? && Requestable(cfg.there, o1) && Requestable(cfg.there, o2)
    requires RequestId(net.there.requests) != RequestId(net.here.requests + [o1])
    ensures Circulates(cfg, Overlap(net, o1, o2), true, t, r,
                       RequestId(net.here.requests + [o1]), RequestId(net.here.requests + [o1] + [o2]))
  {
    hide Encode, EncodeAll, WellBehaved, Good, Outstanding, IssueHere, Requestable, Flow, AtRest, EchoOf;
    var id1, id2 := RequestId(net.here.requests + [o1]), RequestId(net.here.requests + [o1] + [o2]);
    var r1, r2 := RequestMessage(o1, id1), RequestMessage(o2, id2);
    var net1, net2 := IssueHere(net, o1), Overlap(net, o1, o2);
    AllQuiet(cfg, net, v, w);
    IssueAtRest(net, o1);
    IssueAtRest(net1, o2);
    var there, ptr := HandlersOf(cfg.there), cfg.there.ptr;
    FlowNone(HandlersOf(cfg.here), cfg.here.ptr, net2.here.end);
    FlowNone(there, ptr, net.there.end);
    FlowAppend(there, ptr, net.there.end, [], net.there.end, [], 0, r1);
    assert [] + [r1] == [r1] && [] + Encode(r1) == Encode(r1);
    FlowAppend(there, ptr, net.there.end, Encode(r1), net.there.end, [r1], 0, r2);
    t, r := Tour(net2.here.end, [], 0), Tour(net.there.end, [r1] + [r2], 0);
    assert r1 in r.queue && r1.id == id1 && id1 != id2;
  }

  /**
   * Two requests at once: however what is under way is delivered from then on, an exchange of
   * error responses goes on for ever. Something is always under way, and if the buffers hold an
   * error object, some of it can always be delivered.
   */
  lemma OverlapNeverEnds(cfg: Config, actions: seq<Action>, net: Net, o1: Object, o2: Object, more: seq<Action>)
    requires WellBehaved(cfg) && Reaches(cfg, actions, net) && !Outstanding(net.here) && !Outstanding(net.there)
    requires cfg.there.handlers.Some? && Requestable(cfg.there, o1) && Requestable(cfg.there, o2)
    requires RequestId(net.there.requests) != RequestId(net.here.requests + [o1])
    requires Possible(cfg, Overlap(net, o1, o2), more) && OnlyDeliveries(more)
    ensures var net' := Steps(cfg, Overlap(net, o1, o2), more);
      && (net'.here.inbox != [] || net'.there.inbox != [])
      && (ECHO_OBJECT <= cfg.here.buffer && ECHO_OBJECT <= cfg.there.buffer ==> Moving(cfg, net'))
  {
    hide WellBehaved, Good, Reaches, Outstanding, Requestable, Possible, Steps, Overlap, Circulates, Moving, RequestId;
    var v, w := RunKeeps(cfg, actions, net);
    var t, r := OverlapCirculates(cfg, net, v, w, o1, o2);
    var id1, id2 := RequestId(net.here.requests + [o1]), RequestId(net.here.requests + [o1] + [o2]);
    t, r := DeliveriesCirculate(cfg, Overlap(net, o1, o2), t, r, id1, id2, more);
    UnderWay(cfg, Steps(cfg, Overlap(net, o1, o2), more), t, r, id1, id2);
  }

  lemma UnderWay(cfg: Config, net: Net, t: Tour, r: Tour, id: u16, current: u16)
    requires WellBehaved(cfg) && Circulates(cfg, net, true, t, r, id, current)
    ensures net.here.inbox != [] || net.there.inbox != []
    ensures ECHO_OBJECT <= cfg.here.buffer && ECHO_OBJECT <= cfg.there.buffer ==> Moving(cfg, net)
  {
    hide OnTour, Serves;
    MirroredTour(cfg, net, true, t, r, id, current);
    TourFirst(cfg, net, true, t, r, id, current);
    TourFirst(Across(cfg), Mirror(net), false, r, t, id, current);
    if ECHO_OBJECT <= cfg.here.buffer && ECHO_OBJECT <= cfg.there.buffer {
      if t.queue != [] {
        TourHasRoom(cfg, net, true, t, r, id, current, true);
      } else {
        TourHasRoom(Across(cfg), Mirror(net), false, r, t, id, current, false);
      }
    }
  }

  lemma TourHasRoom(cfg: Config, net: Net, asker: bool, t: Tour, r: Tour, id: u16, current: u16, here: bool)
    requires WellBehaved(cfg) && Circulates(cfg, net, asker, t, r, id, current) && t.queue != []
    requires ECHO_OBJECT <= cfg.here.buffer
    ensures EnabledHere(cfg, net, Deliver(here, 1))
  {
    hide Encode, Flow, Ready, Expected, Receive, Deliverable, Serves, Wire;
    var h, ptr := HandlersOf(cfg.here), cfg.here.ptr;
    ExpectedFits(asker, cfg.here, t.queue[0], id, current);
    ReadyRests(asker, t.base, id, current);
    FlowHasRoom(h, ptr, cfg.here.buffer, net.here.end, net.here.inbox, t.base, t.queue, t.n);
    FlowFirst(h, ptr, net.here.end, net.here.inbox, t.base, t.queue, t.n);
    ArrivingSilent(h, ptr, t.base, t.queue[0], t.n);
  }

  /** The least of cases: a client, a server without handlers, two empty objects, small buffers. */
  lemma OverlapExample(more: seq<Action>)
    requires var cfg := Config(Party(8, 21, None), Party(8, 21, Some(map[])));
             Possible(cfg, Overlap(Initial(cfg), [], []), more) && OnlyDeliveries(more)
    ensures var cfg := Config(Party(8, 21, None), Party(8, 21, Some(map[])));
            Moving(cfg, Steps(cfg, Overlap(Initial(cfg), [], []), more))
  {
    hide WellBehaved, Overlap, Moving, TableSize;
    var cfg := Config(Party(8, 21, None), Party(8, 21, Some(map[])));
    var start := Initial(cfg);
    NoHandlers(cfg);
    StepsNone(cfg, start);
    assert Ended([]) == 0;
    OverlapNeverEnds(cfg, [], start, [], [], more);
  }

  lemma StepsNone(cfg: Config, net: Net)
    ensures Possible(cfg, net, []) && Steps(cfg, net, []) == net
  {
  }

  lemma NoHandlers(cfg: Config)
    requires cfg == Config(Party(8, 21, None), Party(8, 21, Some(map[])))
    ensures WellBehaved(cfg) && Requestable(cfg.there, [])
  {
    hide TableSize;
    HandlersSuffice(cfg.there, cfg.here);
    HandlersSuffice(cfg.here, cfg.there);
    SmallTable(0, 8);
  }
}
