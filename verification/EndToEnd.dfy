/** What every run of two peers keeps, and where every run leads. */
module EndToEnd {
  import opened Bytes
  import opened Objects
  import opened Messages
  import opened Parser
  import opened Streams
  import opened Buffering
  import opened Receiver
  import opened Requests
  import opened Endpoints
  import opened Network
  import opened Traffic
  import Memory

  lemma RequestDeliverable(p: Party, o: Object, id: u16)
    requires Requestable(p, o)
    ensures Deliverable(p.ptr, RequestMessage(o, id))
  {
    hide Wire, TableSize;
    BodyOfOne(o);
  }

  lemma ReplyDeliverable(p: Party, a: Outcome, id: u16)
    requires p.ptr <= 8 && Receivable(p, a)
    ensures Deliverable(p.ptr, ReplyWith(a, id))
    ensures forall o :: o in ReplyWith(a, id).objects ==> |Wire(o)| <= p.buffer
  {
    hide Wire, TableSize;
    if a.error.Some? {
      var e := ErrorObject(a.error.value);
      ErrorObjectSize(a.error.value);
      BodyOfOne(e);
      SmallTable(|e|, p.ptr);
    }
  }

  lemma SmallTable(n: nat, ptr: nat)
    requires n <= 1 && ptr <= 8
    ensures TableSize(n, ptr) <= OBJECT_BUFFER
  {
    Memory.NextPointer(0, ptr);
    Memory.NextPointer(1, ptr);
    Memory.NoPointers(ptr);
    assert TableSize(n, ptr) == 2 + PointerBytes(n + 1, ptr);
  }

  // ---------------------------------------------------------------- outstanding requests

  lemma {:induction false} EndedAppend(a: seq<UserCall>, b: seq<UserCall>)
    ensures Ended(a + b) == Ended(a) + Ended(b)
    decreases |b|
  {
    if b == [] {
      assert a + b == a;
    } else {
      var k := |b| - 1;
      assert (a + b)[..|a + b| - 1] == a + b[..k];
      EndedAppend(a, b[..k]);
    }
  }

  lemma {:induction false} NoneEnded(calls: seq<UserCall>)
    requires forall c :: c in calls ==> c.ObjectArrived?
    ensures Ended(calls) == 0
    decreases |calls|
  {
    if calls != [] {
      NoneEnded(calls[..|calls| - 1]);
    }
  }

  /** A request ends with the last of its callbacks, and not before. */
  lemma CallsEnd(a: Outcome, c: seq<UserCall>)
    requires c <= Calls(a)
    ensures Ended(c) == if c == Calls(a) then 1 else 0
  {
    match a.error
    case None =>
      var arrivals := Arrivals(a.responses, 0);
      ArrivalsSize(a.responses, 0);
      if c == Calls(a) {
        NoneEnded(arrivals);
        EndedAppend(arrivals, [Succeeded]);
        assert Ended([Succeeded]) == Ended([]) + 1;
      } else {
        assert c <= arrivals;
        NoneEnded(c);
      }
    case Some(text) =>
      assert Ended([Failed(text)]) == Ended([]) + 1;
      assert c == [] || c == [Failed(text)];
  }

  lemma {:induction false} TranscriptEnded(handlers: Handlers, requests: seq<Object>)
    ensures Ended(Transcript(handlers, requests)) == |requests|
    decreases |requests|
  {
    hide Calls, LastAnswer;
    if requests != [] {
      var before := requests[..|requests| - 1];
      TranscriptEnded(handlers, before);
      CallsEnd(LastAnswer(handlers, requests), Calls(LastAnswer(handlers, requests)));
      EndedAppend(Transcript(handlers, before), Calls(LastAnswer(handlers, requests)));
    }
  }

  /** A part of the callbacks of the last request: it has not ended. */
  lemma NotEnded(handlers: Handlers, requests: seq<Object>, c: seq<UserCall>)
    requires requests != [] && c < Calls(LastAnswer(handlers, requests))
    ensures var before := Transcript(handlers, requests[..|requests| - 1]);
            Ended(before + c) < |requests| && before <= before + c < Transcript(handlers, requests)
  {
    hide Calls, LastAnswer;
    TranscriptEnded(handlers, requests[..|requests| - 1]);
    CallsEnd(LastAnswer(handlers, requests), c);
    EndedAppend(Transcript(handlers, requests[..|requests| - 1]), c);
  }

  // ---------------------------------------------------------------- the invariant

  /** Where the last request of a side is: nowhere, on its way, or its reply is. */
  datatype Stage = Resting | Asked | Answered

  /**
   * One side, in terms of messages: those under way to it, of the first of which `n` bytes have
   * arrived since the endpoint was at rest, and those it has written.
   */
  datatype View = View(base: Endpoint, queue: seq<Message>, n: nat, stage: Stage, written: seq<Message>)

  ghost function RequestUnderWay(side: Side, stage: Stage): seq<Message> {
    if stage == Asked && side.requests != [] then [LastRequest(side.requests)] else []
  }

  ghost function ReplyUnderWay(handlers: Handlers, side: Side, stage: Stage): seq<Message> {
    if stage == Answered && side.requests != [] then [LastReply(handlers, side.requests)] else []
  }

  /** The requests of a side that have arrived. */
  ghost function Arrived(side: Side, stage: Stage): seq<Object> {
    if stage == Asked && side.requests != [] then side.requests[..|side.requests| - 1] else side.requests
  }

  /** What a side is doing as one that asks, and as one that has been asked this. */
  ghost predicate Role(me: Party, other: Party, side: Side, v: View, asked: seq<Object>) {
    var u, requests := v.base.session.user, side.requests;
    && u.out == [] && u.currentId == RequestId(requests)
    && (if me.handlers == None then u.incoming == None
        else u.incoming.Some? && u.incoming.value.served == Handled(HandlersOf(me), asked))
    && (other.handlers == None ==> requests == [])
    && (v.stage == Resting ==> u.calls == Transcript(HandlersOf(other), requests))
    && (v.stage != Resting ==>
          && requests != [] && Requestable(other, requests[|requests| - 1])
          && Waiting(u, RequestId(requests))
          && u.calls == Transcript(HandlersOf(other), requests[..|requests| - 1]))
  }

  ghost function RequestsIn(ms: seq<Message>): seq<Message> {
    if ms == [] then []
    else RequestsIn(ms[..|ms| - 1]) + if IsResponse(ms[|ms| - 1].flags) then [] else [ms[|ms| - 1]]
  }

  ghost function ResponsesIn(ms: seq<Message>): seq<Message> {
    if ms == [] then []
    else ResponsesIn(ms[..|ms| - 1]) + if IsResponse(ms[|ms| - 1].flags) then [ms[|ms| - 1]] else []
  }

  /** A side has written its requests and one reply to each request that has arrived. */
  ghost predicate Wrote(handlers: Handlers, side: Side, written: seq<Message>, asked: seq<Object>) {
    && side.wrote == EncodeAll(written)
    && RequestsIn(written) == AllRequests(side.requests)
    && ResponsesIn(written) == AllReplies(handlers, asked)
  }

  /** One half of the invariant: this side, what is under way to it, and what it has written. */
  ghost predicate Half(cfg: Config, net: Net, v: View, w: View) {
    var a, b := RequestUnderWay(net.there, w.stage), ReplyUnderWay(HandlersOf(cfg.there), net.here, v.stage);
    && Flow(HandlersOf(cfg.here), cfg.here.ptr, net.here.end, net.here.inbox, v.base, v.queue, v.n)
    && (v.queue == a + b || v.queue == b + a)
    && Role(cfg.here, cfg.there, net.here, v, Arrived(net.there, w.stage))
    && Wrote(HandlersOf(cfg.here), net.here, v.written, Arrived(net.there, w.stage))
  }

  ghost predicate Good(cfg: Config, net: Net, v: View, w: View) {
    Half(cfg, net, v, w) && Half(Across(cfg), Mirror(net), w, v)
  }

  /** What the first message under way can be. */
  lemma FirstUnderWay(cfg: Config, net: Net, v: View, w: View)
    requires WellBehaved(cfg) && Good(cfg, net, v, w) && v.queue != []
    ensures var m := v.queue[0];
      && Deliverable(cfg.here.ptr, m) && (forall o :: o in m.objects ==> |Wire(o)| <= cfg.here.buffer)
      && if IsResponse(m.flags)
         then && v.stage == Answered && net.here.requests != []
              && m == LastReply(HandlersOf(cfg.there), net.here.requests)
              && GoodAnswer(LastAnswer(HandlersOf(cfg.there), net.here.requests))
              && v.queue[1..] == RequestUnderWay(net.there, w.stage)
         else && w.stage == Asked && net.there.requests != [] && cfg.here.handlers.Some?
              && m == LastRequest(net.there.requests)
              && Requestable(cfg.here, net.there.requests[|net.there.requests| - 1])
              && GoodAnswer(LastAnswer(HandlersOf(cfg.here), net.there.requests))
              && v.queue[1..] == ReplyUnderWay(HandlersOf(cfg.there), net.here, v.stage)
  {
    hide Wire, TableSize, Flow, Wrote, Waiting, Deliverable, Handled, Transcript, Answer, AtRest, GoodAnswer, ReplyWith,
         Requestable;
    var m := v.queue[0];
    if v.stage == Answered && m == LastReply(HandlersOf(cfg.there), net.here.requests) {
      LastReceivable(cfg.there, cfg.here, net.here.requests);
      ReplyDeliverable(cfg.here, LastAnswer(HandlersOf(cfg.there), net.here.requests), RequestId(net.here.requests));
      ReplyIs(LastAnswer(HandlersOf(cfg.there), net.here.requests), RequestId(net.here.requests));
    } else {
      LastReceivable(cfg.here, cfg.there, net.there.requests);
      var o := net.there.requests[|net.there.requests| - 1];
      RequestDeliverable(cfg.here, o, RequestId(net.there.requests));
      RequestFits(cfg.here, o);
    }
  }

  lemma LastReceivable(server: Party, client: Party, requests: seq<Object>)
    requires Serves(server, client) && server.handlers.Some?
    requires requests != [] && Requestable(server, requests[|requests| - 1])
    ensures Receivable(client, LastAnswer(HandlersOf(server), requests))
    ensures GoodAnswer(LastAnswer(HandlersOf(server), requests))
  {
    hide Requestable, Answer, Handled, GoodAnswer, Wire, TableSize;
  }

  lemma RequestFits(p: Party, o: Object)
    requires Requestable(p, o)
    ensures |Wire(o)| <= p.buffer
  {
  }

  lemma ReplyIs(a: Outcome, id: u16)
    ensures var m := ReplyWith(a, id); m.id == id && IsResponse(m.flags)
  {
  }

  /** All callbacks of the earlier requests, and a part of those of the last. */
  ghost predicate SeenPart(handlers: Handlers, requests: seq<Object>, calls: seq<UserCall>)
    requires requests != []
  {
    var before := Transcript(handlers, requests[..|requests| - 1]);
    before <= calls < before + Calls(LastAnswer(handlers, requests))
  }

  lemma SeenPartIs(handlers: Handlers, requests: seq<Object>, before: seq<UserCall>, c: seq<UserCall>)
    requires requests != [] && before == Transcript(handlers, requests[..|requests| - 1])
    requires c < Calls(LastAnswer(handlers, requests))
    ensures SeenPart(handlers, requests, before + c)
  {
    hide Calls, LastAnswer, Transcript;
  }

  /** In the middle of the first message: nothing has been written, and the user has seen a part. */
  lemma InTheMiddle(cfg: Config, net: Net, v: View, w: View)
    requires WellBehaved(cfg) && Good(cfg, net, v, w)
    ensures var s, requests := net.here.end.session, net.here.requests;
      && s.status == Alive && s.user.defined && s.user.out == []
      && (v.stage == Resting ==> s.user.calls == Transcript(HandlersOf(cfg.there), requests))
      && (v.stage != Resting ==> requests != [] && SeenPart(HandlersOf(cfg.there), requests, s.user.calls))
  {
    hide Deliverable, Encode, Receive, Wrote, Transcript, Calls, LastAnswer, WellBehaved, GoodAnswer, Requestable, Flow,
         SeenPart;
    var h, ptr := HandlersOf(cfg.here), cfg.here.ptr;
    var u, requests := v.base.session.user, net.here.requests;
    FlowRests(h, ptr, net.here.end, net.here.inbox, v.base, v.queue, v.n);
    FlowFirst(h, ptr, net.here.end, net.here.inbox, v.base, v.queue, v.n);
    if v.stage != Resting {
      CallsNonEmpty(LastAnswer(HandlersOf(cfg.there), requests));
      SeenPartIs(HandlersOf(cfg.there), requests, u.calls, []);
      assert u.calls + [] == u.calls;
    }
    if v.queue != [] {
      FirstUnderWay(cfg, net, v, w);
      var m := v.queue[0];
      if IsResponse(m.flags) {
        ReplyArriving(h, ptr, v.base, LastAnswer(HandlersOf(cfg.there), requests), RequestId(requests), v.n);
        var c :| net.here.end.session.user.calls == u.calls + c
                 && c < Calls(LastAnswer(HandlersOf(cfg.there), requests));
        SeenPartIs(HandlersOf(cfg.there), requests, u.calls, c);
      } else {
        RequestArriving(h, ptr, v.base, m, v.n);
      }
    }
  }

  lemma FlowRests(handlers: Handlers, ptr: nat, e: Endpoint, inbox: seq<byte>,
                  base: Endpoint, queue: seq<Message>, n: nat)
    requires Flow(handlers, ptr, e, inbox, base, queue, n)
    ensures AtRest(base)
  {
  }

  lemma CallsNonEmpty(a: Outcome)
    ensures [] < Calls(a)
  {
  }

  /** A request is outstanding if and only if it, or its reply, is under way. */
  lemma OutstandingExactly(cfg: Config, net: Net, v: View, w: View)
    requires WellBehaved(cfg) && Good(cfg, net, v, w)
    ensures Outstanding(net.here) <==> v.stage != Resting
    ensures v.stage != Resting ==>
      var calls, requests := CallsOf(net.here), net.here.requests;
      && requests != []
      && Transcript(HandlersOf(cfg.there), requests[..|requests| - 1]) <= calls
      && calls < Transcript(HandlersOf(cfg.there), requests)
  {
    hide Half, WellBehaved, Transcript, Calls, LastAnswer;
    InTheMiddle(cfg, net, v, w);
    var h, requests := HandlersOf(cfg.there), net.here.requests;
    if v.stage == Resting {
      TranscriptEnded(h, requests);
    } else {
      var before := Transcript(h, requests[..|requests| - 1]);
      var c := CallsOf(net.here)[|before|..];
      assert CallsOf(net.here) == before + c;
      NotEnded(h, requests, c);
    }
  }

  // ---------------------------------------------------------------- one step

  lemma RequestsSnoc(ms: seq<Message>, m: Message)
    ensures RequestsIn(ms + [m]) == RequestsIn(ms) + if IsResponse(m.flags) then [] else [m]
    ensures ResponsesIn(ms + [m]) == ResponsesIn(ms) + if IsResponse(m.flags) then [m] else []
  {
    assert (ms + [m])[..|ms|] == ms;
  }

  /** What issuing a request amounts to. */
  lemma IssueIs(net: Net, o: Object)
    requires net.here.end.session.user.out == []
    requires net.here.end.session.user.currentId == RequestId(net.here.requests)
    ensures var requests := net.here.requests + [o]; var r := Encode(RequestMessage(o, RequestId(requests)));
      IssueHere(net, o) ==
      Net(Side(EndAsks(net.here.end, o), net.here.inbox, requests, net.here.wrote + r),
          net.there.(inbox := net.there.inbox + r))
  {
    hide Encode;
    var r := Encode(RequestMessage(o, RequestId(net.here.requests + [o])));
    assert [] + r == r;
  }

  /** A request is sent in the middle of a message: what is under way is as it was. */
  lemma IssueFlow(h: Handlers, ptr: nat, e: Endpoint, inbox: seq<byte>, base: Endpoint, queue: seq<Message>, n: nat,
                  o: Object)
    requires Flow(h, ptr, e, inbox, base, queue, n) && AtRest(EndAsks(base, o))
    requires queue != [] ==> !IsResponse(queue[0].flags) && Deliverable(ptr, queue[0])
                             && base.session.user.incoming.Some?
    ensures Flow(h, ptr, EndAsks(e, o), inbox, EndAsks(base, o), queue, n)
  {
    hide Encode, Receive, Deliverable, EncodeAll, EndAsks, AtRest;
    FlowFirst(h, ptr, e, inbox, base, queue, n);
    if queue != [] {
      AskWhileArriving(h, ptr, base, queue[0], n, o);
      FirstOfAll(queue, n);
    } else {
      ReceiveNothing(h, ptr, EndAsks(base, o));
      assert EncodeAll(queue)[..0] == [];
    }
  }

  lemma FirstOfAll(queue: seq<Message>, n: nat)
    requires queue != [] && n <= |Encode(queue[0])|
    ensures n <= |EncodeAll(queue)| && EncodeAll(queue)[..n] == Encode(queue[0])[..n]
  {
    hide Encode;
  }

  /** A request is issued. */
  lemma IssueKeeps(cfg: Config, net: Net, v: View, w: View, o: Object)
    requires WellBehaved(cfg) && Good(cfg, net, v, w)
    requires !Outstanding(net.here) && cfg.there.handlers.Some? && Requestable(cfg.there, o)
    ensures var r := RequestMessage(o, RequestId(net.here.requests + [o]));
            Good(cfg, IssueHere(net, o),
                 v.(base := EndAsks(v.base, o), stage := Asked, written := v.written + [r]),
                 w.(queue := w.queue + [r]))
  {
    hide Encode, EncodeAll, WellBehaved, Requestable, IssueHere, Flow, AllRequests, AllReplies, RequestsIn, ResponsesIn,
         Deliverable, LastAnswer, Outstanding, Role, LastRequest, Transcript, SeenPart, AtRest, EndAsks, LastReply,
         RequestId;
    var requests := net.here.requests + [o];
    var r := RequestMessage(o, RequestId(requests));
    assert requests[..|net.here.requests|] == net.here.requests;
    InTheMiddle(cfg, net, v, w);
    StageOf(cfg, net, v, w);
    if v.queue != [] {
      FirstUnderWay(cfg, net, v, w);
    }
    SameId(cfg, net, v, w);
    RoleFacts(cfg.here, cfg.there, net.here, v, Arrived(net.there, w.stage));
    FlowRests(HandlersOf(cfg.here), cfg.here.ptr, net.here.end, net.here.inbox, v.base, v.queue, v.n);
    StillAtRest(v.base, o);
    IssueIs(net, o);
    IssueFlow(HandlersOf(cfg.here), cfg.here.ptr, net.here.end, net.here.inbox, v.base, v.queue, v.n, o);
    FlowAppend(HandlersOf(cfg.there), cfg.there.ptr, net.there.end, net.there.inbox, w.base, w.queue, w.n, r);
    EncodeAllSnoc(v.written, r);
    RequestsSnoc(v.written, r);
    NextRequest(requests);
    var net', v', w' := IssueHere(net, o),
                        v.(base := EndAsks(v.base, o), stage := Asked, written := v.written + [r]),
                        w.(queue := w.queue + [r]);
    RoleAsks(cfg.here, cfg.there, net.here, net'.here, v, v', Arrived(net.there, w.stage), o);
    RoleSame(cfg.there, cfg.here, net.there, net'.there, w, w', net.here.requests);
  }

  lemma StillAtRest(e: Endpoint, o: Object)
    requires AtRest(e)
    ensures e.session.user.defined && AtRest(EndAsks(e, o))
  {
  }

  lemma RoleFacts(me: Party, other: Party, side: Side, v: View, asked: seq<Object>)
    requires Role(me, other, side, v, asked)
    ensures v.base.session.user.out == [] && (me.handlers.Some? ==> v.base.session.user.incoming.Some?)
    ensures v.base.session.user.currentId == RequestId(side.requests)
  {
  }

  lemma RoleAsks(me: Party, other: Party, side: Side, side': Side, v: View, v': View, asked: seq<Object>, o: Object)
    requires Role(me, other, side, v, asked) && v.stage == Resting && v.base.session.user.defined
    requires other.handlers.Some? && Requestable(other, o) && side'.requests == side.requests + [o]
    requires v'.base == EndAsks(v.base, o) && v'.stage == Asked
    ensures Role(me, other, side', v', asked)
  {
    hide Encode, Transcript, Handled, Requestable;
    assert side'.requests[..|side.requests|] == side.requests;
  }

  lemma RoleSame(me: Party, other: Party, side: Side, side': Side, v: View, v': View, asked: seq<Object>)
    requires Role(me, other, side, v, asked)
    requires side'.requests == side.requests && v'.base == v.base && v'.stage == v.stage
    ensures Role(me, other, side', v', asked)
  {
    hide Transcript, Handled, Requestable, Waiting;
  }

  lemma NextRequest(requests: seq<Object>)
    requires requests != []
    ensures AllRequests(requests) == AllRequests(requests[..|requests| - 1]) + [LastRequest(requests)]
    ensures LastRequest(requests) == RequestMessage(requests[|requests| - 1], RequestId(requests))
  {
  }

  /** While a side rests, its endpoint has the id of its last request. */
  lemma SameId(cfg: Config, net: Net, v: View, w: View)
    requires WellBehaved(cfg) && Good(cfg, net, v, w) && v.stage == Resting
    ensures net.here.end.session.user.currentId == RequestId(net.here.requests)
  {
    hide Encode, EncodeAll, WellBehaved, Transcript, Handled, Requestable, Deliverable, LastAnswer, Receive, Flow;
    var h, ptr := HandlersOf(cfg.here), cfg.here.ptr;
    FlowRests(h, ptr, net.here.end, net.here.inbox, v.base, v.queue, v.n);
    FlowFirst(h, ptr, net.here.end, net.here.inbox, v.base, v.queue, v.n);
    if v.queue != [] {
      FirstUnderWay(cfg, net, v, w);
      RequestArriving(h, ptr, v.base, v.queue[0], v.n);
    }
  }

  /** More of the first message arrives, but not the rest of it. */
  lemma PartKeeps(cfg: Config, net: Net, v: View, w: View, k: nat)
    requires WellBehaved(cfg) && Good(cfg, net, v, w)
    requires v.queue != [] && k <= |net.here.inbox| && v.n + k < |Encode(v.queue[0])|
    ensures var net' := DeliverHere(cfg, net, k);
            && Good(cfg, net', v.(n := v.n + k), w)
            && net'.here == net.here.(end := net'.here.end, inbox := net.here.inbox[k..]) && net'.there == net.there
  {
    hide Encode, EncodeAll, WellBehaved, Requestable, Flow, Role, Wrote, Receive, LastRequest, LastReply;
    var h, ptr := HandlersOf(cfg.here), cfg.here.ptr;
    FlowPart(h, ptr, net.here.end, net.here.inbox, v.base, v.queue, v.n, k);
    var v' := v.(n := v.n + k);
    var e := Receive(h, ptr, net.here.end, net.here.inbox[..k]);
    var half := net.(here := net.here.(end := e, inbox := net.here.inbox[k..]));
    RoleSame(cfg.here, cfg.there, net.here, half.here, v, v', Arrived(net.there, w.stage));
    WroteSame(h, net.here, half.here, v.written, Arrived(net.there, w.stage));
    assert Good(cfg, half, v', w);
    InTheMiddle(cfg, half, v', w);
    assert net.here.wrote + [] == net.here.wrote && net.there.inbox + [] == net.there.inbox;
    assert Drained(e) == e;
  }

  lemma WroteSame(handlers: Handlers, side: Side, side': Side, written: seq<Message>, asked: seq<Object>)
    requires Wrote(handlers, side, written, asked)
    requires side'.wrote == side.wrote && side'.requests == side.requests
    ensures Wrote(handlers, side', written, asked)
  {
  }

  /** The reply to the request of this side has arrived as a whole. */
  lemma ReplyKeeps(cfg: Config, net: Net, v: View, w: View)
    requires WellBehaved(cfg) && Good(cfg, net, v, w) && v.queue != [] && IsResponse(v.queue[0].flags)
    ensures var k := |Encode(v.queue[0])| - v.n; var net' := DeliverHere(cfg, net, k);
            var base := Drained(Receive(HandlersOf(cfg.here), cfg.here.ptr, v.base, Encode(v.queue[0])));
            && 0 < k <= |net.here.inbox|
            && Good(cfg, net', View(base, v.queue[1..], 0, Resting, v.written), w)
            && net'.here == net.here.(end := net'.here.end, inbox := net.here.inbox[k..]) && net'.there == net.there
  {
    hide Encode, EncodeAll, WellBehaved, Requestable, Flow, Role, Wrote, Receive, LastRequest, LastAnswer, Deliverable,
         GoodAnswer;
    var h, ptr, m := HandlersOf(cfg.here), cfg.here.ptr, v.queue[0];
    FirstUnderWay(cfg, net, v, w);
    var a, id := LastAnswer(HandlersOf(cfg.there), net.here.requests), RequestId(net.here.requests);
    FlowFirst(h, ptr, net.here.end, net.here.inbox, v.base, v.queue, v.n);
    FlowRests(h, ptr, net.here.end, net.here.inbox, v.base, v.queue, v.n);
    RoleWaits(cfg.here, cfg.there, net.here, v, Arrived(net.there, w.stage));
    ReplyArrived(h, ptr, v.base, a, id);
    FlowWhole(h, ptr, net.here.end, net.here.inbox, v.base, v.queue, v.n);
    var k := |Encode(m)| - v.n;
    var net', e := DeliverHere(cfg, net, k), Receive(h, ptr, v.base, Encode(m));
    RoleFacts(cfg.here, cfg.there, net.here, v, Arrived(net.there, w.stage));
    assert e.session.user.out == [];
    assert net.here.wrote + [] == net.here.wrote && net.there.inbox + [] == net.there.inbox;
    var v' := View(Drained(e), v.queue[1..], 0, Resting, v.written);
    RoleDone(cfg.here, cfg.there, net.here, net'.here, v, v', Arrived(net.there, w.stage));
    WroteSame(h, net.here, net'.here, v.written, Arrived(net.there, w.stage));
    RoleSame(cfg.there, cfg.here, net.there, net'.there, w, w, net.here.requests);
  }

  lemma RoleWaits(me: Party, other: Party, side: Side, v: View, asked: seq<Object>)
    requires Role(me, other, side, v, asked) && v.stage != Resting
    ensures side.requests != [] && Waiting(v.base.session.user, RequestId(side.requests))
  {
  }

  lemma RoleDone(me: Party, other: Party, side: Side, side': Side, v: View, v': View, asked: seq<Object>)
    requires Role(me, other, side, v, asked) && v.stage == Answered && side'.requests == side.requests
    requires v'.stage == Resting && side.requests != []
    requires var u, u' := v.base.session.user, v'.base.session.user;
      && u'.out == u.out && u'.currentId == u.currentId && u'.incoming == u.incoming
      && u'.calls == u.calls + Calls(LastAnswer(HandlersOf(other), side.requests))
    ensures Role(me, other, side', v', asked)
  {
    hide Handled, Requestable, Waiting, Calls, LastAnswer;
  }

  /** A request has arrived here as a whole, and is answered. */
  lemma RequestKeeps(cfg: Config, net: Net, v: View, w: View)
    requires WellBehaved(cfg) && Good(cfg, net, v, w) && v.queue != [] && !IsResponse(v.queue[0].flags)
    ensures net.there.requests != []
    ensures var k := |Encode(v.queue[0])| - v.n; var net' := DeliverHere(cfg, net, k);
            var base := Drained(Receive(HandlersOf(cfg.here), cfg.here.ptr, v.base, Encode(v.queue[0])));
            var r := LastReply(HandlersOf(cfg.here), net.there.requests);
            && 0 < k <= |net.here.inbox|
            && Good(cfg, net', View(base, v.queue[1..], 0, v.stage, v.written + [r]),
                    w.(stage := Answered, queue := w.queue + [r]))
            && net'.here.requests == net.here.requests && net'.here.inbox == net.here.inbox[k..]
            && net'.there == net.there.(inbox := net.there.inbox + Encode(r))
  {
    hide Encode, EncodeAll, WellBehaved, Requestable, Flow, Role, Receive, LastRequest, LastAnswer, Deliverable,
         GoodAnswer, Answer, Handled, Served, AllReplies, AllRequests, RequestsIn, ResponsesIn, LastReply;
    var h, ptr, m := HandlersOf(cfg.here), cfg.here.ptr, v.queue[0];
    FirstUnderWay(cfg, net, v, w);
    var r, asked := LastReply(h, net.there.requests), net.there.requests;
    FlowFirst(h, ptr, net.here.end, net.here.inbox, v.base, v.queue, v.n);
    FlowRests(h, ptr, net.here.end, net.here.inbox, v.base, v.queue, v.n);
    RoleServes(cfg.here, cfg.there, net.here, v, Arrived(net.there, w.stage));
    LastRequestIs(h, asked);
    RequestArrived(h, ptr, v.base, m);
    FlowWhole(h, ptr, net.here.end, net.here.inbox, v.base, v.queue, v.n);
    var k := |Encode(m)| - v.n;
    var net', e := DeliverHere(cfg, net, k), Receive(h, ptr, v.base, Encode(m));
    assert [] + Encode(r) == Encode(r);
    assert e.session.user.out == Encode(r);
    FlowAppend(HandlersOf(cfg.there), cfg.there.ptr, net.there.end, net.there.inbox, w.base, w.queue, w.n, r);
    EncodeAllSnoc(v.written, r);
    RequestsSnoc(v.written, r);
    var v', w' := View(Drained(e), v.queue[1..], 0, v.stage, v.written + [r]),
                  w.(stage := Answered, queue := w.queue + [r]);
    RoleAnswered(cfg.here, cfg.there, net.here, net'.here, v, v', asked);
    RoleNext(cfg.there, cfg.here, net.there, net'.there, w, w', Arrived(net.here, v.stage));
  }

  /** What a side that is being asked has to go on. */
  lemma RoleServes(me: Party, other: Party, side: Side, v: View, asked: seq<Object>)
    requires Role(me, other, side, v, asked) && me.handlers.Some?
    ensures var u := v.base.session.user;
      && u.out == [] && u.incoming.Some? && u.incoming.value.served == Handled(HandlersOf(me), asked)
  {
  }

  lemma LastRequestIs(handlers: Handlers, requests: seq<Object>)
    requires requests != []
    ensures var k, m := |requests| - 1, LastRequest(requests);
      && m.flags == 0 && Considered(m.objects) == [requests[k]]
      && var server := Server(Considered(m.objects), Handled(handlers, requests[..k]));
         && Reply(handlers, server, m.id) == LastReply(handlers, requests)
         && Answer(handlers, server) == LastAnswer(handlers, requests)
         && Served(handlers, server).served == Handled(handlers, requests)
    ensures AllReplies(handlers, requests) ==
            AllReplies(handlers, requests[..|requests| - 1]) + [LastReply(handlers, requests)]
    ensures IsResponse(LastReply(handlers, requests).flags)
  {
    hide Answer, Served, ReplyWith, Considered;
    ReplyIs(LastAnswer(handlers, requests), RequestId(requests));
  }

  lemma RoleAnswered(me: Party, other: Party, side: Side, side': Side, v: View, v': View, asked: seq<Object>)
    requires asked != [] && Role(me, other, side, v, asked[..|asked| - 1]) && me.handlers.Some?
    requires side'.requests == side.requests && v'.stage == v.stage
    requires var u, u' := v.base.session.user, v'.base.session.user;
      && u'.incoming.Some? && u'.incoming.value.served == Handled(HandlersOf(me), asked)
      && u' == u.(incoming := u'.incoming)
    ensures Role(me, other, side', v', asked)
  {
    hide Handled, Requestable, Transcript;
  }

  lemma RoleNext(me: Party, other: Party, side: Side, side': Side, v: View, v': View, asked: seq<Object>)
    requires Role(me, other, side, v, asked)
    requires side'.requests == side.requests && v'.base == v.base && v.stage == Asked && v'.stage == Answered
    ensures Role(me, other, side', v', asked)
  {
    hide Handled, Requestable, Transcript;
  }

  // ---------------------------------------------------------------- whole deliveries

  /** The length of the reply to a request on its way. */
  ghost function Due(server: Party, side: Side, stage: Stage): nat {
    if stage == Asked && side.requests != [] then |Encode(LastReply(HandlersOf(server), side.requests))| else 0
  }

  /** Bytes still to be delivered: what is under way, and the replies yet to be written. */
  ghost function Work(cfg: Config, net: Net, v: View, w: View): nat {
    |net.here.inbox| + |net.there.inbox| + Due(cfg.there, net.here, v.stage) + Due(cfg.here, net.there, w.stage)
  }

  /** Any number of bytes arrive: the invariant is kept, and just as many are still to be delivered. */
  lemma {:induction false} DeliverKeeps(cfg: Config, net: Net, v: View, w: View, k: nat) returns (v': View, w': View)
    requires WellBehaved(cfg) && Good(cfg, net, v, w) && k <= |net.here.inbox|
    ensures var net' := DeliverHere(cfg, net, k);
            && Good(cfg, net', v', w')
            && net'.here.requests == net.here.requests && net'.there.requests == net.there.requests
            && Work(cfg, net', v', w') == Work(cfg, net, v, w) - k
    decreases k
  {
    hide Encode, Half, WellBehaved, DeliverHere, LastReply;
    FirstArrives(cfg, net, v, w);
    if k == 0 {
      DeliverNothing(cfg, net, v, w);
      return v, w;
    }
    if v.n + k < |Encode(v.queue[0])| {
      PartKeeps(cfg, net, v, w, k);
      return v.(n := v.n + k), w;
    }
    var first := |Encode(v.queue[0])| - v.n;
    var base := Drained(Receive(HandlersOf(cfg.here), cfg.here.ptr, v.base, Encode(v.queue[0])));
    if IsResponse(v.queue[0].flags) {
      ReplyKeeps(cfg, net, v, w);
      v', w' := View(base, v.queue[1..], 0, Resting, v.written), w;
    } else {
      RequestKeeps(cfg, net, v, w);
      var r := LastReply(HandlersOf(cfg.here), net.there.requests);
      v', w' := View(base, v.queue[1..], 0, v.stage, v.written + [r]), w.(stage := Answered, queue := w.queue + [r]);
    }
    DeliverTwice(cfg, net, first, k - first);
    v', w' := DeliverKeeps(cfg, DeliverHere(cfg, net, first), v', w', k - first);
  }

  /** Whatever is under way begins with the rest of the first message. */
  lemma FirstArrives(cfg: Config, net: Net, v: View, w: View)
    requires WellBehaved(cfg) && Good(cfg, net, v, w)
    ensures |net.here.inbox| > 0 ==> v.queue != []
    ensures v.queue != [] ==>
      && v.n < |Encode(v.queue[0])| && |net.here.inbox| >= |Encode(v.queue[0])| - v.n
      && (if IsResponse(v.queue[0].flags) then v.stage == Answered && net.here.requests != []
          else w.stage == Asked && net.there.requests != [])
  {
    hide Encode, Flow, WellBehaved, Role, Wrote, LastRequest, LastReply, Deliverable, GoodAnswer, Requestable;
    FlowFirst(HandlersOf(cfg.here), cfg.here.ptr, net.here.end, net.here.inbox, v.base, v.queue, v.n);
    if v.queue != [] {
      FirstUnderWay(cfg, net, v, w);
    }
  }

  lemma DeliverNothing(cfg: Config, net: Net, v: View, w: View)
    requires WellBehaved(cfg) && Good(cfg, net, v, w)
    ensures DeliverHere(cfg, net, 0) == net
  {
    hide Encode, Flow, WellBehaved, Role, Wrote, LastRequest, LastReply;
    var h, ptr := HandlersOf(cfg.here), cfg.here.ptr;
    FlowRests(h, ptr, net.here.end, net.here.inbox, v.base, v.queue, v.n);
    if v.queue == [] {
      FlowFirst(h, ptr, net.here.end, net.here.inbox, v.base, v.queue, v.n);
      ReceiveNothing(h, ptr, v.base);
      RoleFacts(cfg.here, cfg.there, net.here, v, Arrived(net.there, w.stage));
      assert net.here.inbox[..0] == [] && net.here.inbox[0..] == net.here.inbox;
      assert net.here.wrote + [] == net.here.wrote && net.there.inbox + [] == net.there.inbox;
    } else {
      FirstArrives(cfg, net, v, w);
      PartKeeps(cfg, net, v, w, 0);
      NothingMore(h, ptr, net.here.end, net.here.inbox, v.base, v.queue, v.n);
      InTheMiddle(cfg, net, v, w);
      assert net.here.inbox[..0] == [] && net.here.inbox[0..] == net.here.inbox;
      assert net.here.wrote + [] == net.here.wrote;
    }
  }

  lemma NothingMore(handlers: Handlers, ptr: nat, e: Endpoint, inbox: seq<byte>,
                    base: Endpoint, queue: seq<Message>, n: nat)
    requires Flow(handlers, ptr, e, inbox, base, queue, n)
    ensures Receive(handlers, ptr, e, []) == e
  {
    hide Receive, Encode;
    var part := EncodeAll(queue)[..n];
    ReceiveTwice(handlers, ptr, base, part, []);
    assert part + [] == part;
  }

  // ---------------------------------------------------------------- whole runs

  lemma Mirrored(cfg: Config, net: Net, v: View, w: View)
    requires Good(cfg, net, v, w)
    ensures Good(Across(cfg), Mirror(net), w, v) && Work(Across(cfg), Mirror(net), w, v) == Work(cfg, net, v, w)
    ensures WellBehaved(cfg) ==> WellBehaved(Across(cfg))
  {
    hide Half, Serves;
  }

  /** Every possible step keeps the invariant, and a delivery is a step towards the end. */
  lemma StepKeeps(cfg: Config, net: Net, v: View, w: View, a: Action) returns (v': View, w': View)
    requires WellBehaved(cfg) && Good(cfg, net, v, w) && Enabled(cfg, net, a)
    ensures Good(cfg, Next(cfg, net, a), v', w')
    ensures a.Deliver? ==>
      && Next(cfg, net, a).here.requests == net.here.requests && Next(cfg, net, a).there.requests == net.there.requests
      && Work(cfg, Next(cfg, net, a), v', w') == Work(cfg, net, v, w) - a.n < Work(cfg, net, v, w)
  {
    hide Good, WellBehaved, Work, IssueHere, DeliverHere, Outstanding, Requestable;
    if a.here {
      v', w' := StepHereKeeps(cfg, net, v, w, a);
    } else {
      Mirrored(cfg, net, v, w);
      w', v' := StepHereKeeps(Across(cfg), Mirror(net), w, v, a);
      Mirrored(Across(cfg), NextHere(Across(cfg), Mirror(net), a), w', v');
    }
  }

  lemma StepHereKeeps(cfg: Config, net: Net, v: View, w: View, a: Action) returns (v': View, w': View)
    requires WellBehaved(cfg) && Good(cfg, net, v, w) && EnabledHere(cfg, net, a)
    ensures Good(cfg, NextHere(cfg, net, a), v', w')
    ensures a.Deliver? ==> var net' := NextHere(cfg, net, a);
      && net'.here.requests == net.here.requests && net'.there.requests == net.there.requests
      && Work(cfg, net', v', w') == Work(cfg, net, v, w) - a.n < Work(cfg, net, v, w)
  {
    hide Good, WellBehaved, Work, IssueHere, DeliverHere, Outstanding, Requestable;
    match a
    case Issue(_, o) =>
      IssueKeeps(cfg, net, v, w, o);
      var r := RequestMessage(o, RequestId(net.here.requests + [o]));
      v', w' := v.(base := EndAsks(v.base, o), stage := Asked, written := v.written + [r]), w.(queue := w.queue + [r]);
    case Deliver(_, n) =>
      v', w' := DeliverKeeps(cfg, net, v, w, n);
  }

  lemma InitialHolds(cfg: Config) returns (v: View, w: View)
    ensures Good(cfg, Initial(cfg), v, w)
  {
    var a, b := StartSide(cfg.here), StartSide(cfg.there);
    v, w := View(a.end, [], 0, Resting, []), View(b.end, [], 0, Resting, []);
    FlowNone(HandlersOf(cfg.here), cfg.here.ptr, a.end);
    FlowNone(HandlersOf(cfg.there), cfg.there.ptr, b.end);
    hide Flow;
    assert Half(cfg, Initial(cfg), v, w);
    assert Half(Across(cfg), Mirror(Initial(cfg)), w, v);
  }

  lemma {:induction false} RunKeeps(cfg: Config, actions: seq<Action>, net: Net) returns (v: View, w: View)
    requires WellBehaved(cfg) && Reaches(cfg, actions, net)
    ensures Good(cfg, net, v, w)
    decreases |actions|
  {
    hide WellBehaved, Good, Enabled, Next, Work;
    if actions == [] {
      v, w := InitialHolds(cfg);
    } else {
      var k := |actions| - 1;
      var before := Steps(cfg, Initial(cfg), actions[..k]);
      v, w := RunKeeps(cfg, actions[..k], before);
      v, w := StepKeeps(cfg, before, v, w, actions[k]);
    }
  }

  /**
   * A user has been told exactly what the finished requests should lead to and, of the
   * outstanding one, a part. The side is alive and in defined territory.
   */
  ghost predicate Told(handlers: Handlers, side: Side) {
    var calls, requests := CallsOf(side), side.requests;
    && side.end.session.status == Alive && side.end.session.user.defined
    && (!Outstanding(side) ==> calls == Transcript(handlers, requests))
    && (Outstanding(side) ==>
          && requests != [] && Transcript(handlers, requests[..|requests| - 1]) <= calls
          && calls < Transcript(handlers, requests))
  }

  /** A side has written its requests and a reply to each request of the other, except the last perhaps. */
  ghost predicate WroteOnly(handlers: Handlers, side: Side, asked: seq<Object>) {
    || (exists written :: Wrote(handlers, side, written, asked))
    || (asked != [] && var earlier := asked[..|asked| - 1]; exists written :: Wrote(handlers, side, written, earlier))
  }

  /**
   * End to end, safety: in every run, whatever the pieces and whoever asks when, both users
   * have been told exactly what they should be, and both sides have written nothing but their
   * own requests and one reply to each request, in order; so no response was itself answered.
   */
  lemma Safety(cfg: Config, actions: seq<Action>, net: Net)
    requires WellBehaved(cfg) && Reaches(cfg, actions, net)
    ensures Told(HandlersOf(cfg.there), net.here) && WroteOnly(HandlersOf(cfg.here), net.here, net.there.requests)
    ensures Told(HandlersOf(cfg.here), net.there) && WroteOnly(HandlersOf(cfg.there), net.there, net.here.requests)
  {
    hide WellBehaved, Good, Reaches, Told, WroteOnly;
    var v, w := RunKeeps(cfg, actions, net);
    SafeHere(cfg, net, v, w);
    Mirrored(cfg, net, v, w);
    SafeHere(Across(cfg), Mirror(net), w, v);
  }

  lemma SafeHere(cfg: Config, net: Net, v: View, w: View)
    requires WellBehaved(cfg) && Good(cfg, net, v, w)
    ensures Told(HandlersOf(cfg.there), net.here) && WroteOnly(HandlersOf(cfg.here), net.here, net.there.requests)
  {
    hide WellBehaved, Flow, Role, Wrote, Outstanding, Transcript, LastRequest, LastReply;
    InTheMiddle(cfg, net, v, w);
    OutstandingExactly(cfg, net, v, w);
    assert Wrote(HandlersOf(cfg.here), net.here, v.written, Arrived(net.there, w.stage));
  }

  // ---------------------------------------------------------------- progress

  lemma RoomFor(ptr: nat, size: nat, c: Control, m: Message, n: nat)
    requires 5 <= size && c.phase == RecvHeader && Deliverable(ptr, m) && n <= |Encode(m)|
    requires forall o :: o in m.objects ==> |Wire(o)| <= size
    ensures |Parse(ptr, c, Encode(m)[..n]).rest| < size
  {
    hide Encode, Parse, Wire, Deliverable;
    assert [m][1..] == [] && EncodeAll([m]) == Encode(m) + EncodeAll([]);
    assert EncodeAll([m]) == Encode(m);
    NoStall(ptr, c, size, [m], n);
  }

  /** Of an endpoint that is receiving a message that fits, more can be received. */
  lemma FlowHasRoom(handlers: Handlers, ptr: nat, size: nat, e: Endpoint, inbox: seq<byte>,
                    base: Endpoint, queue: seq<Message>, n: nat)
    requires Flow(handlers, ptr, e, inbox, base, queue, n) && queue != []
    requires 5 <= size && Deliverable(ptr, queue[0]) && forall o :: o in queue[0].objects ==> |Wire(o)| <= size
    ensures 0 < |inbox| && |e.rest| + 1 <= size
  {
    hide Encode, Parse, Run, Wire, Deliverable, PeerCallbacks;
    FlowFirst(handlers, ptr, e, inbox, base, queue, n);
    RoomFor(ptr, size, base.control, queue[0], n);
    assert base.rest + Encode(queue[0])[..n] == Encode(queue[0])[..n];
  }

  lemma RoomHere(cfg: Config, net: Net, v: View, w: View, here: bool)
    requires WellBehaved(cfg) && Good(cfg, net, v, w) && v.queue != []
    ensures EnabledHere(cfg, net, Deliver(here, 1))
  {
    hide Flow, Role, Wrote, LastRequest, LastReply, Deliverable, GoodAnswer, Requestable, Serves, Wire;
    FirstUnderWay(cfg, net, v, w);
    InTheMiddle(cfg, net, v, w);
    FlowHasRoom(HandlersOf(cfg.here), cfg.here.ptr, cfg.here.buffer, net.here.end, net.here.inbox,
                v.base, v.queue, v.n);
  }

  /** Some byte can be delivered. */
  ghost predicate Moving(cfg: Config, net: Net) {
    Enabled(cfg, net, Deliver(true, 1)) || Enabled(cfg, net, Deliver(false, 1))
  }

  /** As long as a request is outstanding on either side, some byte can be delivered. */
  lemma NeverStuck(cfg: Config, net: Net, v: View, w: View)
    requires WellBehaved(cfg) && Good(cfg, net, v, w) && (Outstanding(net.here) || Outstanding(net.there))
    ensures Moving(cfg, net)
  {
    hide WellBehaved, Good, Outstanding, EnabledHere;
    Mirrored(cfg, net, v, w);
    StageOf(cfg, net, v, w);
    StageOf(Across(cfg), Mirror(net), w, v);
    Queues(cfg, net, v, w);
    if v.queue != [] {
      RoomHere(cfg, net, v, w, true);
    } else {
      RoomHere(Across(cfg), Mirror(net), w, v, false);
    }
  }

  lemma StageOf(cfg: Config, net: Net, v: View, w: View)
    requires WellBehaved(cfg) && Good(cfg, net, v, w)
    ensures Outstanding(net.here) <==> v.stage != Resting
    ensures Outstanding(net.here) ==> net.here.requests != []
  {
    hide *;
    OutstandingExactly(cfg, net, v, w);
  }

  /** Unless both sides rest, something is under way. */
  lemma Queues(cfg: Config, net: Net, v: View, w: View)
    requires Good(cfg, net, v, w)
    requires (v.stage != Resting && net.here.requests != []) || (w.stage != Resting && net.there.requests != [])
    ensures v.queue != [] || w.queue != []
  {
    hide Flow, Role, Wrote, LastRequest, LastReply;
  }

  /** Deliveries, one after the other. */
  lemma {:induction false} DeliveriesKeep(cfg: Config, net: Net, v: View, w: View, more: seq<Action>)
    returns (v': View, w': View)
    requires WellBehaved(cfg) && Good(cfg, net, v, w) && Possible(cfg, net, more) && OnlyDeliveries(more)
    ensures var net' := Steps(cfg, net, more);
      && Good(cfg, net', v', w') && Work(cfg, net', v', w') + |more| <= Work(cfg, net, v, w)
      && net'.here.requests == net.here.requests && net'.there.requests == net.there.requests
    decreases |more|
  {
    hide WellBehaved, Good, Enabled, Next, Work;
    if more == [] {
      return v, w;
    }
    var k := |more| - 1;
    v', w' := DeliveriesKeep(cfg, net, v, w, more[..k]);
    v', w' := StepKeeps(cfg, Steps(cfg, net, more[..k]), v', w', more[k]);
  }

  /**
   * End to end, liveness: from wherever a run has got to, every way of delivering what is under
   * way ends, and as long as a request is outstanding on either side, it has not ended.
   */
  lemma Finishes(cfg: Config, actions: seq<Action>, net: Net) returns (bound: nat)
    requires WellBehaved(cfg) && Reaches(cfg, actions, net)
    ensures forall more :: Possible(cfg, net, more) && OnlyDeliveries(more) ==>
      var net' := Steps(cfg, net, more);
      && |more| <= bound && net'.here.requests == net.here.requests && net'.there.requests == net.there.requests
      && (Outstanding(net'.here) || Outstanding(net'.there) ==> Moving(cfg, net'))
  {
    hide WellBehaved, Good, Reaches, Possible, Work, Moving, Outstanding, Steps;
    var v, w := RunKeeps(cfg, actions, net);
    bound := Work(cfg, net, v, w);
    forall more | Possible(cfg, net, more) && OnlyDeliveries(more)
      ensures var net' := Steps(cfg, net, more);
        && |more| <= bound && net'.here.requests == net.here.requests && net'.there.requests == net.there.requests
        && (Outstanding(net'.here) || Outstanding(net'.there) ==> Moving(cfg, net'))
    {
      var v', w' := DeliveriesKeep(cfg, net, v, w, more);
      var net' := Steps(cfg, net, more);
      if Outstanding(net'.here) || Outstanding(net'.there) {
        NeverStuck(cfg, net', v', w');
      }
    }
  }
}
