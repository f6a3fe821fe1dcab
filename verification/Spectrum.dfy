/**
 * The ZX Spectrum reads objects with the Z80 reader, which is not the reader of the parser when
 * an object is empty. Where no empty object is sent, that makes no difference.
 */
module Spectrum {
  import opened Bytes
  import opened Objects
  import opened Messages
  import opened Memory
  import opened Parser
  import opened Streams
  import opened Buffering
  import opened Receiver
  import opened Requests
  import opened Endpoints
  import opened Network
  import opened Traffic
  import opened EndToEnd
  import Reader

  /**
   * Where a receiver with 2-byte pointers hands on an object that is not empty, the Z80 reader
   * would have left the same memory behind.
   */
  method ReadLikewise<U>(r: Receiver<U>, z80: array<byte>, data: nat, ghost o: Object)
    requires r.Layout() && r.ptr == 2
    requires r.buffer <= data && data + r.recvObjectSize <= r.buffer + r.totalReceived
    requires ReadObject(r.mem[data..data + r.recvObjectSize], OBJECT_BUFFER, 2) == Readable(o) && o != []
    requires z80 != r.mem && z80[..] == r.mem[..]
    modifies r.mem, z80
    ensures z80[..] == r.mem[..] && Holds(r.mem[..], r.objectBuffer, 2, data, o)
  {
    hide ReadObject, Holds, PointerBytes;
    assert Pow256(1) == 256 && Pow256(2) == 0x1_0000;
    Reader.ReadersAgree(r.mem, z80, r.objectBuffer, OBJECT_BUFFER, r.recvObjectSize, data, o);
  }

  /** The event is not about an empty object, nor about one that was not readable. */
  ghost predicate Plain(e: Event) {
    e.Delivered? ==> e.received.Readable? && e.received.properties != []
  }

  /** No answer contains an empty object. */
  ghost predicate AnswersFully(server: Party) {
    server.handlers.Some? ==>
      forall served: nat, o, r :: r in Answer(server.handlers.value, Server([o], served)).responses ==> r != []
  }

  /** What arrives of messages without empty objects, in any pieces, is plain. */
  lemma PlainEvents(ptr: nat, c: Control, ms: seq<Message>, n: nat, k: nat)
    requires c.phase == RecvHeader && n + k <= |EncodeAll(ms)|
    requires forall m :: m in ms ==> Deliverable(ptr, m) && forall o :: o in m.objects ==> o != []
    ensures var p := Parse(ptr, c, EncodeAll(ms)[..n]);
            forall e :: e in Parse(ptr, p.control, p.rest + EncodeAll(ms)[n..n + k]).events ==> Plain(e)
  {
    hide Parse, EncodeAll, AllEvents, Deliverable;
    var s := EncodeAll(ms);
    var a, b, t := s[..n], s[n..n + k], s[n + k..];
    assert a + b == s[..n + k] && s[..n + k] + t == s && s + [] == s;
    ParseAppend(ptr, c, a, b);
    ParseAppend(ptr, c, a + b, t);
    StreamRoundTrip(ptr, c, ms, []);
    NothingToParse(ptr, IdleAll(c, ms));
    AllEventsFrom(ms, ms);
    assert AllEvents(ms) + [] == AllEvents(ms);
    var p, whole := Parse(ptr, c, a), Parse(ptr, c, a + b);
    var q := Parse(ptr, p.control, p.rest + b);
    assert whole.events == p.events + q.events;
    assert AllEvents(ms) == whole.events + Parse(ptr, whole.control, whole.rest + t).events;
    forall e | e in q.events
      ensures Plain(e)
    {
      assert e in whole.events && e in AllEvents(ms);
      assert FromMessages(e, ms);
    }
  }

  /** Every message under way to a side, of which there are two at most. */
  lemma EachUnderWay(cfg: Config, net: Net, v: View, w: View)
    requires WellBehaved(cfg) && Good(cfg, net, v, w)
    ensures forall m :: m in v.queue ==>
      && Deliverable(cfg.here.ptr, m)
      && ((net.here.requests != [] && cfg.there.handlers.Some?
           && m == LastReply(HandlersOf(cfg.there), net.here.requests)
           && GoodAnswer(LastAnswer(HandlersOf(cfg.there), net.here.requests)))
          || (net.there.requests != [] && m == LastRequest(net.there.requests)))
  {
    hide Wire, TableSize, Flow, Wrote, Waiting, Deliverable, Handled, Transcript, Answer, AtRest, GoodAnswer, ReplyWith,
         Requestable;
    if v.stage == Answered {
      LastReceivable(cfg.there, cfg.here, net.here.requests);
      ReplyDeliverable(cfg.here, LastAnswer(HandlersOf(cfg.there), net.here.requests), RequestId(net.here.requests));
    }
    if w.stage == Asked {
      RequestDeliverable(cfg.here, net.there.requests[|net.there.requests| - 1], RequestId(net.there.requests));
    }
  }

  /** A reply without empty objects: the error text is not empty, nor is any response. */
  lemma FullReply(server: Party, requests: seq<Object>, o: Object)
    requires server.handlers.Some? && AnswersFully(server) && requests != []
    requires GoodAnswer(LastAnswer(HandlersOf(server), requests))
    requires o in LastReply(HandlersOf(server), requests).objects
    ensures o != []
  {
    hide Answer, Handled;
  }

  /**
   * In every run without empty objects, whatever arrives at this side, in any pieces, all that
   * its reader is given are objects that are not empty, and it can read them.
   */
  lemma NothingEmpty(cfg: Config, actions: seq<Action>, net: Net, n: nat)
    requires WellBehaved(cfg) && Reaches(cfg, actions, net) && EnabledHere(cfg, net, Deliver(true, n))
    requires AnswersFully(cfg.there) && forall o :: o in net.there.requests ==> o != []
    ensures var p := Parse(cfg.here.ptr, net.here.end.control, net.here.end.rest + net.here.inbox[..n]);
            forall e :: e in p.events ==> Plain(e)
  {
    hide WellBehaved, Role, Wrote, Deliverable, EncodeAll, Parse, Run, PeerCallbacks, GoodAnswer, LastRequest,
         LastReply, LastAnswer, AnswersFully, Plain, Reaches, Outstanding;
    var v, w := RunKeeps(cfg, actions, net);
    EachUnderWay(cfg, net, v, w);
    forall m, o | m in v.queue && o in m.objects
      ensures o != []
    {
      if net.there.requests != [] && m == LastRequest(net.there.requests) {
        RequestObjects(net.there.requests, o);
      } else {
        FullReply(cfg.there, net.here.requests, o);
      }
    }
    var all := EncodeAll(v.queue);
    assert v.base.rest + all[..v.n] == all[..v.n];
    assert net.here.inbox[..n] == all[v.n..v.n + n];
    PlainEvents(cfg.here.ptr, v.base.control, v.queue, v.n, n);
  }

  lemma RequestObjects(requests: seq<Object>, o: Object)
    requires requests != [] && o in LastRequest(requests).objects
    ensures o in requests
  {
  }
}
