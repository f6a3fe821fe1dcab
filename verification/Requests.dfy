/**
 * The request-response layer as functions: what the callbacks of one peer do to its state.
 * A peer issues requests of its own, or serves those of the other side, or both.
 */
module Requests {
  import opened Bytes
  import opened Objects
  import opened Messages
  import opened Parser
  import opened Receiver
  import Lookup

  const MAX_RECEIVING_OBJECTS: nat := 32

  /** The size of `error_str`, without its terminating NUL. */
  const ERROR_STR: nat := 63

  /** The bytes of a string literal. */
  function Ascii(s: string): (r: Text)
    requires 0 < |s| <= ERROR_STR && forall i :: 0 <= i < |s| ==> 0 < s[i] as int < 0x80
    ensures |r| == |s| && forall i :: 0 <= i < |s| ==> r[i] == s[i] as int
  {
    var r := seq(|s|, i requires 0 <= i < |s| => AsByte(s[i]));
    assert forall i :: 0 <= i < |r| ==> r[i] == s[i] as int && r[i] != 0;
    r
  }

  function AsByte(c: char): byte {
    c as int % 0x80
  }

  function EmptyRequest(): Text { Ascii("Empty request") }
  function UnknownReqId(): Text { Ascii("Unknown req id") }
  function UnknownRequest(): Text { Ascii("Unknown request") }
  function UnknownRequestId(): Text { Ascii("Unknown request id") }

  /** A C string: everything up to the first NUL. */
  function CString(s: seq<byte>): (r: seq<byte>)
    ensures r <= s && 0 !in r && (|r| < |s| ==> s[|r|] == 0)
    ensures 0 !in s ==> r == s
  {
    if s == [] || s[0] == 0 then [] else [s[0]] + CString(s[1..])
  }

  // ---------------------------------------------------------------- serving requests

  /** What a handler leaves behind: an error text or NULL, and the response chain it built. */
  datatype Outcome = Outcome(error: Option<Text>, responses: seq<Object>)

  /** A handler. Its answers may depend on how many requests have been handled before. */
  type Handler = (nat, seq<Object>) -> Outcome

  type Handlers = map<seq<byte>, Handler>

  /** The objects of the request at hand, and how many requests have been handled. */
  datatype Server = Server(objects: seq<Object>, served: nat)

  function RequestNew(s: Server): Server {
    s.(objects := [])
  }

  function RequestObject(s: Server, o: Object): Server {
    if |s.objects| >= MAX_RECEIVING_OBJECTS then s else s.(objects := s.objects + [o])
  }

  /** The objects of a request that are kept for its handler. */
  function Considered(objects: seq<Object>): (r: seq<Object>)
    ensures r <= objects && |r| == if |objects| <= 32 then |objects| else 32
    ensures |objects| <= 32 ==> r == objects
  {
    if |objects| <= MAX_RECEIVING_OBJECTS then objects else objects[..MAX_RECEIVING_OBJECTS]
  }

  lemma ConsideredNext(objects: seq<Object>, o: Object, served: nat)
    ensures RequestObject(Server(Considered(objects), served), o) == Server(Considered(objects + [o]), served)
  {
    if |objects| >= MAX_RECEIVING_OBJECTS {
      assert (objects + [o])[..MAX_RECEIVING_OBJECTS] == Considered(objects);
    }
  }

  /** Which handler a request is for, or why there is none. */
  function Dispatch(handlers: Handlers, objects: seq<Object>): (Option<Handler>, Text) {
    if objects == [] then (None, EmptyRequest())
    else
      match Lookup.FirstMatch(objects[0], KEY_ID, None)
      case None => (None, UnknownReqId())
      case Some(id) =>
        var name := CString(id.value);
        if name in handlers then (Some(handlers[name]), UnknownRequest()) else (None, UnknownRequest())
  }

  /** What the server has to say to a request: an error text, or response objects. */
  function Answer(handlers: Handlers, s: Server): Outcome {
    match Dispatch(handlers, s.objects)
    case (None, text) => Outcome(Some(text), [])
    case (Some(handler), _) => handler(s.served, s.objects)
  }

  /**
   * The answer, case by case: the handler registered under the first ID of the first object, up
   * to its first NUL, is called with all objects; or there is none, for one of three reasons.
   */
  lemma AnswerIs(handlers: Handlers, s: Server)
    ensures s.objects == [] ==> Answer(handlers, s) == Outcome(Some(EmptyRequest()), [])
    ensures s.objects != [] && (forall p :: p in s.objects[0] ==> p.key != KEY_ID) ==>
              Answer(handlers, s) == Outcome(Some(UnknownReqId()), [])
    ensures s.objects != [] ==> var o := s.objects[0];
      forall i :: 0 <= i < |o| && o[i].key == KEY_ID && (forall j :: 0 <= j < i ==> o[j].key != KEY_ID) ==>
        var name := CString(o[i].value);
        if name in handlers then Answer(handlers, s) == handlers[name](s.served, s.objects)
        else Answer(handlers, s) == Outcome(Some(UnknownRequest()), [])
  {
  }

  /** A request without a handler does not count as handled. */
  function Served(handlers: Handlers, s: Server): Server {
    if Dispatch(handlers, s.objects).0.Some? then s.(served := s.served + 1) else s
  }

  /** The bytes of the response. The number of objects is handed to proto_send in 8 bits. */
  function ResponseBytes(a: Outcome, id: u16): (r: seq<byte>)
    ensures r == [] <==> a.error.Some? || a.responses == []
  {
    if a.error.Some? || a.responses == [] then []
    else Encode(Message(FLAG_RESPONSE, id, a.responses[..|a.responses| % 0x100]))
  }

  // ---------------------------------------------------------------- one peer

  /** Which of the three user callbacks of the current request are not NULL. */
  datatype Bindings = Bindings(onObject: bool, onResponse: bool, onError: bool)

  datatype UserCall = ObjectArrived(index: byte, properties: Object) | Succeeded | Failed(text: seq<byte>)

  /**
   * One peer: the request processor, the server state when it serves requests (`None` when
   * its incoming callbacks are NULL), the user callbacks made so far, and the bytes written
   * to the socket. `defined` is lost when C leaves what happens undefined.
   */
  datatype Peer = Peer(
    currentId: u16,
    objectNum: byte,
    notifyError: bool,
    errorStr: seq<byte>,
    bindings: Bindings,
    incoming: Option<Server>,
    calls: seq<UserCall>,
    out: seq<byte>,
    defined: bool)

  function ClientStart(): Peer {
    Peer(0, 0, false, [], Bindings(false, false, false), None, [], [], true)
  }

  function ServerStart(): Peer {
    Peer(0, 0, false, [], Bindings(false, false, false), Some(Server([], 0)), [], [], true)
  }

  /** proto_req_new_request. */
  function OnStart(u: Peer, h: Header): Peer {
    if !u.defined || IsResponse(h.flags) || u.incoming == None then u
    else u.(incoming := Some(RequestNew(u.incoming.value)))
  }

  /** The object of a response to the current request. */
  function OnResponseObject(u: Peer, h: Header, received: Received): Peer {
    if IsError(h.flags) then
      if u.objectNum != 0 then u
      else if !received.Readable? then u.(defined := false)
      else
        match Lookup.FirstMatch(received.properties, KEY_ERROR, None)
        case None => u
        case Some(p) =>
          if |p.value| > ERROR_STR then u.(defined := false)
          else u.(errorStr := p.value, notifyError := true)
    else if !u.bindings.onObject then u
    else if !received.Readable? then u.(defined := false)
    else
      u.(calls := u.calls + [ObjectArrived(u.objectNum, received.properties)], objectNum := (u.objectNum + 1) % 0x100)
  }

  /** The object of a request from the other side. */
  function OnRequestObject(u: Peer, received: Received): Peer {
    match u.incoming
    case None => u
    case Some(s) =>
      if |s.objects| >= MAX_RECEIVING_OBJECTS then u
      else if !received.Readable? then u.(defined := false)
      else u.(incoming := Some(RequestObject(s, received.properties)))
  }

  /** proto_req_object_callback. */
  function OnObject(u: Peer, h: Header, received: Received): Peer {
    if !u.defined then u
    else if !IsResponse(h.flags) then OnRequestObject(u, received)
    else if u.currentId != h.id then u
    else OnResponseObject(u, h, received)
  }

  /** The end of a response to the current request. */
  function OnResponseEnd(u: Peer): Peer {
    if u.notifyError then
      u.(notifyError := false,
         calls := if u.bindings.onError then u.calls + [Failed(CString(u.errorStr))] else u.calls)
    else if u.bindings.onResponse then u.(calls := u.calls + [Succeeded])
    else u.(defined := false)
  }

  /** The end of a request from the other side. */
  function OnRequestEnd(handlers: Handlers, u: Peer, h: Header): (Peer, Option<Text>) {
    match u.incoming
    case None => (u.(defined := false), None)
    case Some(s) =>
      var a := Answer(handlers, s);
      (u.(incoming := Some(Served(handlers, s)), out := u.out + ResponseBytes(a, h.id)), a.error)
  }

  /** proto_req_recv. */
  function OnComplete(handlers: Handlers, u: Peer, h: Header): (Peer, Option<Text>) {
    if !u.defined then (u, None)
    else if !IsResponse(h.flags) then OnRequestEnd(handlers, u, h)
    else if u.currentId != h.id then (u, Some(UnknownRequestId()))
    else (OnResponseEnd(u), None)
  }

  function OnSend(u: Peer, bytes: seq<byte>): (Peer, bool) {
    (if u.defined then u.(out := u.out + bytes) else u, true)
  }

  function PeerCallbacks(handlers: Handlers): Callbacks<Peer> {
    Callbacks(OnStart, OnObject, (u, h) => OnComplete(handlers, u, h), OnSend)
  }

  /** proto_req_send_request: a new id, nothing received yet, and the request on its way. */
  function SendRequest(u: Peer, o: Object, bindings: Bindings): Peer {
    var id := Add16(u.currentId, 1);
    u.(currentId := id, objectNum := 0, notifyError := false, bindings := bindings,
       out := u.out + Encode(Message(0, id, [o])))
  }

  // ---------------------------------------------------------------- stale responses

  ghost predicate Stale(u: Peer, e: Event) {
    IsResponse(e.header.flags) && e.header.id != u.currentId && (e.Delivered? ==> e.received != Overrun)
  }

  /** The error responses that a peer sends for stale responses: one for each that completes. */
  function StaleReplies(events: seq<Event>): seq<byte>
    decreases |events|
  {
    if events == [] then []
    else (if events[0].Completed? then Encode(ErrorReply(UnknownRequestId(), events[0].header.id)) else [])
         + StaleReplies(events[1..])
  }

  /**
   * Stale response isolation: whatever arrives in responses to other requests, readable or
   * not, no user callback is made and nothing about the current request changes. But each of
   * them is answered.
   */
  lemma {:induction false} StaleIsolation(handlers: Handlers, u: Peer, events: seq<Event>)
    requires u.defined && forall e :: e in events ==> Stale(u, e)
    ensures Run(PeerCallbacks(handlers), Session(u, Alive), events) ==
            Session(u.(out := u.out + StaleReplies(events)), Alive)
    decreases |events|
  {
    hide Encode;
    var cb := PeerCallbacks(handlers);
    if events == [] {
      assert u.out + [] == u.out;
      RunNone(cb, Session(u, Alive));
    } else {
      var e, rest := events[0], events[1..];
      assert Stale(u, e);
      var reply := if e.Completed? then Encode(ErrorReply(UnknownRequestId(), e.header.id)) else [];
      var u' := u.(out := u.out + reply);
      assert u.out + [] == u.out;
      assert Apply(cb, Session(u, Alive), e) == Session(u', Alive);
      forall e' | e' in rest
        ensures Stale(u', e')
      {
        assert e' in events;
      }
      StaleIsolation(handlers, u', rest);
      Assoc(u.out, reply, StaleReplies(rest));
    }
  }

  /** Whatever arrives in responses to the current request, nothing is sent. */
  lemma {:induction false} MatchedUnanswered(handlers: Handlers, s: Session<Peer>, events: seq<Event>)
    requires forall e :: e in events ==> IsResponse(e.header.flags) && e.header.id == s.user.currentId
    ensures var s' := Run(PeerCallbacks(handlers), s, events);
            s'.user.out == s.user.out && s'.user.incoming == s.user.incoming
    decreases |events|
  {
    hide Encode, Answer;
    if events != [] {
      var e, rest := events[0], events[1..];
      assert e in events;
      var s' := Apply(PeerCallbacks(handlers), s, e);
      assert s'.user.out == s.user.out && s'.user.incoming == s.user.incoming;
      forall e' | e' in rest
        ensures IsResponse(e'.header.flags) && e'.header.id == s'.user.currentId
      {
        assert e' in events;
      }
      MatchedUnanswered(handlers, s', rest);
    }
  }
}
