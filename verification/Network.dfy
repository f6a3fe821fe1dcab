/**
 * Two peers with a byte channel in each direction, as a transition system. Each may issue
 * requests to the other, one at a time, if the other serves any. Bytes may be delivered in any
 * pieces the receive buffers afford, at any time.
 */
module Network {
  import opened Bytes
  import opened Objects
  import opened Messages
  import opened Parser
  import opened Receiver
  import opened Requests
  import opened Endpoints

  /** Without handlers, a peer serves no requests. */
  datatype Party = Party(ptr: nat, buffer: u16, handlers: Option<Handlers>)

  datatype Config = Config(here: Party, there: Party)

  /** A peer, the bytes under way to it, the requests it has issued, and all it ever wrote. */
  datatype Side = Side(end: Endpoint, inbox: seq<byte>, requests: seq<Object>, wrote: seq<byte>)

  datatype Net = Net(here: Side, there: Side)

  datatype Action = Issue(here: bool, request: Object) | Deliver(here: bool, n: nat)

  /** The network as seen from the other side. */
  function Mirror(net: Net): Net {
    Net(net.there, net.here)
  }

  function Across(cfg: Config): Config {
    Config(cfg.there, cfg.here)
  }

  function HandlersOf(p: Party): Handlers {
    match p.handlers
    case None => map[]
    case Some(handlers) => handlers
  }

  function StartSide(p: Party): Side {
    var u := if p.handlers == None then ClientStart() else ServerStart();
    Side(Endpoint(INITIAL, [], Session(u, Alive)), [], [], [])
  }

  function Initial(cfg: Config): Net {
    Net(StartSide(cfg.here), StartSide(cfg.there))
  }

  /** Requests that the user has been told the end of. */
  function Ended(calls: seq<UserCall>): nat {
    if calls == [] then 0
    else Ended(calls[..|calls| - 1]) + if calls[|calls| - 1].ObjectArrived? then 0 else 1
  }

  function CallsOf(side: Side): seq<UserCall> {
    side.end.session.user.calls
  }

  predicate Outstanding(side: Side) {
    Ended(CallsOf(side)) < |side.requests|
  }

  /** A request object that this party can receive. */
  ghost predicate Requestable(p: Party, o: Object) {
    |Wire(o)| + 2 < 0x1_0000 && TableSize(|o|, p.ptr) <= OBJECT_BUFFER && |Wire(o)| <= p.buffer
  }

  /** What may happen here: a request when none is outstanding, or bytes that arrive. */
  ghost predicate EnabledHere(cfg: Config, net: Net, a: Action) {
    match a
    case Issue(_, o) => !Outstanding(net.here) && cfg.there.handlers.Some? && Requestable(cfg.there, o)
    case Deliver(_, n) =>
      && net.here.end.session.status == Alive
      && 0 < n <= |net.here.inbox| && |net.here.end.rest| + n <= cfg.here.buffer
  }

  ghost predicate Enabled(cfg: Config, net: Net, a: Action) {
    if a.here then EnabledHere(cfg, net, a) else EnabledHere(Across(cfg), Mirror(net), a)
  }

  /** Takes what a peer has written from it. */
  function Drained(e: Endpoint): Endpoint {
    e.(session := e.session.(user := e.session.user.(out := [])))
  }

  /** What has been written here gets under way. */
  function Flush(net: Net): Net {
    var out := net.here.end.session.user.out;
    Net(net.here.(end := Drained(net.here.end), wrote := net.here.wrote + out),
        net.there.(inbox := net.there.inbox + out))
  }

  function IssueHere(net: Net, o: Object): Net {
    var s := net.here.end.session;
    var s' := s.(user := SendRequest(s.user, o, Bindings(true, true, true)));
    Flush(net.(here := net.here.(end := net.here.end.(session := s'), requests := net.here.requests + [o])))
  }

  function DeliverHere(cfg: Config, net: Net, n: nat): Net {
    if n > |net.here.inbox| then net
    else
      var e := Receive(HandlersOf(cfg.here), cfg.here.ptr, net.here.end, net.here.inbox[..n]);
      Flush(net.(here := net.here.(end := e, inbox := net.here.inbox[n..])))
  }

  function NextHere(cfg: Config, net: Net, a: Action): Net {
    match a
    case Issue(_, o) => IssueHere(net, o)
    case Deliver(_, n) => DeliverHere(cfg, net, n)
  }

  function Next(cfg: Config, net: Net, a: Action): Net {
    if a.here then NextHere(cfg, net, a) else Mirror(NextHere(Across(cfg), Mirror(net), a))
  }

  /** What a sequence of actions leads to. */
  function Steps(cfg: Config, net: Net, actions: seq<Action>): Net {
    if actions == [] then net
    else Next(cfg, Steps(cfg, net, actions[..|actions| - 1]), actions[|actions| - 1])
  }

  /** Each of these actions is possible in turn. */
  ghost predicate Possible(cfg: Config, net: Net, actions: seq<Action>) {
    actions != [] ==>
      var before := actions[..|actions| - 1];
      Possible(cfg, net, before) && Enabled(cfg, Steps(cfg, net, before), actions[|actions| - 1])
  }

  /** `net` is reached from the initial state by these actions. */
  ghost predicate Reaches(cfg: Config, actions: seq<Action>, net: Net) {
    Possible(cfg, Initial(cfg), actions) && net == Steps(cfg, Initial(cfg), actions)
  }

  ghost predicate OnlyDeliveries(actions: seq<Action>) {
    forall a :: a in actions ==> a.Deliver?
  }

  // ---------------------------------------------------------------- pieces

  /** A session in which this has been written before. */
  function WroteBefore(x: seq<byte>, s: Session<Peer>): Session<Peer> {
    s.(user := s.user.(out := x + s.user.out))
  }

  lemma ApplyWrote(handlers: Handlers, x: seq<byte>, s: Session<Peer>, e: Event)
    ensures Apply(PeerCallbacks(handlers), WroteBefore(x, s), e) ==
            WroteBefore(x, Apply(PeerCallbacks(handlers), s, e))
  {
    hide Encode, Answer, Served, ResponseBytes;
    var u := s.user;
    if e.Completed? && s.status == Alive {
      match OnComplete(handlers, u, e.header).1
      case None =>
        if !IsResponse(e.header.flags) && u.incoming.Some? {
          Assoc(x, u.out, ResponseBytes(Answer(handlers, u.incoming.value), e.header.id));
        }
      case Some(text) =>
        var u' := OnComplete(handlers, u, e.header).0;
        Assoc(x, u'.out, Encode(ErrorReply(text, e.header.id)));
        if !IsResponse(e.header.flags) && u.incoming.Some? {
          Assoc(x, u.out, ResponseBytes(Answer(handlers, u.incoming.value), e.header.id));
        }
    }
  }

  /** What a peer does with events does not depend on what it has written. */
  lemma {:induction false} RunWrote(handlers: Handlers, x: seq<byte>, s: Session<Peer>, events: seq<Event>)
    ensures Run(PeerCallbacks(handlers), WroteBefore(x, s), events) ==
            WroteBefore(x, Run(PeerCallbacks(handlers), s, events))
    decreases |events|
  {
    hide Apply, PeerCallbacks, WroteBefore;
    if events != [] {
      ApplyWrote(handlers, x, s, events[0]);
      RunWrote(handlers, x, Apply(PeerCallbacks(handlers), s, events[0]), events[1..]);
    }
  }

  /** Two deliveries in a row are one: only the bytes matter, not the pieces. */
  lemma DeliverTwice(cfg: Config, net: Net, n: nat, k: nat)
    requires n + k <= |net.here.inbox|
    ensures DeliverHere(cfg, DeliverHere(cfg, net, n), k) == DeliverHere(cfg, net, n + k)
  {
    hide Run, PeerCallbacks, Parse;
    var h, ptr, e, inbox := HandlersOf(cfg.here), cfg.here.ptr, net.here.end, net.here.inbox;
    var a, b := inbox[..n], inbox[n..][..k];
    assert a + b == inbox[..n + k] && inbox[n..][k..] == inbox[n + k..];
    ReceiveTwice(h, ptr, e, a, b);
    var e1 := Receive(h, ptr, e, a);
    var x := e1.session.user.out;
    RunWrote(h, x, Drained(e1).session, Parse(ptr, e1.control, e1.rest + b).events);
    assert x + [] == x;
    assert WroteBefore(x, Drained(e1).session) == e1.session;
    var y := Receive(h, ptr, Drained(e1), b).session.user.out;
    Assoc(net.here.wrote, x, y);
    Assoc(net.there.inbox, x, y);
  }

  // ---------------------------------------------------------------- what should happen

  /** How many of these requests a peer with these handlers finds a handler for. */
  function Handled(handlers: Handlers, requests: seq<Object>): nat {
    if requests == [] then 0
    else
      var k := |requests| - 1;
      var before := Handled(handlers, requests[..k]);
      Served(handlers, Server([requests[k]], before)).served
  }

  /** The answer to the last of these requests. */
  function LastAnswer(handlers: Handlers, requests: seq<Object>): Outcome
    requires requests != []
  {
    var k := |requests| - 1;
    Answer(handlers, Server([requests[k]], Handled(handlers, requests[..k])))
  }

  /** The user callbacks these requests should lead to, one request after the other. */
  function Transcript(handlers: Handlers, requests: seq<Object>): seq<UserCall> {
    if requests == [] then []
    else Transcript(handlers, requests[..|requests| - 1]) + Calls(LastAnswer(handlers, requests))
  }

  function RequestId(requests: seq<Object>): u16 {
    |requests| % 0x1_0000
  }

  function LastRequest(requests: seq<Object>): Message
    requires requests != []
  {
    RequestMessage(requests[|requests| - 1], RequestId(requests))
  }

  /** The reply to the last of these requests. */
  function LastReply(handlers: Handlers, requests: seq<Object>): Message
    requires requests != []
  {
    ReplyWith(LastAnswer(handlers, requests), RequestId(requests))
  }

  /** The messages of these requests, numbered from 1. */
  function AllRequests(requests: seq<Object>): seq<Message> {
    if requests == [] then [] else AllRequests(requests[..|requests| - 1]) + [LastRequest(requests)]
  }

  /** One reply to each of these requests. */
  function AllReplies(handlers: Handlers, requests: seq<Object>): seq<Message> {
    if requests == [] then []
    else AllReplies(handlers, requests[..|requests| - 1]) + [LastReply(handlers, requests)]
  }

  /** An answer that reaches the party that asked: well formed, readable there, and not too big. */
  ghost predicate Receivable(p: Party, a: Outcome) {
    && GoodAnswer(a)
    && match a.error
       case Some(text) => |Wire(ErrorObject(text))| <= p.buffer
       case None =>
         && Sendable(a.responses)
         && forall o :: o in a.responses ==> TableSize(|o|, p.ptr) <= OBJECT_BUFFER && |Wire(o)| <= p.buffer
  }

  /** Every answer that `server` gives to `client` is receivable. */
  ghost predicate Serves(server: Party, client: Party) {
    server.handlers.Some? ==>
      forall served: nat, o :: Requestable(server, o) ==>
        Receivable(client, Answer(server.handlers.value, Server([o], served)))
  }

  /** Buffers hold a header, pointers have at most 8 bytes, and every answer is receivable. */
  ghost predicate WellBehaved(cfg: Config) {
    && 5 <= cfg.here.buffer && 5 <= cfg.there.buffer && cfg.here.ptr <= 8 && cfg.there.ptr <= 8
    && Serves(cfg.there, cfg.here) && Serves(cfg.here, cfg.there)
  }

  /**
   * A party serves another well when each of its handlers does, with a buffer there for the
   * error texts of the library itself.
   */
  lemma HandlersSuffice(server: Party, client: Party)
    requires 18 <= client.buffer
    requires server.handlers.Some? ==>
               forall name, served, objects :: name in server.handlers.value ==>
                 Receivable(client, server.handlers.value[name](served, objects))
    ensures Serves(server, client)
  {
    hide Wire, TableSize;
    if server.handlers.Some? {
      forall served: nat, o | Requestable(server, o)
        ensures Receivable(client, Answer(server.handlers.value, Server([o], served)))
      {
        ErrorObjectSize(UnknownReqId());
        ErrorObjectSize(UnknownRequest());
      }
    }
  }

  lemma ErrorObjectSize(text: Text)
    ensures |Wire(ErrorObject(text))| == if text == [] then 0 else 3 + |text|
  {
    var o := ErrorObject(text);
    if o != [] {
      assert Wire(o) == Record(o[0]) + Wire([]);
      assert o[1..] == [];
    }
  }
}
