/** The objects of one side of a connection together: the receiver, and the processor behind its callbacks. */
module Connection {
  import opened Bytes
  import opened Objects
  import opened Messages
  import opened Parser
  import opened Receiver
  import opened Requests
  import opened RequestHandlers
  import opened RequestProcessor
  import opened HashTable
  import opened Endpoints

  /** What a receiver with the callbacks of a peer amounts to. */
  ghost function EndpointOf(r: Receiver<Peer>): Endpoint
    requires r.Layout()
    reads r, r.mem
  {
    Endpoint(r.CurrentControl(), r.Pending(), Session(r.user, r.status))
  }

  /** The callbacks of a processor, called for these events as a receiver calls them. */
  method HandleAll(p: Processor, events: seq<Event>) returns (status: Status)
    requires p.Valid()
    modifies p, p.errorStr, p.Others()
    ensures p.Valid() && p.Names() == old(p.Names())
    ensures Session(p.State(), status) ==
            Run(PeerCallbacks(old(p.Names())), Session(old(p.State()), Alive), events)
  {
    hide OnStart, OnObject, OnComplete, Run, Encode, Processor.Valid, Processor.State, Processor.Names;
    ghost var cb, s0 := PeerCallbacks(p.Names()), Session(p.State(), Alive);
    status := Alive;
    RunNone(cb, s0);
    var i := 0;
    while i < |events|
      invariant i <= |events| && p.Valid() && p.Names() == old(p.Names())
      invariant status == Alive && Run(cb, s0, events[..i]) == Session(p.State(), Alive)
    {
      ghost var u := p.State();
      RunAppend(cb, s0, events[..i], [events[i]]);
      RunOne(cb, Session(u, Alive), events[i]);
      assert events[..i + 1] == events[..i] + [events[i]];
      match events[i] {
        case Started(h) =>
          p.NewRequest(h);
        case Delivered(h, received) =>
          if received == Overrun {
            status := Undefined;
            RunAppend(cb, s0, events[..i + 1], events[i + 1..]);
            RunDead(cb, Session(u, Undefined), events[i + 1..]);
            assert events == events[..i + 1] + events[i + 1..];
            return;
          }
          p.NewObject(h, received);
        case Completed(h) =>
          var err := p.Recv(h);
          if err.Some? {
            p.Write(Encode(ErrorReply(err.value, h.id)));
          }
      }
      i := i + 1;
    }
    assert events[..i] == events;
  }

  /**
   * One arrival, as the transition system of the whole network sees it: the receiver goes
   * where `Receive` goes, and the processor goes along with it.
   */
  method Arrive(r: Receiver<Peer>, p: Processor, chunk: seq<byte>) returns (ok: bool)
    requires r.Valid() && r.status == Alive && 0 < |chunk| <= r.bufferSize - r.totalReceived
    requires p.Valid() && p.State() == r.user && r.cb == PeerCallbacks(p.Names()) && r.mem != p.errorStr
    modifies r, r.mem, p, p.errorStr, p.Others()
    ensures r.Valid() && p.Valid() && p.State() == r.user && p.Names() == old(p.Names())
    ensures var e := Receive(old(p.Names()), r.ptr, old(EndpointOf(r)), chunk);
            EndpointOf(r).session == e.session && (ok ==> EndpointOf(r) == e)
  {
    hide Parse, Run, PeerCallbacks, Pow256, ServerHandlers.Valid, ServerHandlers.State, Entries;
    var pending := r.mem[r.buffer..r.buffer + r.totalReceived] + chunk;
    var events := Parse(r.ptr, r.CurrentControl(), pending).events;
    var status := HandleAll(p, events);
    ok := r.RecvProcess(chunk);
  }
}
