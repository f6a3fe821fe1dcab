/**
 * The incremental receiver: a bounded buffer that arbitrary TCP fragments are received into,
 * processed from, and compacted in. Sockets and callbacks are parameters.
 */
module Receiver {
  import opened Bytes
  import opened Objects
  import opened Memory
  import opened Builder
  import opened Messages
  import opened Parser
  import Lookup
  import Reader
  import Writers

  /** The stack buffer that an error response is built in. */
  const REPLY_BUFFER: nat := 256

  /** An error text fits the stack buffer, and as a C string has no NUL inside. */
  type Text = t: seq<byte> | |t| <= 228 && 0 !in t

  /**
   * The three callbacks and the socket, as functions over the state `U` behind the `user`
   * pointer. Of the processor's fields they see the header of the message at hand. `complete`
   * returns an error text or NULL; `send` says whether the bytes could be sent.
   */
  datatype Callbacks<!U> = Callbacks(
    start: (U, Header) -> U,
    next: (U, Header, Received) -> U,
    complete: (U, Header) -> (U, Option<Text>),
    send: (U, seq<byte>) -> (U, bool))

  /** Whether the connection goes on, failed to send, or left what C defines. */
  datatype Status = Alive | SendFailed | Undefined

  datatype Session<U> = Session(user: U, status: Status)

  /** The object an error text is sent in: without a text, the property is dropped. */
  function ErrorObject(text: Text): Object {
    if text == [] then [] else [Property(KEY_ERROR, text)]
  }

  function ErrorReply(text: Text, id: u16): Message {
    Message(3, id, [ErrorObject(text)])
  }

  /** What one event does to the state behind the callbacks. */
  function Apply<U>(cb: Callbacks<U>, s: Session<U>, e: Event): Session<U> {
    if s.status != Alive then s
    else
      match e
      case Started(h) => Session(cb.start(s.user, h), Alive)
      case Delivered(h, received) =>
        if received == Overrun then Session(s.user, Undefined)
        else Session(cb.next(s.user, h, received), Alive)
      case Completed(h) =>
        var (u, err) := cb.complete(s.user, h);
        match err
        case None => Session(u, Alive)
        case Some(text) =>
          var (u', ok) := cb.send(u, Encode(ErrorReply(text, h.id)));
          Session(u', if ok then Alive else SendFailed)
  }

  function Run<U>(cb: Callbacks<U>, s: Session<U>, events: seq<Event>): Session<U>
    decreases |events|
  {
    if events == [] then s else Run(cb, Apply(cb, s, events[0]), events[1..])
  }

  lemma {:induction false} RunAppend<U>(cb: Callbacks<U>, s: Session<U>, a: seq<Event>, b: seq<Event>)
    ensures Run(cb, s, a + b) == Run(cb, Run(cb, s, a), b)
    decreases |a|
  {
    if a == [] {
      assert a + b == b;
    } else {
      hide Apply;
      assert (a + b)[1..] == a[1..] + b;
      RunAppend(cb, Apply(cb, s, a[0]), a[1..], b);
    }
  }

  lemma RunOne<U>(cb: Callbacks<U>, s: Session<U>, e: Event)
    ensures Run(cb, s, [e]) == Apply(cb, s, e)
  {
    hide Apply;
    assert [e][1..] == [];
    assert Run(cb, s, [e]) == Run(cb, Apply(cb, s, e), []);
  }

  lemma RunTwo<U>(cb: Callbacks<U>, s: Session<U>, e: Event, f: Event)
    ensures Run(cb, s, [e, f]) == Apply(cb, Apply(cb, s, e), f)
  {
    hide Apply;
    RunAppend(cb, s, [e], [f]);
    RunOne(cb, s, e);
    RunOne(cb, Apply(cb, s, e), f);
    assert [e] + [f] == [e, f];
  }

  /** Once a connection is not alive any more, nothing happens on it. */
  lemma {:induction false} RunDead<U>(cb: Callbacks<U>, s: Session<U>, events: seq<Event>)
    requires s.status != Alive
    ensures Run(cb, s, events) == s
    decreases |events|
  {
    if events != [] {
      RunDead(cb, s, events[1..]);
    }
  }

  /** The completion of a request whose error response cannot be sent. */
  ghost predicate SendFails<U>(cb: Callbacks<U>, u: U, e: Event) {
    e.Completed? &&
      var (u', err) := cb.complete(u, e.header);
      err.Some? && !cb.send(u', Encode(ErrorReply(err.value, e.header.id))).1
  }

  ghost predicate Overruns(e: Event) {
    e.Delivered? && e.received == Overrun
  }

  /**
   * How far a connection gets: up to the first error response that cannot be sent, or the first
   * object written past its buffer, after which no callback is called and nothing is sent; or,
   * if there is none, to the end, and then it is alive.
   */
  lemma {:induction false} ConnectionEnds<U>(cb: Callbacks<U>, u: U, events: seq<Event>) returns (k: nat)
    ensures k <= |events|
    ensures forall j :: 0 <= j < k ==>
              !SendFails(cb, Run(cb, Session(u, Alive), events[..j]).user, events[j]) && !Overruns(events[j])
    ensures var s := Run(cb, Session(u, Alive), events);
      && (s.status == Alive <==> k == |events|)
      && (k < |events| ==>
            var before := Run(cb, Session(u, Alive), events[..k]).user;
            if Overruns(events[k]) then s == Session(before, Undefined)
            else
              && SendFails(cb, before, events[k])
              && var (u', err) := cb.complete(before, events[k].header);
                 s == Session(cb.send(u', Encode(ErrorReply(err.value, events[k].header.id))).0, SendFailed))
    decreases |events|
  {
    hide Run, Encode, Apply, SendFails;
    if events == [] {
      RunNone(cb, Session(u, Alive));
      return 0;
    }
    var n := |events| - 1;
    var init, e := events[..n], events[n];
    k := ConnectionEnds(cb, u, init);
    forall j | 0 <= j <= n
      ensures init[..j] == events[..j]
    {
    }
    assert init + [e] == events;
    var s := Run(cb, Session(u, Alive), init);
    RunAppend(cb, Session(u, Alive), init, [e]);
    RunOne(cb, s, e);
    if s.status != Alive {
      ApplyDead(cb, s, e);
    } else {
      LastEvent(cb, s.user, e);
      if !SendFails(cb, s.user, e) && !Overruns(e) {
        k := k + 1;
      }
    }
  }

  lemma LastEvent<U>(cb: Callbacks<U>, u: U, e: Event)
    ensures var s := Apply(cb, Session(u, Alive), e);
      && (s.status == Alive <==> !SendFails(cb, u, e) && !Overruns(e))
      && (Overruns(e) ==> s == Session(u, Undefined))
      && (SendFails(cb, u, e) ==>
            var (u', err) := cb.complete(u, e.header);
            s == Session(cb.send(u', Encode(ErrorReply(err.value, e.header.id))).0, SendFailed))
  {
    hide Encode;
    match e
    case Started(h) =>
    case Delivered(h, received) =>
    case Completed(h) =>
      var r := cb.complete(u, h);
      if r.1.Some? {
        var bytes := Encode(ErrorReply(r.1.value, h.id));
        assert SendFails(cb, u, e) <==> !cb.send(r.0, bytes).1;
      } else {
        assert !SendFails(cb, u, e);
      }
  }

  lemma RunNone<U>(cb: Callbacks<U>, s: Session<U>)
    ensures Run(cb, s, []) == s
  {
  }

  lemma ApplyDead<U>(cb: Callbacks<U>, s: Session<U>, e: Event)
    requires s.status != Alive
    ensures Apply(cb, s, e) == s
  {
  }

  class Receiver<U> {
    const cb: Callbacks<U>
    const ptr: nat
    const mem: array<byte>
    const buffer: nat       // process_buffer
    const bufferSize: u16
    const objectBuffer: nat // the stack buffer objects are read into
    const replyBuffer: nat  // the stack buffer error responses are built in

    var phase: Phase
    var recvFlags: byte
    var recvSize: u16
    var requestId: u16
    var recvConsumed: u16
    var recvObjectSize: u16
    var totalReceived: u16
    var totalConsumed: u16
    var recvObjectsNum: byte

    var user: U
    var status: Status
    ghost const initial: U
    ghost var history: seq<byte>  // every byte ever received

    /**
     * The buffers do not overlap, and the stack goes on behind the one for objects, at least
     * as far as any object in the receive buffer can be written past it.
     */
    ghost predicate Layout()
      reads this
    {
      && 0 < ptr <= 8
      && 0 < buffer && buffer + bufferSize <= objectBuffer
      && objectBuffer + OBJECT_BUFFER <= replyBuffer
      && replyBuffer + REPLY_BUFFER <= mem.Length <= Pow256(ptr)
      && objectBuffer + TableSize(bufferSize / 3, ptr) <= mem.Length
      && totalReceived <= bufferSize
    }

    function CurrentHeader(): Header
      reads this
    {
      Header(recvFlags, recvSize, requestId)
    }

    function CurrentControl(): Control
      reads this
    {
      Control(phase, CurrentHeader(), recvConsumed, recvObjectSize, recvObjectsNum)
    }

    /** The bytes in the buffer that have not been processed yet. */
    ghost function Pending(): seq<byte>
      requires Layout()
      reads this, mem
    {
      mem[buffer..buffer + totalReceived]
    }

    /**
     * The receiver is where its whole history puts it: the callbacks have seen the events of
     * the concatenated stream, the state is the parser's, the buffer holds the leftover.
     */
    ghost predicate Valid()
      reads this, mem
    {
      && Layout()
      && var p := Parse(ptr, INITIAL, history);
         && Run(cb, Session(initial, Alive), p.events) == Session(user, status)
         && (status == Alive ==> CurrentControl() == p.control && Pending() == p.rest)
    }

    /** proto_init. */
    constructor (cb: Callbacks<U>, ptr: nat, mem: array<byte>, buffer: nat, bufferSize: u16,
                 objectBuffer: nat, replyBuffer: nat, user: U)
      requires 0 < ptr <= 8 && 0 < buffer && buffer + bufferSize <= objectBuffer
      requires objectBuffer + OBJECT_BUFFER <= replyBuffer
      requires replyBuffer + REPLY_BUFFER <= mem.Length <= Pow256(ptr)
      requires objectBuffer + TableSize(bufferSize / 3, ptr) <= mem.Length
      ensures Valid() && fresh(this) && history == [] && status == Alive
      ensures this.cb == cb && this.ptr == ptr && this.mem == mem && this.bufferSize == bufferSize
      ensures this.user == this.initial == user && totalReceived == 0
    {
      this.cb, this.ptr, this.mem := cb, ptr, mem;
      this.buffer, this.bufferSize := buffer, bufferSize;
      this.objectBuffer, this.replyBuffer := objectBuffer, replyBuffer;
      phase, recvFlags, recvSize, requestId, recvConsumed, recvObjectSize := RecvHeader, 0, 0, 0, 0, 0;
      totalReceived, totalConsumed, recvObjectsNum := 0, 0, 0;
      this.user, this.initial, status, history := user, user, Alive, [];
      new;
      assert Pending() == [];
    }

    /** The header state: take in five bytes and report a new request. */
    method TakeHeader(data: nat)
      requires Layout() && data + 5 <= mem.Length && phase == RecvHeader
      modifies this
      ensures Layout() && unchanged(`totalReceived, `status, `history)
      ensures phase == RecvObjectSize && totalConsumed == Add16(old(totalConsumed), 5)
      ensures var s := mem[data..data + 5];
        && Step(ptr, old(CurrentControl()), s) == Took(5, [Started(HeaderAt(s))], CurrentControl())
        && Session(user, Alive) == Apply(cb, Session(old(user), Alive), Started(HeaderAt(s)))
        && user == cb.start(old(user), CurrentHeader())
    {
      var s := mem[data..data + 5];
      recvFlags, recvSize, requestId := s[0], U16At(s, 1), U16At(s, 3);
      recvConsumed := 0;
      recvObjectsNum := 0;
      totalConsumed := Add16(totalConsumed, 5);
      phase := RecvObjectSize;
      user := cb.start(user, CurrentHeader());
    }

    /** The object size state: take in two bytes. */
    method TakeObjectSize(data: nat)
      requires Layout() && data + 2 <= mem.Length && phase == RecvObjectSize
      modifies this
      ensures Layout() && unchanged(`totalReceived, `user, `status, `history)
      ensures phase == RecvObject && totalConsumed == Add16(old(totalConsumed), 2)
      ensures recvObjectSize == U16At(mem[data..data + 2], 0)
      ensures Step(ptr, old(CurrentControl()), mem[data..data + 2]) == Took(2, [], CurrentControl())
    {
      recvObjectSize := U16At(mem[data..data + 2], 0);
      totalConsumed := Add16(totalConsumed, 2);
      recvConsumed := Add16(recvConsumed, 2);
      phase := RecvObject;
    }

    /** Everything in memory below the stack buffers is as it was. */
    ghost predicate Untouched(m: seq<byte>, m': seq<byte>) {
      |m'| == |m| && objectBuffer <= |m| && m'[..objectBuffer] == m[..objectBuffer]
    }

    /**
     * Reads the object at `data` into the object buffer and hands it to the callback, unless
     * that has written past the object buffer, over the rest of the stack.
     */
    method DeliverObject(data: nat)
      requires Layout() && status == Alive && phase == RecvObject
      requires buffer <= data && data + recvObjectSize <= buffer + totalReceived
      modifies this`user, this`status, mem
      ensures Layout() && Untouched(old(mem[..]), mem[..])
      ensures Session(user, status) ==
              Apply(cb, Session(old(user), Alive),
                    Delivered(CurrentHeader(), ReadObject(old(mem[data..data + recvObjectSize]), OBJECT_BUFFER, ptr)))
      ensures var r := ReadObject(old(mem[data..data + recvObjectSize]), OBJECT_BUFFER, ptr);
        if r == Overrun then status == Undefined && user == old(user)
        else status == Alive && user == cb.next(old(user), CurrentHeader(), r)
    {
      hide ReadObject, ParseRecords, Holds, Wire, TableSize, PointerBytes, Pow256, Reader.PointedAt, Parse, Step, Run;
      ghost var m := mem[..];
      assert m[data..data + recvObjectSize] == mem[data..data + recvObjectSize];
      if ParseRecords(m[data..data + recvObjectSize]).Some? {
        OverrunFits(m[data..data + recvObjectSize]);
      }
      var code, top := Reader.Read(mem, objectBuffer, ptr, OBJECT_BUFFER, recvObjectSize, data);
      if top > objectBuffer + OBJECT_BUFFER {
        PointedAtElsewhere(m, objectBuffer, ptr, data, ParseRecords(m[data..data + recvObjectSize]).value);
        status := Undefined;
        return;
      }
      var received: Received;
      if code == 0 {
        ghost var o := ReadObject(m[data..data + recvObjectSize], OBJECT_BUFFER, ptr).properties;
        assert m[data..data + recvObjectSize] == old(mem[data..data + recvObjectSize]);
        PointedAtElsewhere(m, objectBuffer, ptr, data, o);
        var view := Lookup.Walk(mem, objectBuffer, ptr, data, o);
        received := Readable(view);
      } else {
        received := Unreadable(code);
      }
      user := cb.next(user, CurrentHeader(), received);
    }

    /** An object takes three bytes of the buffer for each pointer in its table. */
    lemma OverrunFits(s: seq<byte>)
      requires Layout() && |s| <= bufferSize && ParseRecords(s).Some?
      ensures objectBuffer + TableSize(|ParseRecords(s).value|, ptr) <= mem.Length
    {
      hide ParseRecords, Wire, PointerBytes, Pow256;
      var o := ParseRecords(s).value;
      WireParse(s);
      WireSize(o);
      PointerBytesMonotone(|o| + 1, bufferSize / 3 + 1, ptr);
    }

    /** The end of a message: the callback, and an error response if it returns an error. */
    method CompleteRequest()
      requires Layout() && status == Alive
      modifies this`user, this`status, mem
      ensures Layout() && Untouched(old(mem[..]), mem[..])
      ensures Session(user, status) == Apply(cb, Session(old(user), Alive), Completed(CurrentHeader()))
      ensures var (u, err) := cb.complete(old(user), CurrentHeader());
        match err
        case None => user == u && status == Alive
        case Some(text) =>
          var (u', ok) := cb.send(u, Encode(ErrorReply(text, requestId)));
          user == u' && status == if ok then Alive else SendFailed
    {
      hide Holds, Owns, Wire, PointerBytes, Pow256, LaidOut, Parse, Step, Run, Encode;
      var (u, err) := cb.complete(user, CurrentHeader());
      user := u;
      if err.Some? {
        var sent := SendError(err.value);
        var (u', ok) := cb.send(user, sent);
        user := u';
        if !ok {
          status := SendFailed;
        }
      }
    }

    /** declare_object_on_stack and proto_send_one for an error text. */
    method SendError(text: Text) returns (sent: seq<byte>)
      requires Layout()
      modifies mem
      ensures Layout() && Untouched(old(mem[..]), mem[..])
      ensures sent == Encode(ErrorReply(text, requestId))
    {
      hide Holds, Owns, Pow256, LaidOut, Parse, Step, Run, Encode, Patch;
      var chain := Link(Property(KEY_ERROR, text), End);
      ghost var o, m := ErrorObject(text), mem[..];
      assert Kept(chain) == o;
      ErrorFits(text, ptr);
      hide Wire, OwnedSize;
      Assign(mem, replyBuffer, ptr, chain);
      LaidOutElsewhere(m, replyBuffer, ptr, o, 0, objectBuffer);
      ghost var m1 := mem[..];
      sent := Writers.SendOne(mem, replyBuffer, ptr, requestId, 3, o);
      var front := HeaderBytes(Header(3, Add16(|Wire(o)|, 2), requestId)) + Le16(|Wire(o)|);
      PatchMiss(m1, DataStart(replyBuffer, |o|, ptr) - RESERVED, front, 0, objectBuffer);
      assert mem[..][0..objectBuffer] == mem[..][..objectBuffer] && m[0..objectBuffer] == m[..objectBuffer];
    }

    /** The object state: deliver the object and, when it is the last one, complete the message. */
    method TakeObject(data: nat)
      requires Layout() && status == Alive && phase == RecvObject
      requires buffer <= data && data + recvObjectSize <= buffer + totalReceived
      modifies this, mem
      ensures Layout() && Untouched(old(mem[..]), mem[..]) && unchanged(`totalReceived, `history, `recvObjectSize)
      ensures var s := old(mem[data..data + recvObjectSize]); var r := Step(ptr, old(CurrentControl()), s);
              && r.Took? && r.took == |s|
              && Run(cb, Session(old(user), Alive), r.events) == Session(user, status)
              && (status == Alive ==> CurrentControl() == r.control && phase != RecvObject
                                      && totalConsumed == Add16(old(totalConsumed), |s|))
    {
      hide ReadObject, Apply, Run, Parse, Pow256, Encode, ErrorReply, TableSize, Wire, ParseRecords;
      ghost var m, u0, s, h := mem[..], user, mem[data..data + recvObjectSize], CurrentHeader();
      assert s[..recvObjectSize] == s;
      ghost var delivered := Delivered(h, ReadObject(s, OBJECT_BUFFER, ptr));
      DeliverObject(data);
      RunOne(cb, Session(u0, Alive), delivered);
      RunTwo(cb, Session(u0, Alive), delivered, Completed(h));
      if status != Alive {
        ApplyDead(cb, Session(user, status), Completed(h));
        return;
      }
      recvObjectsNum := (recvObjectsNum + 1) % 0x100;
      totalConsumed := Add16(totalConsumed, recvObjectSize);
      recvConsumed := Add16(recvConsumed, recvObjectSize);
      if recvConsumed >= recvSize {
        CompleteRequest();
        if status != Alive {
          return;
        }
        phase := RecvHeader;
      } else {
        phase := RecvObjectSize;
      }
    }

    /** process, the header case: `data` and `available` move on, and the next case is up. */
    method HeaderCase(ghost c0: Control, ghost s0: seq<byte>, ghost u0: Session<U>, ghost events: seq<Event>,
                      data: nat, available: nat) returns (data': nat, available': nat, ghost events': seq<Event>)
      requires Processing(c0, s0, u0, events, data, available) && phase == RecvHeader && available >= 5
      modifies this
      ensures unchanged(`totalReceived, `history) && phase == RecvObjectSize
      ensures available' == available - 5 && Processing(c0, s0, u0, events', data', available')
    {
      hide Step, Parse, Run, Apply, Pow256;
      ghost var c, u, at := CurrentControl(), user, totalConsumed;
      PendingAt(s0, at, 5);
      ghost var es := [Started(HeaderAt(s0[at..at + 5]))];
      TakeHeader(data);
      data', available', events' := data + 5, available - 5, events + es;
      RunOne(cb, Session(u, Alive), es[0]);
      Advanced(c0, s0, u0, events, c, u, at, 5, es, data', available');
    }

    /** process, the object size case. */
    method ObjectSizeCase(ghost c0: Control, ghost s0: seq<byte>, ghost u0: Session<U>, ghost events: seq<Event>,
                          data: nat, available: nat) returns (data': nat, available': nat, ghost events': seq<Event>)
      requires Processing(c0, s0, u0, events, data, available) && phase == RecvObjectSize && available >= 2
      modifies this
      ensures unchanged(`totalReceived, `history) && phase == RecvObject
      ensures available' == available - 2 && Processing(c0, s0, u0, events', data', available')
    {
      hide Step, Parse, Run, Apply, Pow256;
      ghost var c, at := CurrentControl(), totalConsumed;
      PendingAt(s0, at, 2);
      TakeObjectSize(data);
      data', available', events' := data + 2, available - 2, events + [];
      RunNone(cb, Session(user, Alive));
      Advanced(c0, s0, u0, events, c, user, at, 2, [], data', available');
    }

    /** process, the object case, which ends with the break. */
    method ObjectCase(ghost c0: Control, ghost s0: seq<byte>, ghost u0: Session<U>, ghost events: seq<Event>,
                      data: nat, available: nat) returns (data': nat, available': nat, ghost events': seq<Event>)
      requires Processing(c0, s0, u0, events, data, available) && phase == RecvObject && available >= recvObjectSize
      modifies this, mem
      ensures Layout() && unchanged(`totalReceived, `history) && Pending() == s0
      ensures status == Alive ==>
              && phase != RecvObject && available' == available - old(recvObjectSize)
              && Processing(c0, s0, u0, events', data', available')
      ensures status != Alive ==> Run(cb, u0, Parse(ptr, c0, s0).events) == Session(user, status)
    {
      hide Step, Parse, Run, Apply, ReadObject, Pow256;
      ghost var c, u, at := CurrentControl(), user, totalConsumed;
      PendingAt(s0, at, recvObjectSize);
      ghost var r := Step(ptr, c, s0[at..at + recvObjectSize]);
      ghost var m := mem[..];
      TakeObject(data);
      StillPending(m);
      data', available', events' := data + recvObjectSize, available - recvObjectSize, events + r.events;
      if status != Alive {
        CutShort(c0, s0, u0, events, c, u, at, recvObjectSize, r.events, r.control);
      } else {
        Advanced(c0, s0, u0, events, c, u, at, recvObjectSize, r.events, data', available');
      }
    }

    /**
     * process: works off the received bytes until more are needed, falling through from one
     * state to the next. Afterwards `status` says whether the connection is still alive; the
     * bytes that are left start at `totalConsumed`.
     */
    method Process()
      requires Layout() && status == Alive
      modifies this, mem
      ensures Layout() && unchanged(`totalReceived, `history)
      ensures Pending() == old(Pending())
      ensures var p := Parse(ptr, old(CurrentControl()), old(Pending()));
              && Run(cb, Session(old(user), Alive), p.events) == Session(user, status)
              && (status == Alive ==> && CurrentControl() == p.control
                                      && totalConsumed <= totalReceived && Pending()[totalConsumed..] == p.rest)
    {
      hide Step, Parse, Run, Apply, ReadObject, Pow256;
      ghost var s0, c0, u0 := Pending(), CurrentControl(), Session(user, Alive);
      ghost var events: seq<Event> := [];
      totalConsumed := 0;
      var available: nat := totalReceived;
      var data: nat := buffer;
      AfterAfter([], [], Parse(ptr, c0, s0));
      assert s0[0..] == s0;
      RunNone(cb, u0);
      while true
        invariant unchanged(`totalReceived, `history)
        invariant Processing(c0, s0, u0, events, data, available)
        decreases 2 * available + if phase == RecvObject then 1 else 0
      {
        if phase == RecvHeader {
          if available < 5 {
            Settled(c0, s0, u0, events, data, available);
            return;
          }
          data, available, events := HeaderCase(c0, s0, u0, events, data, available);
        }
        if phase == RecvObjectSize {
          if available < 2 {
            Settled(c0, s0, u0, events, data, available);
            return;
          }
          data, available, events := ObjectSizeCase(c0, s0, u0, events, data, available);
        }
        if available < recvObjectSize {
          Settled(c0, s0, u0, events, data, available);
          return;
        }
        data, available, events := ObjectCase(c0, s0, u0, events, data, available);
        if status != Alive {
          return;
        }
      }
    }

    /**
     * recv_process, where recv delivers `chunk`: at least one byte, at most what the buffer
     * affords. Whatever the bytes are and however they were cut up before, the receiver ends
     * up where the whole stream puts it.
     */
    method RecvProcess(chunk: seq<byte>) returns (ok: bool)
      requires Valid() && status == Alive && 0 < |chunk| <= bufferSize - totalReceived
      modifies this, mem
      ensures Valid() && history == old(history) + chunk
      ensures ok <==> status == Alive
      ensures var p := Parse(ptr, old(CurrentControl()), old(Pending()) + chunk);
              && Session(user, status) == Run(cb, Session(old(user), Alive), p.events)
              && (ok ==> CurrentControl() == p.control && Pending() == p.rest)
    {
      hide Step, Parse, Run, Apply, ReadObject, Pow256, TableSize, Untouched;
      ghost var p, s0 := Parse(ptr, INITIAL, history), Pending();
      ghost var q := Parse(ptr, p.control, p.rest + chunk);
      ParseAppend(ptr, INITIAL, history, chunk);
      RunAppend(cb, Session(initial, Alive), p.events, q.events);
      history := history + chunk;

      ghost var m := mem[..];
      WriteBytes(mem, buffer + totalReceived, chunk);
      ChunkBehind(m, chunk);
      totalReceived := totalReceived + |chunk|;
      Process();
      ok := status == Alive;
      if !ok {
        return;
      }
      Compact();
    }

    /** The end of recv_process: what has been processed is dropped, the rest moves to the front. */
    method Compact()
      requires Layout() && totalConsumed <= totalReceived
      modifies this`totalReceived, this`totalConsumed, mem
      ensures Layout() && Pending() == old(Pending()[totalConsumed..])
    {
      hide Pow256;
      if totalConsumed == totalReceived {
        totalConsumed := 0;
        totalReceived := 0;
      } else {
        var moved := mem[buffer + totalConsumed..buffer + totalReceived];
        PendingAt(Pending(), totalConsumed, totalReceived - totalConsumed);
        PatchHit(mem[..], buffer, moved);
        WriteBytes(mem, buffer, moved);
        totalReceived := totalReceived - totalConsumed;
      }
    }

    lemma ChunkBehind(m: seq<byte>, chunk: seq<byte>)
      requires Layout() && totalReceived + |chunk| <= bufferSize && |m| == mem.Length
      requires mem[..] == Patch(m, buffer + totalReceived, chunk)
      ensures mem[buffer..buffer + totalReceived + |chunk|] == m[buffer..buffer + totalReceived] + chunk
    {
      var m' := mem[..];
      assert m'[buffer..buffer + totalReceived + |chunk|] == mem[buffer..buffer + totalReceived + |chunk|];
    }

    /**
     * No stall: with a buffer for a header and for the object at hand, there is always room
     * for more bytes when recv_process returns.
     */
    lemma RoomLeft()
      requires Valid() && status == Alive
      requires 5 <= bufferSize && (phase == RecvObject ==> recvObjectSize <= bufferSize)
      ensures totalReceived < bufferSize
    {
      ParseSettles(ptr, INITIAL, history);
    }

    /** As long as the connection is alive, no error response has failed to be sent. */
    lemma NoFailedSend()
      requires Valid() && status == Alive
      ensures var es := Parse(ptr, INITIAL, history).events;
        forall j :: 0 <= j < |es| ==>
          !SendFails(cb, Run(cb, Session(initial, Alive), es[..j]).user, es[j]) && !Overruns(es[j])
    {
      hide Parse, Run, SendFails;
      var k := ConnectionEnds(cb, initial, Parse(ptr, INITIAL, history).events);
    }

    /** What holds whenever the state switch is entered, and after every fall through. */
    ghost predicate Processing(c0: Control, s0: seq<byte>, u0: Session<U>, events: seq<Event>,
                               data: nat, available: nat)
      reads this, mem
    {
      && Layout() && status == Alive && Pending() == s0
      && totalConsumed + available == totalReceived && data == buffer + totalConsumed
      && Parse(ptr, c0, s0) == After(events, Parse(ptr, CurrentControl(), s0[totalConsumed..]))
      && Run(cb, u0, events) == Session(user, Alive)
    }

    lemma Settled(c0: Control, s0: seq<byte>, u0: Session<U>, events: seq<Event>, data: nat, available: nat)
      requires Processing(c0, s0, u0, events, data, available)
      requires match phase
               case RecvHeader => available < 5
               case RecvObjectSize => available < 2
               case RecvObject => available < recvObjectSize
      ensures var p := Parse(ptr, c0, s0);
              && p.control == CurrentControl() && p.rest == s0[totalConsumed..]
              && Run(cb, u0, p.events) == Session(user, Alive)
    {
      hide Parse, Run;
      StuckHere(ptr, CurrentControl(), s0[totalConsumed..]);
      assert events + [] == events;
    }

    lemma PendingAt(s0: seq<byte>, at: nat, k: nat)
      requires Layout() && Pending() == s0 && at + k <= totalReceived
      ensures mem[buffer + at..buffer + at + k] == s0[at..at + k]
    {
      SubSlice(mem[..], buffer, totalReceived, at, k);
    }

    lemma StillPending(m: seq<byte>)
      requires Layout() && Untouched(m, mem[..])
      ensures Pending() == m[buffer..buffer + totalReceived]
    {
      assert mem[..][..objectBuffer][buffer..buffer + totalReceived] == Pending();
      assert m[..objectBuffer][buffer..buffer + totalReceived] == m[buffer..buffer + totalReceived];
    }

    /** A step taken at `at` on `k` bytes leads from one point of the processing to the next. */
    lemma Advanced(c0: Control, s0: seq<byte>, u0: Session<U>, events: seq<Event>, c: Control, u: U, at: nat, k: nat,
                   es: seq<Event>, data: nat, available: nat)
      requires Layout() && status == Alive && Pending() == s0
      requires totalConsumed == at + k && totalConsumed + available == totalReceived && data == buffer + totalConsumed
      requires Parse(ptr, c0, s0) == After(events, Parse(ptr, c, s0[at..]))
      requires Run(cb, u0, events) == Session(u, Alive)
      requires Step(ptr, c, s0[at..at + k]) == Took(k, es, CurrentControl())
      requires Run(cb, Session(u, Alive), es) == Session(user, Alive)
      ensures Processing(c0, s0, u0, events + es, data, available)
    {
      hide Parse, Run, Step;
      Progress(ptr, c0, s0, events, c, at, k, es, CurrentControl());
      RunAppend(cb, u0, events, es);
    }

    /** The connection ended in the middle: the events that would follow do not happen. */
    lemma CutShort(c0: Control, s0: seq<byte>, u0: Session<U>, events: seq<Event>, c: Control, u: U, at: nat, k: nat,
                es: seq<Event>, c': Control)
      requires status != Alive && at + k <= |s0|
      requires Parse(ptr, c0, s0) == After(events, Parse(ptr, c, s0[at..]))
      requires Run(cb, u0, events) == Session(u, Alive)
      requires Step(ptr, c, s0[at..at + k]) == Took(k, es, c')
      requires Run(cb, Session(u, Alive), es) == Session(user, status)
      ensures Run(cb, u0, Parse(ptr, c0, s0).events) == Session(user, status)
    {
      hide Parse, Run, Step;
      Progress(ptr, c0, s0, events, c, at, k, es, c');
      RunAppend(cb, u0, events, es);
      var p := Parse(ptr, c', s0[at + k..]);
      RunAppend(cb, u0, events + es, p.events);
      RunDead(cb, Session(user, status), p.events);
    }
  }

  /** Too few bytes: nothing happens. */
  lemma StuckHere(ptr: nat, c: Control, s: seq<byte>)
    requires match c.phase
             case RecvHeader => |s| < 5
             case RecvObjectSize => |s| < 2
             case RecvObject => |s| < c.objectSize
    ensures Parse(ptr, c, s) == Parsed([], c, s)
  {
  }

  /** One step taken on the bytes at hand is one step of the parser. */
  lemma Progress(ptr: nat, c0: Control, s0: seq<byte>, events: seq<Event>, c: Control, at: nat, k: nat,
                 es: seq<Event>, c': Control)
    requires at + k <= |s0| && Parse(ptr, c0, s0) == After(events, Parse(ptr, c, s0[at..]))
    requires Step(ptr, c, s0[at..at + k]) == Took(k, es, c')
    ensures Parse(ptr, c0, s0) == After(events + es, Parse(ptr, c', s0[at + k..]))
  {
    hide Step;
    var s, a, b := s0[at..], s0[at..at + k], s0[at + k..];
    assert a + b == s && s[k..] == b;
    StepAppend(ptr, c, a, b);
    AfterAfter(events, es, Parse(ptr, c', b));
  }

  lemma ErrorFits(text: Text, ptr: nat)
    requires 0 < ptr <= 8
    ensures var o := ErrorObject(text);
            && |Wire(o)| < 0x1_0000 && |o| < 0x100 && OwnedSize(o, ptr) <= REPLY_BUFFER && Sendable([o])
  {
    var o := ErrorObject(text);
    if o != [] {
      assert Wire(o) == Record(o[0]) + Wire([]);
      assert o[1..] == [];
    }
    NextPointer(0, ptr);
    NextPointer(1, ptr);
    BodyOfOne(o);
  }

  lemma PointedAtElsewhere(m: seq<byte>, obj: nat, ptr: nat, from: nat, o: Object)
    requires |Wire(o)| < 0x1_0000 && obj + TableSize(|o|, ptr) <= |m|
    ensures Reader.PointedAt(m, obj, ptr, from, o)[..obj] == m[..obj]
  {
    hide Wire, Head, TableSize;
    HeadSize(from, o, ptr);
  }
}
