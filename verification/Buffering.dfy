/** How big the buffer of the receiver has to be, exactly. */
module Buffering {
  import opened Bytes
  import opened Objects
  import opened Messages
  import opened Parser
  import opened Streams

  /** The pieces fit a buffer of `size` bytes, next to what is left over from earlier pieces. */
  ghost predicate Fits(ptr: nat, size: nat, p: Parsed, chunks: seq<seq<byte>>)
    decreases |chunks|
  {
    chunks == [] || (|p.rest| + |chunks[0]| <= size && Fits(ptr, size, Feed(ptr, p, chunks[0]), chunks[1..]))
  }

  /** The event could be produced from `n` bytes in the buffer. */
  ghost predicate FitsIn(e: Event, n: nat) {
    match e
    case Started(_) => 5 <= n
    case Delivered(_, Readable(o)) => |Wire(o)| <= n
    case _ => true
  }

  lemma StepWithin(ptr: nat, c: Control, s: seq<byte>)
    requires Step(ptr, c, s).Took?
    ensures forall e :: e in Step(ptr, c, s).events ==> FitsIn(e, |s|)
  {
    hide Wire, TableSize, ReadObject;
    if c.phase == RecvObject {
      var r := ReadObject(s[..c.objectSize], OBJECT_BUFFER, ptr);
      if r.Readable? {
        ExactAcceptance(s[..c.objectSize], OBJECT_BUFFER, ptr, r.properties);
      }
    }
  }

  lemma {:induction false} ParseWithin(ptr: nat, c: Control, s: seq<byte>)
    ensures forall e :: e in Parse(ptr, c, s).events ==> FitsIn(e, |s|)
    decreases 2 * |s| + if c.phase == RecvObject then 1 else 0
  {
    hide Step, Wire;
    match Step(ptr, c, s)
    case Stuck =>
    case Took(k, events, c') =>
      StepTook(ptr, c, s);
      StepWithin(ptr, c, s);
      ParseWithin(ptr, c', s[k..]);
      forall e | e in events + Parse(ptr, c', s[k..]).events
        ensures FitsIn(e, |s|)
      {
      }
  }

  /** Nothing is ever reported that did not fit the buffer as a whole. */
  lemma {:induction false} OnlyWhatFits(ptr: nat, size: nat, p: Parsed, chunks: seq<seq<byte>>)
    requires Fits(ptr, size, p, chunks) && forall e :: e in p.events ==> FitsIn(e, size)
    ensures forall e :: e in FeedAll(ptr, p, chunks).events ==> FitsIn(e, size)
    decreases |chunks|
  {
    hide Parse, Wire;
    if chunks != [] {
      ParseWithin(ptr, p.control, p.rest + chunks[0]);
      forall e | e in Feed(ptr, p, chunks[0]).events
        ensures FitsIn(e, size)
      {
      }
      OnlyWhatFits(ptr, size, Feed(ptr, p, chunks[0]), chunks[1..]);
    }
  }

  /** The bytes one at a time. */
  ghost function Singly(s: seq<byte>): seq<seq<byte>> {
    if s == [] then [] else [[s[0]]] + Singly(s[1..])
  }

  lemma {:induction false} ConcatSingly(s: seq<byte>)
    ensures Concat(Singly(s)) == s
  {
    if s != [] {
      ConcatSingly(s[1..]);
    }
  }

  // ---------------------------------------------------------------- the events of a stream

  ghost predicate FromMessages(e: Event, ms: seq<Message>) {
    match e
    case Started(h) => exists m :: m in ms && h == HeaderOf(m)
    case Delivered(_, r) => r.Readable? && exists m :: m in ms && r.properties in m.objects
    case Completed(h) => exists m :: m in ms && h == HeaderOf(m)
  }

  lemma EventsFrom(m: Message, ms: seq<Message>)
    requires m in ms
    ensures forall e :: e in EventsOf(m) ==> FromMessages(e, ms)
  {
    hide HeaderOf;
    var h := HeaderOf(m);
    NoCompletedDelivery(h, m.objects);
    forall e | e in EventsOf(m)
      ensures FromMessages(e, ms)
    {
      if e in Deliveries(h, m.objects) {
        var i :| 0 <= i < |m.objects| && Deliveries(h, m.objects)[i] == e;
        assert m.objects[i] in m.objects;
      }
    }
  }

  lemma {:induction false} AllEventsFrom(ms: seq<Message>, all: seq<Message>)
    requires forall m :: m in ms ==> m in all
    ensures forall e :: e in AllEvents(ms) ==> FromMessages(e, all)
    decreases |ms|
  {
    hide EventsOf, FromMessages;
    if ms != [] {
      EventsFrom(ms[0], all);
      AllEventsFrom(ms[1..], all);
    }
  }

  lemma {:induction false} EventInAll(ms: seq<Message>, m: Message, e: Event)
    requires m in ms && e in EventsOf(m)
    ensures e in AllEvents(ms)
    decreases |ms|
  {
    hide EventsOf;
    if ms[0] != m {
      assert m in ms[1..];
      EventInAll(ms[1..], m, e);
    }
  }

  lemma DeliveredInAll(ms: seq<Message>, m: Message, o: Object)
    requires m in ms && o in m.objects
    ensures Started(HeaderOf(m)) in AllEvents(ms)
    ensures Delivered(HeaderOf(m), Readable(o)) in AllEvents(ms)
  {
    hide HeaderOf, AllEvents;
    var h := HeaderOf(m);
    NoCompletedDelivery(h, m.objects);
    var i :| 0 <= i < |m.objects| && m.objects[i] == o;
    assert Deliveries(h, m.objects)[i] == Delivered(h, Readable(o));
    assert Delivered(h, Readable(o)) in Deliveries(h, m.objects);
    EventInAll(ms, m, Delivered(h, Readable(o)));
    EventInAll(ms, m, Started(h));
  }

  // ---------------------------------------------------------------- room in the buffer

  ghost predicate Enough(size: nat, ms: seq<Message>) {
    5 <= size && forall m, o :: m in ms && o in m.objects ==> |Wire(o)| <= size
  }

  /** An object whose bytes are still to come is delivered next. */
  lemma NextDelivered(ptr: nat, c: Control, s: seq<byte>)
    requires c.phase == RecvObject && Parse(ptr, c, s).control.phase == RecvHeader
    ensures |s| >= c.objectSize
    ensures Delivered(c.header, ReadObject(s[..c.objectSize], OBJECT_BUFFER, ptr)) in Parse(ptr, c, s).events
  {
    hide ReadObject;
    if |s| >= c.objectSize {
      var r := Step(ptr, c, s);
      assert Parse(ptr, c, s).events == r.events + Parse(ptr, r.control, s[r.took..]).events;
      assert r.events[0] in Parse(ptr, c, s).events;
    }
  }

  /**
   * No stall, for streams: with a buffer for a header and for the largest object, however the
   * stream has been cut up and however much of it has arrived, there is room for another byte.
   */
  lemma NoStall(ptr: nat, c: Control, size: nat, ms: seq<Message>, n: nat)
    requires c.phase == RecvHeader && forall m :: m in ms ==> Deliverable(ptr, m)
    requires Enough(size, ms) && n <= |EncodeAll(ms)|
    ensures |Parse(ptr, c, EncodeAll(ms)[..n]).rest| < size
  {
    hide Parse, Step, Wire, ReadObject, AllEvents, EncodeAll, FromMessages, IdleAll, TableSize;
    var s := EncodeAll(ms);
    var p := Parse(ptr, c, s[..n]);
    assert s[..n] + s[n..] == s == s + [];
    ParseAppend(ptr, c, s[..n], s[n..]);
    StreamRoundTrip(ptr, c, ms, []);
    NothingToParse(ptr, IdleAll(c, ms));
    var t := p.rest + s[n..];
    var q := Parse(ptr, p.control, t);
    assert AllEvents(ms) + [] == AllEvents(ms) == p.events + q.events;
    ParseSettles(ptr, c, s[..n]);
    StuckSize(ptr, p.control, p.rest);
    if p.control.phase == RecvObject {
      NextDelivered(ptr, p.control, t);
      var k := p.control.objectSize;
      var e := Delivered(p.control.header, ReadObject(t[..k], OBJECT_BUFFER, ptr));
      assert e in AllEvents(ms);
      AllEventsFrom(ms, ms);
      FromDelivered(e, ms);
      var o := e.received.properties;
      ExactAcceptance(t[..k], OBJECT_BUFFER, ptr, o);
      assert |Wire(o)| == k;
    }
  }

  lemma FromDelivered(e: Event, ms: seq<Message>)
    requires e.Delivered? && FromMessages(e, ms)
    ensures e.received.Readable? && exists m :: m in ms && e.received.properties in m.objects
  {
  }

  lemma StuckSize(ptr: nat, c: Control, s: seq<byte>)
    requires Step(ptr, c, s) == Stuck
    ensures match c.phase
            case RecvHeader => |s| < 5
            case RecvObjectSize => |s| < 2
            case RecvObject => |s| < c.objectSize
  {
  }

  /** Feeding one byte at a time never needs more than the buffer. */
  lemma {:induction false} SinglyFits(ptr: nat, size: nat, ms: seq<Message>, n: nat)
    requires forall m :: m in ms ==> Deliverable(ptr, m)
    requires Enough(size, ms) && n <= |EncodeAll(ms)|
    ensures Fits(ptr, size, Parse(ptr, INITIAL, EncodeAll(ms)[..n]), Singly(EncodeAll(ms)[n..]))
    decreases |EncodeAll(ms)| - n
  {
    hide Parse, Wire, EncodeAll, Deliverable, Enough;
    var s := EncodeAll(ms);
    if n < |s| {
      NoStall(ptr, INITIAL, size, ms, n);
      SinglyFits(ptr, size, ms, n + 1);
      assert s[n..][1..] == s[n + 1..];
      assert s[..n] + [s[n]] == s[..n + 1];
      ParseAppend(ptr, INITIAL, s[..n], [s[n]]);
    }
  }

  /**
   * The exact size: a stream of messages can be received through a buffer if and only if the
   * buffer holds a message header and every single object. How long the messages are, and how
   * many objects they have, does not matter.
   */
  lemma BufferSize(ptr: nat, size: nat, ms: seq<Message>)
    requires ms != [] && forall m :: m in ms ==> Deliverable(ptr, m)
    ensures (exists chunks :: Concat(chunks) == EncodeAll(ms) && Fits(ptr, size, Parsed([], INITIAL, []), chunks))
            <==> Enough(size, ms)
  {
    hide Parse, Wire, EncodeAll, AllEvents, HeaderOf, TableSize, Fits, Concat, Singly, FeedAll, FitsIn;
    if Enough(size, ms) {
      SinglyFits(ptr, size, ms, 0);
      var s := EncodeAll(ms);
      assert s[0..] == s && s[..0] == [];
      NothingToParse(ptr, INITIAL);
      ConcatSingly(s);
    }
    forall chunks | Concat(chunks) == EncodeAll(ms) && Fits(ptr, size, Parsed([], INITIAL, []), chunks)
      ensures Enough(size, ms)
    {
      StreamInAnyFragmentation(ptr, ms, chunks);
      OnlyWhatFits(ptr, size, Parsed([], INITIAL, []), chunks);
      forall m, o | m in ms && o in m.objects
        ensures 5 <= size && |Wire(o)| <= size
      {
        DeliveredInAll(ms, m, o);
        WithinSize(HeaderOf(m), o, size);
      }
      assert ms[0] in ms && ms[0].objects[0] in ms[0].objects;
    }
  }

  lemma WithinSize(h: Header, o: Object, size: nat)
    ensures FitsIn(Started(h), size) <==> 5 <= size
    ensures FitsIn(Delivered(h, Readable(o)), size) <==> |Wire(o)| <= size
  {
  }
}
