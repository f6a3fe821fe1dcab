/** Messages written back to back are read back message by message. */
module Streams {
  import opened Bytes
  import opened Objects
  import opened Messages
  import opened Parser

  /** A message the receiver can deliver: at least one object, each of them readable. */
  ghost predicate Deliverable(ptr: nat, m: Message) {
    && m.objects != [] && Sendable(m.objects)
    && forall o :: o in m.objects ==> TableSize(|o|, ptr) <= OBJECT_BUFFER
  }

  ghost function Deliveries(h: Header, objects: seq<Object>): (r: seq<Event>)
    ensures |r| == |objects|
  {
    if objects == [] then [] else [Delivered(h, Readable(objects[0]))] + Deliveries(h, objects[1..])
  }

  /** What the receiver should report for a message: its start, its objects in order, its end. */
  ghost function EventsOf(m: Message): seq<Event>
  {
    [Started(HeaderOf(m))] + Deliveries(HeaderOf(m), m.objects) + [Completed(HeaderOf(m))]
  }

  ghost function EncodeAll(ms: seq<Message>): seq<byte>
  {
    if ms == [] then [] else Encode(ms[0]) + EncodeAll(ms[1..])
  }

  ghost function AllEvents(ms: seq<Message>): seq<Event>
  {
    if ms == [] then [] else EventsOf(ms[0]) + AllEvents(ms[1..])
  }

  lemma FramedObject(o: Object, t: seq<byte>)
    requires |Wire(o)| < 0x1_0000
    ensures var s := Framed(o) + t; var n := |Wire(o)|;
      && |s| >= 2 + n && U16At(s, 0) == n && s[2..2 + n] == Wire(o) && s[2 + n..] == t
      && s[2..] == Wire(o) + t
  {
    hide Wire;
  }

  /**
   * The two steps that take in one framed object: it is reported, and the message is complete
   * as soon as the bytes counted, in 16 bits, are as many as its header says, or more.
   */
  lemma ObjectSteps(ptr: nat, c: Control, o: Object, t: seq<byte>)
    requires c.phase == RecvObjectSize && |Wire(o)| < 0x1_0000
    requires TableSize(|o|, ptr) <= OBJECT_BUFFER
    ensures var c' := c.(consumed := (c.consumed + 2 + |Wire(o)|) % 0x1_0000, objectSize := |Wire(o)|,
                         objectsNum := (c.objectsNum + 1) % 0x100);
      var d := Delivered(c.header, Readable(o));
      Parse(ptr, c, Framed(o) + t) ==
      if c'.consumed >= c.header.size
      then After([d, Completed(c.header)], Parse(ptr, c'.(phase := RecvHeader), t))
      else After([d], Parse(ptr, c', t))
  {
    hide Wire, ReadObject, Framed;
    var s, n := Framed(o) + t, |Wire(o)|;
    FramedObject(o, t);
    var c1 := c.(phase := RecvObject, objectSize := n, consumed := (c.consumed + 2) % 0x1_0000);
    assert Step(ptr, c, s) == Took(2, [], c1);
    var s1 := Wire(o) + t;
    assert s1[..n] == Wire(o) && s1[n..] == t;
    ExactAcceptance(Wire(o), OBJECT_BUFFER, ptr, o);
    CountTwice(c.consumed, n);
    AfterAfter([], [], Parse(ptr, c1, s1));
  }

  /** Counting the size and then the object wraps around like counting both. */
  lemma CountTwice(consumed: u16, n: u16)
    ensures Add16(Add16(consumed, 2), n) == (consumed + 2 + n) % 0x1_0000
  {
  }

  ghost function LastSize(size: u16, objects: seq<Object>): u16 {
    if objects == [] then size else |Wire(objects[|objects| - 1])| % 0x1_0000
  }

  /** The state of the receiver once the objects of a message are in. */
  ghost function Finished(c: Control, objects: seq<Object>): Control {
    Control(RecvHeader, c.header, c.header.size, LastSize(c.objectSize, objects), (c.objectsNum + |objects|) % 0x100)
  }

  /** The rest of the objects of a message, when `c.consumed` bytes of them have been read. */
  lemma {:induction false} BodyRoundTrip(ptr: nat, c: Control, objects: seq<Object>, t: seq<byte>)
    requires c.phase == RecvObjectSize && objects != [] && Sendable(objects)
    requires forall o :: o in objects ==> TableSize(|o|, ptr) <= OBJECT_BUFFER
    requires c.consumed + |Body(objects)| == c.header.size
    ensures Parse(ptr, c, Body(objects) + t) ==
            After(Deliveries(c.header, objects) + [Completed(c.header)], Parse(ptr, Finished(c, objects), t))
    decreases |objects|
  {
    hide *;
    var o, rest, h := objects[0], objects[1..], c.header;
    FirstObject(ptr, objects);
    var c1 := c.(consumed := c.consumed + 2 + |Wire(o)|, objectSize := |Wire(o)|,
                 objectsNum := (c.objectsNum + 1) % 0x100);
    var d := Delivered(h, Readable(o));
    Assoc(Framed(o), Body(rest), t);
    ObjectSteps(ptr, c, o, Body(rest) + t);
    FinishedStep(c, objects);
    DeliveriesStep(h, objects);
    BodySize(rest);
    if rest == [] {
      BodyNone();
      assert Body(rest) + t == t;
    } else {
      BodyRoundTrip(ptr, c1, rest, t);
      AfterAfter([d], Deliveries(h, rest) + [Completed(h)], Parse(ptr, Finished(c1, rest), t));
      Assoc([d], Deliveries(h, rest), [Completed(h)]);
    }
  }

  lemma FirstObject(ptr: nat, objects: seq<Object>)
    requires objects != [] && Sendable(objects)
    requires forall o :: o in objects ==> TableSize(|o|, ptr) <= OBJECT_BUFFER
    ensures Body(objects) == Framed(objects[0]) + Body(objects[1..])
    ensures |Wire(objects[0])| < 0x1_0000 && TableSize(|objects[0]|, ptr) <= OBJECT_BUFFER
    ensures Sendable(objects[1..])
    ensures forall o :: o in objects[1..] ==> TableSize(|o|, ptr) <= OBJECT_BUFFER
  {
    hide Wire, TableSize, Framed;
    assert objects[0] in objects;
    forall o | o in objects[1..] ensures o in objects {
    }
  }

  lemma FinishedStep(c: Control, objects: seq<Object>)
    requires objects != [] && c.phase == RecvObjectSize
    requires |Wire(objects[0])| < 0x1_0000 && c.consumed + 2 + |Wire(objects[0])| < 0x1_0000
    ensures var c1 := c.(consumed := c.consumed + 2 + |Wire(objects[0])|, objectSize := |Wire(objects[0])|,
                         objectsNum := (c.objectsNum + 1) % 0x100);
            Finished(c, objects) == if objects[1..] == [] && c1.consumed == c.header.size
                                    then c1.(phase := RecvHeader) else Finished(c1, objects[1..])
  {
    hide Wire;
  }

  lemma DeliveriesStep(h: Header, objects: seq<Object>)
    requires objects != []
    ensures Deliveries(h, objects) == [Delivered(h, Readable(objects[0]))] + Deliveries(h, objects[1..])
    ensures objects[1..] == [] ==>
            Deliveries(h, objects) + [Completed(h)] == [Delivered(h, Readable(objects[0])), Completed(h)]
  {
  }

  /** The state of a receiver that has taken in all of `m`. */
  ghost function Idle(m: Message): Control {
    Finished(Control(RecvObjectSize, HeaderOf(m), 0, 0, 0), m.objects)
  }

  /** One message, followed by anything: its events, and then whatever follows. */
  lemma MessageRoundTrip(ptr: nat, c: Control, m: Message, t: seq<byte>)
    requires c.phase == RecvHeader && Deliverable(ptr, m)
    ensures Parse(ptr, c, Encode(m) + t) == After(EventsOf(m), Parse(ptr, Idle(m), t))
  {
    hide Wire, Body, TableSize, ReadObject;
    var h, body := HeaderOf(m), Body(m.objects);
    var s := Encode(m) + t;
    Assoc(HeaderBytes(h), body, t);
    HeaderParses(h, body + t);
    var c1 := c.(phase := RecvObjectSize, header := h, consumed := 0, objectsNum := 0);
    BodyRoundTrip(ptr, c1, m.objects, t);
    var es := Deliveries(h, m.objects) + [Completed(h)];
    AfterAfter([Started(h)], es, Parse(ptr, Idle(m), t));
    Assoc([Started(h)], Deliveries(h, m.objects), [Completed(h)]);
  }

  lemma HeaderParses(h: Header, t: seq<byte>)
    ensures var s := HeaderBytes(h) + t; HeaderAt(s) == h && s[5..] == t
  {
    var s := HeaderBytes(h) + t;
    assert U16At(s, 1) == h.size && U16At(s, 3) == h.id;
  }

  /** The state after a number of messages. */
  ghost function IdleAll(c: Control, ms: seq<Message>): Control
    decreases |ms|
  {
    if ms == [] then c else IdleAll(Idle(ms[0]), ms[1..])
  }

  /** Any number of messages back to back: all their events, in order, and nothing left over. */
  lemma {:induction false} StreamRoundTrip(ptr: nat, c: Control, ms: seq<Message>, t: seq<byte>)
    requires c.phase == RecvHeader && forall m :: m in ms ==> Deliverable(ptr, m)
    ensures Parse(ptr, c, EncodeAll(ms) + t) == After(AllEvents(ms), Parse(ptr, IdleAll(c, ms), t))
    ensures IdleAll(c, ms).phase == RecvHeader
    decreases |ms|
  {
    hide Encode, EventsOf, Parse, Deliverable;
    if ms == [] {
      assert EncodeAll(ms) + t == t;
      AfterAfter([], [], Parse(ptr, c, t));
    } else {
      var m, rest := ms[0], ms[1..];
      forall m' | m' in rest ensures m' in ms {
      }
      Assoc(Encode(m), EncodeAll(rest), t);
      MessageRoundTrip(ptr, c, m, EncodeAll(rest) + t);
      StreamRoundTrip(ptr, Idle(m), rest, t);
      AfterAfter(EventsOf(m), AllEvents(rest), Parse(ptr, IdleAll(Idle(m), rest), t));
    }
  }

  /** A whole stream in any fragmentation: exactly the events of its messages, nothing left over. */
  lemma StreamInAnyFragmentation(ptr: nat, ms: seq<Message>, chunks: seq<seq<byte>>)
    requires forall m :: m in ms ==> Deliverable(ptr, m)
    requires Concat(chunks) == EncodeAll(ms)
    ensures FeedAll(ptr, Parsed([], INITIAL, []), chunks) == Parsed(AllEvents(ms), IdleAll(INITIAL, ms), [])
  {
    AnyFragmentation(ptr, chunks);
    StreamRoundTrip(ptr, INITIAL, ms, []);
    assert EncodeAll(ms) + [] == EncodeAll(ms);
    assert AllEvents(ms) + [] == AllEvents(ms);
  }

  // ---------------------------------------------------------------- never early

  /** From the header state, nothing happens silently. */
  lemma HeaderStuck(ptr: nat, c: Control, s: seq<byte>)
    requires c.phase == RecvHeader && Parse(ptr, c, s).events == []
    ensures Parse(ptr, c, s) == Parsed([], c, s)
  {
    hide ReadObject;
  }

  /** Right after a completed message the receiver waits for a header. */
  lemma {:induction false} CompletedLast(ptr: nat, c: Control, s: seq<byte>)
    requires var es := Parse(ptr, c, s).events; es != [] && es[|es| - 1].Completed?
    ensures Parse(ptr, c, s).control.phase == RecvHeader
    decreases 2 * |s| + if c.phase == RecvObject then 1 else 0
  {
    hide ReadObject;
    var r := Step(ptr, c, s);
    var tail := Parse(ptr, r.control, s[r.took..]);
    if tail.events == [] {
      HeaderStuckUnless(ptr, c, s);
    } else {
      var es := Parse(ptr, c, s).events;
      assert es == r.events + tail.events;
      CompletedLast(ptr, r.control, s[r.took..]);
    }
  }

  lemma HeaderStuckUnless(ptr: nat, c: Control, s: seq<byte>)
    requires Step(ptr, c, s).Took?
    requires var r := Step(ptr, c, s); r.events != [] && r.events[|r.events| - 1].Completed?
    requires var r := Step(ptr, c, s); Parse(ptr, r.control, s[r.took..]).events == []
    ensures Parse(ptr, c, s).control.phase == RecvHeader
  {
    var r := Step(ptr, c, s);
    HeaderStuck(ptr, r.control, s[r.took..]);
  }

  /**
   * A message is never completed early: while its last byte is missing, the receiver has seen
   * a proper prefix of its events, so no `Completed`.
   */
  lemma NeverEarly(ptr: nat, c: Control, m: Message, n: nat)
    requires c.phase == RecvHeader && Deliverable(ptr, m) && n < |Encode(m)|
    ensures var es := Parse(ptr, c, Encode(m)[..n]).events;
      es < EventsOf(m) && forall e :: e in es ==> !e.Completed?
  {
    hide Encode, Parse, Deliverable, Body, Wire;
    var s := Encode(m);
    var p := Parse(ptr, c, s[..n]);
    assert s[..n] + s[n..] == s && s + [] == s;
    ParseAppend(ptr, c, s[..n], s[n..]);
    MessageRoundTrip(ptr, c, m, []);
    NothingToParse(ptr, Idle(m));
    var q := Parse(ptr, p.control, p.rest + s[n..]);
    assert EventsOf(m) + [] == EventsOf(m) == p.events + q.events;
    OneCompleted(m);
    if q.events == [] {
      assert p.events + [] == p.events;
      CompletedLast(ptr, c, s[..n]);
      HeaderStuck(ptr, p.control, p.rest + s[n..]);
      assert false;
    }
  }

  lemma NothingToParse(ptr: nat, c: Control)
    requires c.phase == RecvHeader
    ensures Parse(ptr, c, []) == Parsed([], c, [])
  {
  }

  /** The only completion among the events of a message is the last one. */
  lemma OneCompleted(m: Message)
    ensures var es := EventsOf(m);
            es != [] && es[|es| - 1].Completed? && forall i :: 0 <= i < |es| - 1 ==> !es[i].Completed?
  {
    NoCompletedDelivery(HeaderOf(m), m.objects);
  }

  lemma {:induction false} NoCompletedDelivery(h: Header, objects: seq<Object>)
    ensures |Deliveries(h, objects)| == |objects|
    ensures forall i :: 0 <= i < |objects| ==> Deliveries(h, objects)[i] == Delivered(h, Readable(objects[i]))
  {
    if objects != [] {
      NoCompletedDelivery(h, objects[1..]);
    }
  }
}
