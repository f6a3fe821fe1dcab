/**
 * The byte stream of one connection, as the receiver understands it: a step machine over
 * bytes that have arrived, and the events it produces.
 */
module Parser {
  import opened Bytes
  import opened Objects
  import opened Messages

  /** The size of the object buffer that the receiver reads objects into. */
  const OBJECT_BUFFER: u16 := 128

  datatype Phase = RecvHeader | RecvObjectSize | RecvObject

  /** The fields of the receiver that decide what the next bytes mean. */
  datatype Control = Control(phase: Phase, header: Header, consumed: u16, objectSize: u16, objectsNum: byte)

  const INITIAL: Control := Control(RecvHeader, Header(0, 0, 0), 0, 0, 0)

  datatype Event =
    | Started(header: Header)
    | Delivered(header: Header, received: Received)
    | Completed(header: Header)

  /** One pass through the state switch: not enough bytes, or `took` bytes and their events. */
  datatype StepResult = Stuck | Took(took: nat, events: seq<Event>, control: Control)

  function HeaderAt(s: seq<byte>): Header
    requires 5 <= |s|
  {
    Header(s[0], U16At(s, 1), U16At(s, 3))
  }

  function Step(ptr: nat, c: Control, s: seq<byte>): (r: StepResult)
    ensures r.Took? ==> r.took <= |s|
    ensures r.Took? ==> r.took == 0 ==> c.phase == RecvObject && r.control.phase != RecvObject
  {
    match c.phase
    case RecvHeader =>
      if |s| < 5 then Stuck
      else
        Took(5, [Started(HeaderAt(s))],
             c.(phase := RecvObjectSize, header := HeaderAt(s), consumed := 0, objectsNum := 0))
    case RecvObjectSize =>
      if |s| < 2 then Stuck
      else Took(2, [], c.(phase := RecvObject, objectSize := U16At(s, 0), consumed := Add16(c.consumed, 2)))
    case RecvObject =>
      if |s| < c.objectSize then Stuck
      else
        var delivered := Delivered(c.header, ReadObject(s[..c.objectSize], OBJECT_BUFFER, ptr));
        var c' := c.(consumed := Add16(c.consumed, c.objectSize), objectsNum := (c.objectsNum + 1) % 0x100);
        if c'.consumed >= c.header.size
        then Took(c.objectSize, [delivered, Completed(c.header)], c'.(phase := RecvHeader))
        else Took(c.objectSize, [delivered], c'.(phase := RecvObjectSize))
  }

  /** What becomes of a stretch of bytes: events, the state after them, and what is left over. */
  datatype Parsed = Parsed(events: seq<Event>, control: Control, rest: seq<byte>)

  function After(events: seq<Event>, p: Parsed): Parsed {
    p.(events := events + p.events)
  }

  function Parse(ptr: nat, c: Control, s: seq<byte>): Parsed
    decreases 2 * |s| + if c.phase == RecvObject then 1 else 0
  {
    match Step(ptr, c, s)
    case Stuck => Parsed([], c, s)
    case Took(k, events, c') => After(events, Parse(ptr, c', s[k..]))
  }

  // ---------------------------------------------------------------- fragmentation

  lemma AfterAfter(a: seq<Event>, b: seq<Event>, p: Parsed)
    ensures After(a, After(b, p)) == After(a + b, p)
    ensures After([], p) == p
  {
    Assoc(a, b, p.events);
    assert [] + p.events == p.events;
  }

  /** Bytes that arrive later do not change what has been understood already. */
  lemma StepAppend(ptr: nat, c: Control, a: seq<byte>, b: seq<byte>)
    requires Step(ptr, c, a).Took?
    ensures Step(ptr, c, a + b) == Step(ptr, c, a)
  {
    hide ReadObject;
    if c.phase == RecvObject {
      assert (a + b)[..c.objectSize] == a[..c.objectSize];
    }
  }

  /**
   * Fragmentation: parsing what is there, and parsing on with the leftover bytes when more
   * arrive, is the same as parsing everything at once. This holds for all bytes, well formed
   * or not.
   */
  lemma {:induction false} ParseAppend(ptr: nat, c: Control, a: seq<byte>, b: seq<byte>)
    ensures var p := Parse(ptr, c, a);
            Parse(ptr, c, a + b) == After(p.events, Parse(ptr, p.control, p.rest + b))
    decreases 2 * |a| + if c.phase == RecvObject then 1 else 0
  {
    hide Step;
    match Step(ptr, c, a)
    case Stuck =>
      AfterAfter([], [], Parse(ptr, c, a + b));
    case Took(k, events, c') =>
      StepTook(ptr, c, a);
      StepAppend(ptr, c, a, b);
      ParseAppend(ptr, c', a[k..], b);
      assert (a + b)[k..] == a[k..] + b;
      var p := Parse(ptr, c', a[k..]);
      AfterAfter(events, p.events, Parse(ptr, p.control, p.rest + b));
  }

  lemma StepTook(ptr: nat, c: Control, s: seq<byte>)
    ensures var r := Step(ptr, c, s); r.Took? ==>
              && r.took <= |s|
              && (r.took == 0 ==> c.phase == RecvObject && r.control.phase != RecvObject)
  {
  }

  /** The state of a receiver after a number of arrivals. */
  function Feed(ptr: nat, p: Parsed, chunk: seq<byte>): Parsed {
    After(p.events, Parse(ptr, p.control, p.rest + chunk))
  }

  function FeedAll(ptr: nat, p: Parsed, chunks: seq<seq<byte>>): Parsed
    decreases |chunks|
  {
    if chunks == [] then p else FeedAll(ptr, Feed(ptr, p, chunks[0]), chunks[1..])
  }

  function Concat(chunks: seq<seq<byte>>): seq<byte> {
    if chunks == [] then [] else chunks[0] + Concat(chunks[1..])
  }

  lemma {:induction false} ParseSettles(ptr: nat, c: Control, s: seq<byte>)
    ensures var p := Parse(ptr, c, s);
      && Step(ptr, p.control, p.rest) == Stuck
      && |p.rest| <= |s| && p.rest == s[|s| - |p.rest|..]
    decreases 2 * |s| + if c.phase == RecvObject then 1 else 0
  {
    hide Step;
    match Step(ptr, c, s)
    case Stuck =>
    case Took(k, events, c') =>
      StepTook(ptr, c, s);
      ParseSettles(ptr, c', s[k..]);
  }

  /** However a stream is cut into pieces, the events, the final state and the leftover are the same. */
  lemma {:induction false} FragmentationIndependent(ptr: nat, c: Control, s: seq<byte>, chunks: seq<seq<byte>>)
    ensures FeedAll(ptr, Parse(ptr, c, s), chunks) == Parse(ptr, c, s + Concat(chunks))
    decreases |chunks|
  {
    hide Parse;
    if chunks == [] {
      assert s + Concat(chunks) == s;
    } else {
      ParseAppend(ptr, c, s, chunks[0]);
      FragmentationIndependent(ptr, c, s + chunks[0], chunks[1..]);
      Assoc(s, chunks[0], Concat(chunks[1..]));
    }
  }

  /** The special case of a connection that has just been opened. */
  lemma AnyFragmentation(ptr: nat, chunks: seq<seq<byte>>)
    ensures FeedAll(ptr, Parsed([], INITIAL, []), chunks) == Parse(ptr, INITIAL, Concat(chunks))
  {
    FragmentationIndependent(ptr, INITIAL, [], chunks);
    assert [] + Concat(chunks) == Concat(chunks);
  }

  // ---------------------------------------------------------------- a whole-stream reader

  /** The reader of a whole stream: messages one after the other. */
  function Stream(ptr: nat, s: seq<byte>): seq<Event>
    decreases |s|
  {
    if |s| < 5 then []
    else [Started(HeaderAt(s))] + MessageObjects(ptr, HeaderAt(s), 0, s[5..])
  }

  /** The objects of one message, of which `consumed` bytes have been read; then the next message. */
  function MessageObjects(ptr: nat, h: Header, consumed: u16, s: seq<byte>): seq<Event>
    decreases |s|
  {
    if |s| < 2 || |s| < 2 + U16At(s, 0) then []
    else
      var n := U16At(s, 0);
      var delivered := Delivered(h, ReadObject(s[2..2 + n], OBJECT_BUFFER, ptr));
      var consumed' := Add16(Add16(consumed, 2), n);
      if consumed' >= h.size then [delivered, Completed(h)] + Stream(ptr, s[2 + n..])
      else [delivered] + MessageObjects(ptr, h, consumed', s[2 + n..])
  }

  /** The state machine sees exactly what the whole-stream reader sees. */
  lemma {:induction false} MachineReadsStream(ptr: nat, c: Control, s: seq<byte>)
    ensures c.phase == RecvHeader ==> Parse(ptr, c, s).events == Stream(ptr, s)
    ensures c.phase == RecvObjectSize ==> Parse(ptr, c, s).events == MessageObjects(ptr, c.header, c.consumed, s)
    decreases 2 * |s|
  {
    hide ReadObject;
    if c.phase == RecvHeader && |s| >= 5 {
      var r := Step(ptr, c, s);
      MachineReadsStream(ptr, r.control, s[5..]);
    }
    if c.phase == RecvObjectSize && |s| >= 2 {
      var r := Step(ptr, c, s);
      var n: nat, t := U16At(s, 0), s[2..];
      assert Parse(ptr, c, s).events == [] + Parse(ptr, r.control, t).events;
      if |s| >= 2 + n {
        var q := Step(ptr, r.control, t);
        assert t[..n] == s[2..2 + n] && t[n..] == s[2 + n..];
        MachineReadsStream(ptr, q.control, s[2 + n..]);
      }
    }
  }
}
