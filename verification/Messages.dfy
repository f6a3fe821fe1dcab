/** Requests and responses as values, and their form on the wire. */
module Messages {
  import opened Bytes
  import opened Objects
  import opened HashBits

  const FLAG_RESPONSE: byte := 2

  /** Bit 0 of the flags marks an error, bit 1 a response. */
  predicate IsError(flags: byte) {
    flags % 2 == 1
  }

  predicate IsResponse(flags: byte) {
    flags / 2 % 2 == 1
  }

  /** What the receiver knows of a message once its first five bytes have arrived. */
  datatype Header = Header(flags: byte, size: u16, id: u16)

  datatype Message = Message(flags: byte, id: u16, objects: seq<Object>)

  /** An object as it is sent: its size, in 16 bits, then its properties. */
  function Framed(o: Object): (r: seq<byte>)
    ensures |r| == 2 + |Wire(o)|
  {
    Le16(|Wire(o)| % 0x1_0000) + Wire(o)
  }

  function Body(objects: seq<Object>): (r: seq<byte>) {
    if objects == [] then [] else Framed(objects[0]) + Body(objects[1..])
  }

  ghost predicate Sizable(objects: seq<Object>) {
    forall o :: o in objects ==> |Wire(o)| < 0x1_0000
  }

  /** The limits a 16-bit message length puts on a list of objects. */
  ghost predicate Sendable(objects: seq<Object>) {
    Sizable(objects) && |Body(objects)| < 0x1_0000
  }

  function HeaderBytes(h: Header): (r: seq<byte>)
    ensures |r| == 5
  {
    [h.flags] + Le16(h.size) + Le16(h.id)
  }

  function HeaderOf(m: Message): Header {
    Header(m.flags, |Body(m.objects)| % 0x1_0000, m.id)
  }

  function Encode(m: Message): (r: seq<byte>)
    ensures |r| == 5 + |Body(m.objects)|
  {
    HeaderBytes(HeaderOf(m)) + Body(m.objects)
  }

  lemma {:induction false} BodyAppend(a: seq<Object>, b: seq<Object>)
    ensures Body(a + b) == Body(a) + Body(b)
  {
    hide Wire, Framed;
    if a == [] {
      assert a + b == b;
    } else {
      assert (a + b)[1..] == a[1..] + b;
      BodyAppend(a[1..], b);
      Assoc(Framed(a[0]), Body(a[1..]), Body(b));
    }
  }

  /** Every object takes at least its two size bytes. */
  lemma {:induction false} BodySize(objects: seq<Object>)
    ensures |Body(objects)| >= 2 * |objects|
  {
    if objects != [] {
      BodySize(objects[1..]);
    }
  }

  lemma BodyNone()
    ensures Body([]) == []
  {
  }

  lemma BodyOfOne(o: Object)
    ensures Body([o]) == Framed(o)
    ensures Sendable([o]) <==> |Wire(o)| + 2 < 0x1_0000
  {
    hide Wire;
    assert o in [o];
    assert Body([o]) == Framed(o) + Body([]);
  }

  /** The layout of a message: flags, length and id, then the objects, each with its size first. */
  lemma MessageLayout(m: Message)
    ensures var s := Encode(m);
      && |s| == 5 + |Body(m.objects)| && s[0] == m.flags
      && (s[1] as int) + 256 * (s[2] as int) == |Body(m.objects)| % 0x1_0000
      && (s[3] as int) + 256 * (s[4] as int) == m.id
      && s[5..] == Body(m.objects)
  {
    hide Body;
  }

  lemma ObjectLayout(o: Object)
    requires |Wire(o)| < 0x1_0000
    ensures var s := Framed(o);
      |s| == 2 + |Wire(o)| && (s[0] as int) + 256 * (s[1] as int) == |Wire(o)| && s[2..] == Wire(o)
  {
    hide Wire;
  }

  lemma PropertyLayout(p: Property)
    ensures var s := Record(p);
      |s| == 3 + |p.value| && (s[0] as int) + 256 * (s[1] as int) == |p.value| && s[2] == p.key && s[3..] == p.value
  {
  }

  /** A response with one object of two properties, byte by byte. */
  lemma LayoutExample()
    ensures Encode(Message(2, 0x0102, [[Property(KEY_ID, [104, 105]), Property(115, [33])]])) ==
            [2, 11, 0, 2, 1, 9, 0, 2, 0, 2, 104, 105, 1, 0, 115, 33]
  {
    hide Wire, Body;
    var o := [Property(KEY_ID, [104, 105]), Property(115, [33])];
    WireExample();
    BodyOfOne(o);
    assert Framed(o) == [9, 0] + Wire(o);
  }

  lemma WireExample()
    ensures Wire([Property(KEY_ID, [104, 105]), Property(115, [33])]) == [2, 0, 2, 104, 105, 1, 0, 115, 33]
  {
    var a, b := Property(KEY_ID, [104, 105]), Property(115, [33]);
    assert [a, b][1..] == [b] && [b][1..] == [];
    assert Record(a) == [2, 0, 2, 104, 105] && Record(b) == [1, 0, 115, 33];
    assert Wire([b]) == Record(b) + Wire([]);
  }

  /** The flags, as the bits they are. */
  lemma FlagBits(flags: byte)
    ensures IsError(flags) <==> BitAnd(flags, 0x01) != 0
    ensures IsResponse(flags) <==> BitAnd(flags, 0x02) != 0
  {
    assert BitAnd(flags / 2, 0) == 0 && BitAnd(flags / 2 / 2, 0) == 0;
    if flags > 1 {
      assert BitAnd(flags / 2, 1) == flags / 2 % 2 + 2 * BitAnd(flags / 2 / 2, 0);
    }
  }
}
