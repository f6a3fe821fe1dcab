/** Objects as values, and their form on the wire. */
module Objects {
  import opened Bytes

  datatype Option<+T> = None | Some(value: T)

  /** A value never exceeds what a 16-bit `value_size` can describe. */
  type Value = v: seq<byte> | |v| < 0x1_0000

  datatype Property = Property(key: byte, value: Value)

  type Object = seq<Property>

  const KEY_ERROR: byte := 1
  const KEY_ID: byte := 2

  /** One property: its size, its key and its value. */
  function Record(p: Property): (r: seq<byte>)
    ensures |r| == 3 + |p.value|
  {
    Le16(|p.value|) + [p.key] + p.value
  }

  /** All properties, one immediately after the other. */
  function Wire(o: Object): seq<byte>
  {
    if o == [] then [] else Record(o[0]) + Wire(o[1..])
  }

  lemma WireFirst(p: Property, o: Object)
    ensures Wire([p] + o) == Record(p) + Wire(o)
  {
    assert ([p] + o)[1..] == o;
  }

  lemma {:induction false} WireAppend(a: Object, b: Object)
    ensures Wire(a + b) == Wire(a) + Wire(b)
  {
    if a == [] {
      assert a + b == b;
    } else {
      hide Record;
      WireAppend(a[1..], b);
      assert (a + b)[1..] == a[1..] + b;
      Assoc(Record(a[0]), Wire(a[1..]), Wire(b));
    }
  }

  lemma {:induction false} WireSize(o: Object)
    ensures 3 * |o| <= |Wire(o)|
  {
    if o != [] {
      WireSize(o[1..]);
    }
  }

  /** The properties that make up `s`, when `s` is a whole number of records. */
  function ParseRecords(s: seq<byte>): (r: Option<Object>)
    decreases |s|
  {
    if s == [] then Some([])
    else if |s| < 3 then None
    else
      var n := U16At(s, 0);
      if |s| < 3 + n then None
      else
        match ParseRecords(s[3 + n..])
        case None => None
        case Some(rest) => Some([Property(s[2], s[3..3 + n])] + rest)
  }

  /** Parsing a record that is followed by anything. */
  lemma ParseFirst(p: Property, tail: seq<byte>)
    ensures ParseRecords(Record(p) + tail) ==
            match ParseRecords(tail)
            case None => None
            case Some(rest) => Some([p] + rest)
  {
    var s := Record(p) + tail;
    assert U16At(s, 0) == |p.value|;
    assert s[3..3 + |p.value|] == p.value;
    assert s[3 + |p.value|..] == tail;
  }

  /** Every object survives the trip to the wire and back. */
  lemma {:induction false} ParseWire(o: Object)
    ensures ParseRecords(Wire(o)) == Some(o)
  {
    if o != [] {
      ParseWire(o[1..]);
      ParseFirst(o[0], Wire(o[1..]));
      assert o == [o[0]] + o[1..];
    }
  }

  /** ... and nothing but the wire form of an object is ever parsed as that object. */
  lemma {:induction false} WireParse(s: seq<byte>)
    ensures ParseRecords(s).Some? ==> Wire(ParseRecords(s).value) == s
    decreases |s|
  {
    hide ParseRecords, Wire;
    if s == [] {
      ParseNothing();
    } else {
      ParseStep(s);
      if ParseRecords(s).Some? {
        var n := U16At(s, 0);
        var first, tail := Property(s[2], s[3..3 + n]), s[3 + n..];
        WireParse(tail);
        WireFirst(first, ParseRecords(tail).value);
        RecordOf(s);
        assert s[..3 + n] + tail == s;
      }
    }
  }

  lemma ParseNothing()
    ensures ParseRecords([]) == Some([]) && Wire([]) == []
  {
  }

  lemma RecordOf(s: seq<byte>)
    requires 3 <= |s| && 3 + U16At(s, 0) <= |s|
    ensures Record(Property(s[2], s[3..3 + U16At(s, 0)])) == s[..3 + U16At(s, 0)]
  {
    hide U16At;
    U16RoundTrip(s);
    assert s[..3] == s[..2] + [s[2]];
  }

  function Prepend(seen: Object, rest: Option<Object>): Option<Object> {
    match rest
    case None => None
    case Some(o) => Some(seen + o)
  }

  /** `seen` are the records of `s` before offset `k`, as far as `s` is well formed. */
  ghost predicate Scanned(s: seq<byte>, k: nat, seen: Object) {
    k <= |s| && ParseRecords(s) == Prepend(seen, ParseRecords(s[k..]))
  }

  lemma ScanFirst(s: seq<byte>)
    ensures Scanned(s, 0, [])
  {
    assert s[0..] == s;
    assert forall o: Object :: [] + o == o;
  }

  /** One more record: either the scan moves on, or `s` is not well formed. */
  lemma ScanStep(s: seq<byte>, k: nat, seen: Object)
    requires Scanned(s, k, seen) && k < |s|
    ensures k + 3 > |s| ==> ParseRecords(s) == None
    ensures k + 3 <= |s| ==> var n := U16At(s, k);
              if k + 3 + n <= |s| then Scanned(s, k + 3 + n, seen + [Property(s[k + 2], s[k + 3..k + 3 + n])])
              else ParseRecords(s) == None
  {
    hide ParseRecords, U16At;
    ParseStep(s[k..]);
    if k + 3 <= |s| {
      U16InTail(s, k);
      var n := U16At(s, k);
      if k + 3 + n <= |s| {
        var p, tail := Property(s[k + 2], s[k + 3..k + 3 + n]), s[k + 3 + n..];
        TailOfTail(s, k, n);
        if ParseRecords(tail).Some? {
          Assoc(seen, [p], ParseRecords(tail).value);
        }
      }
    }
  }

  lemma U16InTail(s: seq<byte>, k: nat)
    requires k + 2 <= |s|
    ensures U16At(s[k..], 0) == U16At(s, k)
  {
  }

  lemma TailOfTail(s: seq<byte>, k: nat, n: nat)
    requires k + 3 + n <= |s|
    ensures s[k..][2] == s[k + 2]
    ensures s[k..][3..3 + n] == s[k + 3..k + 3 + n]
    ensures s[k..][3 + n..] == s[k + 3 + n..]
  {
  }

  lemma ParseStep(t: seq<byte>)
    requires t != []
    ensures ParseRecords(t) ==
            if |t| < 3 || |t| < 3 + U16At(t, 0) then None
            else Prepend([Property(t[2], t[3..3 + U16At(t, 0)])], ParseRecords(t[3 + U16At(t, 0)..]))
  {
  }

  lemma ScanLast(s: seq<byte>, seen: Object)
    requires Scanned(s, |s|, seen)
    ensures ParseRecords(s) == Some(seen)
  {
    assert s[|s|..] == [] && seen + [] == seen;
  }

  /** What the receive callback gets to see of one object. */
  datatype Received =
    | Readable(properties: Object)
    | Unreadable(code: byte)
    | Overrun  // the pointer table does not hold the object, and the check does not notice

  /** `n` pointers of `ptr` bytes each; the product, kept linear for the verifier. */
  function PointerBytes(n: nat, ptr: nat): nat
  {
    if n == 0 then 0 else PointerBytes(n - 1, ptr) + ptr
  }

  lemma {:induction false} PointerBytesProduct(n: nat, ptr: nat)
    ensures PointerBytes(n, ptr) == n * ptr
  {
    if n > 0 {
      PointerBytesProduct(n - 1, ptr);
    }
  }

  lemma {:induction false} PointerBytesMonotone(n: nat, k: nat, ptr: nat)
    requires n <= k
    ensures PointerBytes(n, ptr) <= PointerBytes(k, ptr)
  {
    if n < k {
      PointerBytesMonotone(n, k - 1, ptr);
    }
  }

  /** Bytes taken by the size of an object and its pointer table for `n` properties and NULL. */
  function TableSize(n: nat, ptr: nat): nat
  {
    2 + PointerBytes(n + 1, ptr)
  }

  /** The outcome of reading the object bytes `s` into `available` bytes, with `ptr`-byte pointers. */
  function ReadObject(s: seq<byte>, available: nat, ptr: nat): (r: Received)
    ensures r.Unreadable? ==> r.code != 0
    ensures r.Readable? || r.Overrun? ==> ParseRecords(s).Some?
  {
    match ParseRecords(s)
    case None => Unreadable(1)
    case Some(o) =>
      if TableSize(|o| % 256, ptr) > available then Unreadable(2)
      else if TableSize(|o|, ptr) > available then Overrun
      else Readable(o)
  }

  lemma Malformed(s: seq<byte>, available: nat, ptr: nat)
    requires ParseRecords(s) == None
    ensures ReadObject(s, available, ptr) == Unreadable(1)
  {
  }

  /** What the reader decides once it has scanned all records. */
  lemma ReadVerdict(s: seq<byte>, available: nat, ptr: nat, o: Object)
    requires ParseRecords(s) == Some(o)
    ensures Wire(o) == s
    ensures ReadObject(s, available, ptr) ==
            if TableSize(|o| % 256, ptr) > available then Unreadable(2)
            else if TableSize(|o|, ptr) > available then Overrun
            else Readable(o)
  {
    WireParse(s);
  }

  /** An object that fits in 767 bytes cannot wrap the 8-bit property count. */
  lemma NoOverrun(s: seq<byte>, available: nat, ptr: nat)
    requires |s| <= 767
    ensures ReadObject(s, available, ptr) != Overrun
  {
    if ParseRecords(s).Some? {
      WireParse(s);
      WireSize(ParseRecords(s).value);
    }
  }

  /**
   * Exact acceptance: the object is readable if and only if the bytes are a whole
   * concatenation of records whose pointer table fits, and then it is those records.
   */
  lemma ExactAcceptance(s: seq<byte>, available: nat, ptr: nat, o: Object)
    ensures ReadObject(s, available, ptr) == Readable(o) <==>
            s == Wire(o) && TableSize(|o|, ptr) <= available
  {
    hide Wire, ParseRecords;
    if ReadObject(s, available, ptr) == Readable(o) {
      WireParse(s);
    }
    if s == Wire(o) {
      ParseWire(o);
      PointerBytesMonotone(|o| % 256 + 1, |o| + 1, ptr);
    }
  }

  /** The bound check is passed by an object that does not fit exactly when the count wraps. */
  lemma OverrunExactly(o: Object, available: nat, ptr: nat)
    ensures ReadObject(Wire(o), available, ptr) == Overrun <==>
            TableSize(|o| % 256, ptr) <= available < TableSize(|o|, ptr)
  {
    ParseWire(o);
  }

  /** Properties without values: three bytes each. */
  function Empties(n: nat): Object {
    if n == 0 then [] else [Property(0, [])] + Empties(n - 1)
  }

  lemma {:induction false} EmptiesSize(n: nat)
    ensures |Empties(n)| == n && |Wire(Empties(n))| == 3 * n
  {
    if n > 0 {
      EmptiesSize(n - 1);
      WireFirst(Property(0, []), Empties(n - 1));
    }
  }

  /** One byte more than `NoOverrun` allows: 256 empty properties pass as none. */
  lemma OverrunReached(ptr: nat)
    requires 0 < ptr <= 8
    ensures |Wire(Empties(256))| == 768 && ReadObject(Wire(Empties(256)), 128, ptr) == Overrun
  {
    hide Wire, Empties, ParseRecords;
    EmptiesSize(256);
    OverrunExactly(Empties(256), 128, ptr);
    PointerBytesProduct(1, ptr);
    PointerBytesProduct(257, ptr);
  }
}
