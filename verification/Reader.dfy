/** Pointing an object at received bytes: the C reader and the Z80 reader of proto_object_read. */
module Reader {
  import opened Bytes
  import opened Objects
  import opened Memory
  import opened Builder

  /** The memory after the object at `obj` was pointed at the records of `o` at `from`. */
  ghost function PointedAt(m: seq<byte>, obj: nat, ptr: nat, from: nat, o: Object): (r: seq<byte>)
    requires |Wire(o)| < 0x1_0000 && obj + TableSize(|o|, ptr) <= |m|
    ensures |r| == |m|
  {
    HeadSize(from, o, ptr);
    Patch(m, obj, Head(from, o, ptr))
  }

  /** Pointing an object at the records elsewhere in memory makes it hold them. */
  lemma PointedAtHolds(m: seq<byte>, obj: nat, ptr: nat, from: nat, o: Object)
    requires 0 < ptr && 0 < from && |m| <= Pow256(ptr)
    requires |Wire(o)| < 0x1_0000 && obj + TableSize(|o|, ptr) <= |m|
    requires StoresAt(m, from, Wire(o)) && Apart(obj, TableSize(|o|, ptr), from, |Wire(o)|)
    ensures Holds(PointedAt(m, obj, ptr, from, o), obj, ptr, from, o)
  {
    hide Wire, Pow256, Head, TableSize;
    HeadSize(from, o, ptr);
    PatchHit(m, obj, Head(from, o, ptr));
    PatchMiss(m, obj, Head(from, o, ptr), from, |Wire(o)|);
  }

  /** The memory while the table is being filled. */
  ghost function PartTable(m: seq<byte>, obj: nat, ptr: nat, size: u16, from: nat, seen: Object): (r: seq<byte>)
    requires obj + |PartHead(size, from, seen, ptr)| <= |m|
    ensures |r| == |m|
  {
    Patch(m, obj, PartHead(size, from, seen, ptr))
  }

  lemma PartTableFirst(m: seq<byte>, obj: nat, ptr: nat, size: u16, from: nat)
    requires obj + 2 <= |m|
    ensures Wire([]) == [] && PartHead(size, from, [], ptr) == Le16(size)
    ensures PartTable(m, obj, ptr, size, from, []) == Patch(m, obj, Le16(size))
  {
    hide Le16;
    assert Starts(from, []) == [] && Slots([], ptr) == [];
    assert Le16(size) + [] == Le16(size);
  }

  lemma PartTableNext(m: seq<byte>, obj: nat, ptr: nat, size: u16, from: nat, seen: Object, p: Property)
    requires obj + |PartHead(size, from, seen, ptr)| + ptr <= |m|
    ensures |PartHead(size, from, seen + [p], ptr)| == |PartHead(size, from, seen, ptr)| + ptr
    ensures |Wire(seen + [p])| == |Wire(seen)| + 3 + |p.value|
    ensures Patch(PartTable(m, obj, ptr, size, from, seen), obj + |PartHead(size, from, seen, ptr)|,
                  Le(from + |Wire(seen)|, ptr))
            == PartTable(m, obj, ptr, size, from, seen + [p])
  {
    hide Le, Wire, PartHead, Patch;
    PartHeadNext(size, from, seen, p, ptr);
    WireSnoc(seen, p);
    PatchGrow(m, obj, PartHead(size, from, seen, ptr), Le(from + |Wire(seen)|, ptr));
  }

  lemma PartTableLast(m: seq<byte>, obj: nat, ptr: nat, size: u16, from: nat, o: Object)
    requires size == |Wire(o)| && obj + TableSize(|o|, ptr) <= |m|
    ensures obj + |PartHead(size, from, o, ptr)| + ptr == obj + TableSize(|o|, ptr) <= |m|
    ensures Patch(PartTable(m, obj, ptr, size, from, o), obj + |PartHead(size, from, o, ptr)|, Le(0, ptr))
            == PointedAt(m, obj, ptr, from, o)
  {
    hide Le, Wire, PartHead, Patch, Head;
    PartHeadLast(size, from, o, ptr);
    PatchGrow(m, obj, PartHead(size, from, o, ptr), Le(0, ptr));
  }

  /** While the table is being filled, the records can still be read. */
  lemma NextRecord(m: seq<byte>, obj: nat, ptr: nat, size: u16, from: nat, seen: Object, rest: Object)
    requires |Wire(rest)| > 0 && Apart(obj, TableSize(|seen + rest|, ptr), from, |Wire(seen)| + |Wire(rest)|)
    requires obj + TableSize(|seen + rest|, ptr) <= |m|
    requires StoresAt(m, from + |Wire(seen)|, Wire(rest))
    ensures rest != []
    ensures var p, it, slot := rest[0], from + |Wire(seen)|, obj + |PartHead(size, from, seen, ptr)|;
      && slot + ptr <= |m|
      && it + 3 + |p.value| <= |m|
      && |PartHead(size, from, seen + [p], ptr)| == |PartHead(size, from, seen, ptr)| + ptr
      && |Wire(seen + [p])| == |Wire(seen)| + 3 + |p.value|
      && |Wire(rest)| == 3 + |p.value| + |Wire(rest[1..])|
      && StoresAt(m, it + 3 + |p.value|, Wire(rest[1..]))
      && Patch(PartTable(m, obj, ptr, size, from, seen), slot, Le(it, ptr))
         == PartTable(m, obj, ptr, size, from, seen + [p])
      && U16At(PartTable(m, obj, ptr, size, from, seen + [p]), it) == |p.value|
  {
    hide Wire, Patch, Le, PartHead, StoresAt, Record, PointerBytes;
    NoBytesLeft(rest);
    var p, it := rest[0], from + |Wire(seen)|;
    var h := PartHead(size, from, seen + [p], ptr);
    WireRest(m, it, rest);
    PointerBytesMonotone(|seen| + 1, |seen + rest| + 1, ptr);
    NextPointer(|seen|, ptr);
    NextPointer(|seen| + 1, ptr);
    PointerBytesMonotone(|seen| + 2, |seen + rest| + 1, ptr);
    PartTableNext(m, obj, ptr, size, from, seen, p);
    PatchMiss(m, obj, h, it, |Record(p)|);
    PatchStores(m, obj, h, it, Record(p));
    RecordAt(Patch(m, obj, h), it, p);
  }

  lemma WireRest(m: seq<byte>, it: nat, rest: Object)
    requires rest != [] && StoresAt(m, it, Wire(rest))
    ensures |Wire(rest)| == |Record(rest[0])| + |Wire(rest[1..])|
    ensures StoresAt(m, it, Record(rest[0]))
    ensures StoresAt(m, it + |Record(rest[0])|, Wire(rest[1..]))
  {
    StoresSplit(m, it, Record(rest[0]), Wire(rest[1..]));
  }

  /** One step of the scan over the object bytes at `from`, in terms of the memory. */
  lemma ScanMemory(m: seq<byte>, from: nat, size: nat, it: nat, seen: Object, valueSize: u16)
    requires from <= it < from + size <= |m| && it + 2 <= |m| && valueSize == U16At(m, it)
    requires Scanned(m[from..from + size], it - from, seen)
    ensures if it + 3 + valueSize <= from + size
            then Scanned(m[from..from + size], it + 3 + valueSize - from,
                         seen + [Property(m[it + 2], m[it + 3..it + 3 + valueSize])])
            else ParseRecords(m[from..from + size]) == None
  {
    hide Scanned, ParseRecords;
    var s, k := m[from..from + size], it - from;
    ScanStep(s, k, seen);
    if k + 3 <= size {
      assert U16At(s, k) == valueSize;
      if k + 3 + valueSize <= size {
        SubSlice(m, from, size, k + 3, valueSize);
      }
    }
  }

  /**
   * proto_object_read. The scan may look one byte past the object, never further, and only
   * when the object is not well formed. An object that passes the bound check with a wrapped
   * count is written past `available`. `top` is where writing stopped.
   */
  method Read(mem: array<byte>, obj: nat, ptr: nat, available: u16, size: u16, from: nat)
    returns (code: byte, top: nat)
    requires 0 < ptr && 0 < obj && 0 < from && mem.Length <= Pow256(ptr)
    requires from + size <= mem.Length && obj + available <= mem.Length
    requires Apart(obj, available, from, size)
    requires ParseRecords(mem[from..from + size]) == None ==> from + size + 1 <= mem.Length
    requires ReadObject(mem[from..from + size], available, ptr) == Overrun ==>
               var n := TableSize(|ParseRecords(mem[from..from + size]).value|, ptr);
               obj + n <= mem.Length && Apart(obj, n, from, size)
    modifies mem
    ensures match ReadObject(old(mem[from..from + size]), available, ptr)
            case Unreadable(c) => code == c && top == obj && mem[..] == old(mem[..])
            case Readable(o) =>
              && code == 0 && |Wire(o)| == size && top == obj + TableSize(|o|, ptr) <= obj + available
              && mem[..] == PointedAt(old(mem[..]), obj, ptr, from, o)
              && Holds(mem[..], obj, ptr, from, o)
            case Overrun =>
              var o := ParseRecords(old(mem[from..from + size])).value;
              && code == 0 && |Wire(o)| == size && obj + available < top == obj + TableSize(|o|, ptr)
              && mem[..] == PointedAt(old(mem[..]), obj, ptr, from, o)
              && Holds(mem[..], obj, ptr, from, o)
  {
    hide ParseRecords, Scanned, ReadObject, Wire, Patch, PointedAt, Holds, TableSize, Pow256, U16At;
    ghost var m, s := mem[..], mem[..][from..from + size];
    assert s == mem[from..from + size];
    var n: byte := 0;
    var it: nat, end: nat := from, from + size;
    ghost var seen: Object := [];
    ScanFirst(s);
    while it < end
      invariant mem[..] == m
      invariant from <= it
      invariant it <= end ==> Scanned(s, it - from, seen) && n == |seen| % 256
      invariant it > end ==> ParseRecords(s) == None
      decreases end - it
    {
      n := (n + 1) % 256;
      ScanStep(s, it - from, seen);
      var valueSize := LoadU16(mem, it);
      ScanMemory(m, from, size, it, seen, valueSize);
      if it + 3 + valueSize <= end {
        seen := seen + [Property(m[it + 2], m[it + 3..it + 3 + valueSize])];
      }
      it := it + 3 + valueSize;
    }
    if it != end {
      Malformed(s, available, ptr);
      return 1, obj;
    }
    ScanLast(s, seen);
    ReadVerdict(s, available, ptr, seen);
    if TableSize(n, ptr) > available {
      return 2, obj;
    }
    top := FillTable(mem, obj, ptr, size, from, seen);
    code := 0;
  }

  /** The second half of proto_object_read: entering the records, whose number is now known. */
  method FillTable(mem: array<byte>, obj: nat, ptr: nat, size: u16, from: nat, ghost o: Object) returns (top: nat)
    requires 0 < ptr && 0 < obj && 0 < from && mem.Length <= Pow256(ptr)
    requires size == |Wire(o)| && StoresAt(mem[..], from, Wire(o))
    requires obj + TableSize(|o|, ptr) <= mem.Length && Apart(obj, TableSize(|o|, ptr), from, size)
    modifies mem
    ensures mem[..] == PointedAt(old(mem[..]), obj, ptr, from, o) && top == obj + TableSize(|o|, ptr)
    ensures Holds(mem[..], obj, ptr, from, o)
  {
    hide Wire, Le, Pow256, PartHead, PartTable, PointedAt, Holds, Patch, PointerBytes, U16At;
    ghost var m := mem[..];
    ghost var seen: Object, rest: Object := [], o;
    WriteBytes(mem, obj, Le16(size));
    PartTableFirst(m, obj, ptr, size, from);
    var slot: nat, it: nat, end := obj + 2, from, from + size;
    while it < end
      invariant o == seen + rest
      invariant it == from + |Wire(seen)| && it + |Wire(rest)| == end
      invariant StoresAt(m, it, Wire(rest))
      invariant slot == obj + |PartHead(size, from, seen, ptr)| && slot <= mem.Length
      invariant mem[..] == PartTable(m, obj, ptr, size, from, seen)
      decreases end - it
    {
      NextRecord(m, obj, ptr, size, from, seen, rest);
      WriteBytes(mem, slot, Le(it, ptr));
      slot := slot + ptr;
      var valueSize := LoadU16(mem, it);
      it := it + 3 + valueSize;
      Assoc(seen, [rest[0]], rest[1..]);
      assert [rest[0]] + rest[1..] == rest;
      seen, rest := seen + [rest[0]], rest[1..];
    }
    NoBytesLeft(rest);
    assert seen == o;
    PartTableLast(m, obj, ptr, size, from, o);
    WriteBytes(mem, slot, Le(0, ptr));
    top := slot + ptr;
    PointedAtHolds(m, obj, ptr, from, o);
  }

  lemma NoBytesLeft(o: Object)
    ensures Wire(o) == [] <==> o == []
  {
  }

  /** Subtracting and adding back: the carry of the addition is that of the comparison. */
  lemma CompareZ80(hl: u16, de: u16, difference: int, sum: int)
    requires difference == (hl - de) % 0x1_0000 && sum == difference + de
    ensures sum % 0x1_0000 == hl && (sum >= 0x1_0000 <==> hl < de)
  {
  }

  /** What the Z80 reader writes for an empty object: a record where there is none. */
  ghost function Misread(from: u16): (r: seq<byte>)
    ensures |r| == 6
  {
    Le16(0) + Le(from, 2) + Le(0, 2)
  }

  /**
   * The Z80 reader of the same function: no scan, no bound check, 2-byte pointers, 16-bit
   * address arithmetic, and a loop that enters one record before it looks at the end. From an
   * empty object it takes whatever is behind it, here not so long that addresses wrap around.
   */
  method ReadZ80(mem: array<byte>, obj: nat, size: u16, from: u16, ghost o: Object)
    requires mem.Length <= Pow256(2) && 0 < obj && 0 < from && from + size < 0x1_0000
    requires size == |Wire(o)| && StoresAt(mem[..], from, Wire(o))
    requires o != [] ==> obj + TableSize(|o|, 2) <= mem.Length && Apart(obj, TableSize(|o|, 2), from, size)
    requires o == [] ==>
               && obj + 6 <= mem.Length && from + 2 <= mem.Length && Apart(obj, 6, from, 2)
               && from + 3 + U16At(mem[..], from) < 0x1_0000
    modifies mem
    ensures o != [] ==> mem[..] == PointedAt(old(mem[..]), obj, 2, from, o) && Holds(mem[..], obj, 2, from, o)
    ensures o == [] ==> mem[..] == Patch(old(mem[..]), obj, Misread(from))
  {
    hide Wire, Le, Pow256, PartHead, PartTable, PointedAt, Holds, Patch, PointerBytes, U16At, StoresAt, Le16;
    ghost var m := mem[..];
    ghost var seen: Object, rest: Object := [], o;
    WriteBytes(mem, obj, Le16(size));
    PartTableFirst(m, obj, 2, size, from);
    var ix: nat, hl: u16, de: u16 := obj + 2, from, (from + size) % 0x1_0000;
    NoBytesLeft(rest);
    var carry := true;
    while carry
      invariant ix <= mem.Length && |mem[..]| == |m|
      invariant o != [] ==>
        && o == seen + rest
        && hl == from + |Wire(seen)| && hl + |Wire(rest)| == de
        && (carry <==> rest != [])
        && StoresAt(m, hl, Wire(rest))
        && ix == obj + |PartHead(size, from, seen, 2)|
        && mem[..] == PartTable(m, obj, 2, size, from, seen)
      invariant o == [] ==> if carry then hl == de == from && ix == obj + 2 && mem[..] == Patch(m, obj, Le16(0))
                            else ix == obj + 4 && mem[..] == Patch(m, obj, Le16(0) + Le(from, 2))
      decreases if o == [] then (if carry then 1 else 0) else |rest|
    {
      if o == [] {
        MisreadNext(m, obj, from);
      } else {
        NoBytesLeft(rest);
        NextRecord(m, obj, 2, size, from, seen, rest);
      }
      WriteBytes(mem, ix, Le(hl, 2));
      ix := ix + 2;
      var bc := LoadU16(mem, hl);
      hl := Add16(hl, 3 + bc);
      var difference := (hl - de) % 0x1_0000;  // sbc hl, de
      var sum := difference + de;              // add hl, de
      CompareZ80(hl, de, difference, sum);
      hl, carry := sum % 0x1_0000, sum >= 0x1_0000;
      if o != [] {
        Assoc(seen, [rest[0]], rest[1..]);
        assert [rest[0]] + rest[1..] == rest;
        seen, rest := seen + [rest[0]], rest[1..];
        NoBytesLeft(rest);
      }
    }
    if o == [] {
      PatchGrow(m, obj, Le16(0) + Le(from, 2), Le(0, 2));
    } else {
      assert seen == o;
      PartTableLast(m, obj, 2, size, from, o);
    }
    WriteBytes(mem, ix, Le(0, 2));
    if o != [] {
      PointedAtHolds(m, obj, 2, from, o);
    }
  }

  /** The first pointer into what is behind an empty object, and the value size found there. */
  lemma MisreadNext(m: seq<byte>, obj: nat, from: u16)
    requires obj + 6 <= |m| && from + 2 <= |m| && Apart(obj, 6, from, 2)
    ensures Patch(Patch(m, obj, Le16(0)), obj + 2, Le(from, 2)) == Patch(m, obj, Le16(0) + Le(from, 2))
    ensures U16At(Patch(m, obj, Le16(0) + Le(from, 2)), from) == U16At(m, from)
  {
    hide Patch, Le;
    var m' := Patch(m, obj, Le16(0) + Le(from, 2));
    PatchGrow(m, obj, Le16(0), Le(from, 2));
    PatchMiss(m, obj, Le16(0) + Le(from, 2), from, 2);
    assert m'[from] == m'[from..from + 2][0] && m'[from + 1] == m'[from..from + 2][1];
    assert m[from] == m[from..from + 2][0] && m[from + 1] == m[from..from + 2][1];
  }

  /** What a lookup sees in an empty object that the Z80 reader has read: the bytes behind it. */
  lemma MisreadRecord(m: seq<byte>, obj: nat, from: u16, p: Property)
    requires |m| <= Pow256(2) && 0 < from && obj + 6 <= |m|
    requires StoresAt(m, from, Record(p)) && Apart(obj, 6, from, |Record(p)|)
    ensures Rest(Patch(m, obj, Misread(from)), obj + 2, 2, from, [p])
  {
    hide Patch, Le, Record, Pow256;
    var m' := Patch(m, obj, Misread(from));
    var table := Le(from, 2) + Le(0, 2);
    Assoc(Le16(0), Le(from, 2), Le(0, 2));
    PatchHit(m, obj, Misread(from));
    StoresSplit(m', obj, Le16(0), table);
    PatchStores(m, obj, Misread(from), from, Record(p));
    assert [p][1..] == [] && Wire([p]) == Record(p) + Wire([]);
    TableFirst(from, p, [], 2);
    assert [p] + [] == [p] && PointerTable(from + |Record(p)|, [], 2) == Le(0, 2);
  }

  /**
   * Both readers, run on equal memories, leave equal memories behind if and only if the object
   * is not empty. This is for objects that the C reader accepts.
   */
  method ReadersAgree(c: array<byte>, z80: array<byte>, obj: nat, available: u16, size: u16, from: u16, ghost o: Object)
    requires c != z80 && c[..] == z80[..]
    requires c.Length <= Pow256(2) && 0 < obj && 0 < from && from + size < 0x1_0000
    requires from + size <= c.Length && obj + available <= c.Length && Apart(obj, available, from, size)
    requires ReadObject(c[from..from + size], available, 2) == Readable(o)
    requires o == [] ==>
               && obj + 6 <= c.Length && from + 2 <= c.Length && Apart(obj, 6, from, 2)
               && from + 3 + U16At(c[..], from) < 0x1_0000
    modifies c, z80
    ensures c[..] == z80[..] <==> o != []
    ensures Holds(c[..], obj, 2, from, o)
  {
    hide Wire, ParseRecords, ReadObject, Holds, TableSize, Pow256, Patch, PointedAt, U16At, Misread;
    ghost var m := c[..];
    ExactAcceptance(c[from..from + size], available, 2, o);
    assert c[..][from..from + size] == c[from..from + size];
    var code, top := Read(c, obj, 2, available, size, from);
    ReadZ80(z80, obj, size, from, o);
    if o == [] {
      EmptyDiffers(m, obj, from);
    }
  }

  /** On an empty object the C reader enters NULL where the Z80 reader enters an address. */
  lemma EmptyDiffers(m: seq<byte>, obj: nat, from: u16)
    requires 0 < from && obj + 6 <= |m|
    ensures |Wire([])| == 0 && TableSize(0, 2) == 4
    ensures PointedAt(m, obj, 2, from, []) != Patch(m, obj, Misread(from))
  {
    PointerBytesProduct(1, 2);
    var c, z80 := PointedAt(m, obj, 2, from, []), Patch(m, obj, Misread(from));
    assert Head(from, [], 2) == [0, 0] + Le(0, 2) && Le(0, 2) == [0, 0];
    LeRoundTrip(from, 2);
    assert Pow256(1) == 256 && Pow256(2) == 0x1_0000;
    assert c[obj + 2] == 0 && c[obj + 3] == 0;
    assert z80[obj + 2] == Le(from, 2)[0] && z80[obj + 3] == Le(from, 2)[1];
  }
}
