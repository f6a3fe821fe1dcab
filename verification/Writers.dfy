/** Everything that writes messages: proto_send_one, proto_serialize and proto_send. */
module Writers {
  import opened Bytes
  import opened Objects
  import opened Memory
  import opened Messages

  /** The block of an object that carries its own data is apart from these `n` bytes. */
  ghost predicate ClearOf(obj: nat, o: Object, ptr: nat, b: nat, n: nat) {
    Apart(obj, OwnedSize(o, ptr), b, n)
  }

  /** Overwriting reserved bytes does not change the object. */
  lemma ReservedIsFree(m: seq<byte>, obj: nat, ptr: nat, o: Object, s: seq<byte>)
    requires Owns(m, obj, ptr, o) && |s| <= RESERVED
    ensures obj + OwnedSize(o, ptr) <= |m|
    ensures Owns(Patch(m, DataStart(obj, |o|, ptr) - |s|, s), obj, ptr, o)
  {
    hide Wire, Patch, Head, Pow256, PointerBytes;
    var base := DataStart(obj, |o|, ptr);
    HeadSize(base, o, ptr);
    PatchMiss(m, base - |s|, s, obj, TableSize(|o|, ptr));
    PatchMiss(m, base - |s|, s, base, |Wire(o)|);
  }

  /** The bytes just written in front of the properties, and the properties. */
  lemma FrontAndData(m: seq<byte>, obj: nat, ptr: nat, o: Object, s: seq<byte>)
    requires Owns(m, obj, ptr, o) && |s| <= RESERVED
    ensures var a := DataStart(obj, |o|, ptr) - |s|;
      && a + |s| + |Wire(o)| <= |m|
      && Patch(m, a, s)[a..a + |s| + |Wire(o)|] == s + Wire(o)
  {
    hide Wire, Patch, Head, Pow256, PointerBytes;
    var base := DataStart(obj, |o|, ptr);
    var m' := Patch(m, base - |s|, s);
    PatchHit(m, base - |s|, s);
    PatchMiss(m, base - |s|, s, base, |Wire(o)|);
    StoresSplit(m', base - |s|, s, Wire(o));
  }

  /** proto_object_data_update_size: puts the size in front of the properties. */
  method UpdateSize(mem: array<byte>, obj: nat, ptr: nat, ghost o: Object) returns (d: nat)
    requires Owns(mem[..], obj, ptr, o) && |o| < 0x100
    modifies mem
    ensures |Wire(o)| < 0x1_0000 && d == DataStart(obj, |o|, ptr) - 2
    ensures d + 2 + |Wire(o)| <= mem.Length
    ensures mem[..] == Patch(old(mem[..]), d, Le16(|Wire(o)|))
    ensures mem[..][d..d + 2 + |Wire(o)|] == Framed(o)
    ensures Owns(mem[..], obj, ptr, o)
  {
    hide Wire, Patch, Head, Pow256, PointerBytes, TableSize, Holds, StoresAt, Le16, U16At;
    ghost var m, base := mem[..], DataStart(obj, |o|, ptr);
    HoldsRest(m, obj, ptr, base, o);
    HoldsRange(m, obj, ptr, base, o);
    FrontAndData(m, obj, ptr, o, Le16(|Wire(o)|));
    ReservedIsFree(m, obj, ptr, o, Le16(|Wire(o)|));
    var data := ObjectData(mem, obj, ptr, base, o);
    d := data + RESERVED - 2;
    var size := LoadU16(mem, obj);
    WriteBytes(mem, d, Le16(size));
  }

  /** proto_send_one: the whole message header goes into the reserved bytes, in place. */
  method SendOne(mem: array<byte>, obj: nat, ptr: nat, id: u16, flags: byte, ghost o: Object)
    returns (sent: seq<byte>)
    requires Owns(mem[..], obj, ptr, o) && |o| < 0x100
    modifies mem
    ensures sent == Encode(Message(flags, id, [o]))
    ensures |Wire(o)| < 0x1_0000 && obj + OwnedSize(o, ptr) <= mem.Length
    ensures mem[..] == Patch(old(mem[..]), DataStart(obj, |o|, ptr) - RESERVED,
                             HeaderBytes(Header(flags, Add16(|Wire(o)|, 2), id)) + Le16(|Wire(o)|))
    ensures Owns(mem[..], obj, ptr, o)
  {
    hide Wire, Patch, Head, Pow256, PointerBytes, TableSize, Holds, Encode, HeaderBytes, Le16;
    ghost var m, base := mem[..], DataStart(obj, |o|, ptr);
    HoldsRest(m, obj, ptr, base, o);
    HoldsRange(m, obj, ptr, base, o);
    OneEncoded(flags, id, o);
    var size := LoadU16(mem, obj);
    var header := HeaderBytes(Header(flags, Add16(size, 2), id)) + Le16(size);
    FrontAndData(m, obj, ptr, o, header);
    ReservedIsFree(m, obj, ptr, o, header);
    var d := ObjectData(mem, obj, ptr, base, o);
    WriteBytes(mem, d, header);
    sent := mem[d..d + size + RESERVED];
    assert sent == mem[..][d..d + RESERVED + size];
  }

  lemma OneEncoded(flags: byte, id: u16, o: Object)
    requires |Wire(o)| < 0x1_0000
    ensures Encode(Message(flags, id, [o])) ==
            HeaderBytes(Header(flags, Add16(|Wire(o)|, 2), id)) + Le16(|Wire(o)|) + Wire(o)
  {
    hide Wire, HeaderBytes, Body;
    BodyOfOne(o);
    Assoc(HeaderBytes(Header(flags, Add16(|Wire(o)|, 2), id)), Le16(|Wire(o)|), Wire(o));
  }

  // ---------------------------------------------------------------- lists of objects

  /** The array of object pointers handed to a writer, and what those objects are. */
  ghost predicate AllOwn(m: seq<byte>, ptr: nat, objs: seq<nat>, os: seq<Object>) {
    |objs| == |os| && forall i :: 0 <= i < |os| ==> Owns(m, objs[i], ptr, os[i]) && |os[i]| < 0x100
  }

  /** Different objects do not overlap; the same object may well be listed twice. */
  ghost predicate Separate(ptr: nat, objs: seq<nat>, os: seq<Object>)
    requires |objs| == |os|
  {
    forall i, j :: 0 <= i < |os| && 0 <= j < |os| ==>
      if objs[i] == objs[j] then os[i] == os[j]
      else Apart(objs[i], OwnedSize(os[i], ptr), objs[j], OwnedSize(os[j], ptr))
  }

  ghost predicate ClearOfAll(ptr: nat, objs: seq<nat>, os: seq<Object>, a: nat, n: nat)
    requires |objs| == |os|
  {
    forall i :: 0 <= i < |os| ==> ClearOf(objs[i], os[i], ptr, a, n)
  }

  lemma BodySnoc(os: seq<Object>, i: nat)
    requires i < |os|
    ensures Body(os[..i + 1]) == Body(os[..i]) + Framed(os[i])
    ensures |Body(os[..i + 1])| <= |Body(os)|
  {
    hide Wire, Framed;
    assert os[..i + 1] == os[..i] + [os[i]];
    assert os == os[..i + 1] + os[i + 1..];
    BodyAppend(os[..i + 1], os[i + 1..]);
    BodyAppend(os[..i], [os[i]]);
    assert Body([os[i]]) == Framed(os[i]) + Body([]);
  }

  lemma OwnsElsewhere(m: seq<byte>, obj: nat, ptr: nat, o: Object, a: nat, s: seq<byte>)
    requires Owns(m, obj, ptr, o) && a + |s| <= |m|
    ensures obj + OwnedSize(o, ptr) <= |m|
    ensures ClearOf(obj, o, ptr, a, |s|) ==> Owns(Patch(m, a, s), obj, ptr, o)
  {
    hide Wire, Patch, Holds;
    HoldsRange(m, obj, ptr, DataStart(obj, |o|, ptr), o);
    if ClearOf(obj, o, ptr, a, |s|) {
      PatchMiss(m, a, s, obj, OwnedSize(o, ptr));
      OwnsFrame(m, Patch(m, a, s), obj, ptr, o);
    }
  }

  lemma AllOwnElsewhere(m: seq<byte>, ptr: nat, objs: seq<nat>, os: seq<Object>, a: nat, s: seq<byte>)
    requires AllOwn(m, ptr, objs, os) && a + |s| <= |m| && ClearOfAll(ptr, objs, os, a, |s|)
    ensures AllOwn(Patch(m, a, s), ptr, objs, os)
  {
    hide Owns, Patch, ClearOf;
    forall i | 0 <= i < |os|
      ensures Owns(Patch(m, a, s), objs[i], ptr, os[i])
    {
      OwnsElsewhere(m, objs[i], ptr, os[i], a, s);
    }
  }

  /** Updating the size of one object leaves all objects what they are. */
  lemma AllOwnUpdated(m: seq<byte>, ptr: nat, objs: seq<nat>, os: seq<Object>, k: nat, s: seq<byte>)
    requires AllOwn(m, ptr, objs, os) && Separate(ptr, objs, os) && k < |os| && |s| <= RESERVED
    ensures DataStart(objs[k], |os[k]|, ptr) <= |m|
    ensures AllOwn(Patch(m, DataStart(objs[k], |os[k]|, ptr) - |s|, s), ptr, objs, os)
  {
    hide Owns, Patch, Wire, TableSize;
    var a := DataStart(objs[k], |os[k]|, ptr) - |s|;
    ReservedIsFree(m, objs[k], ptr, os[k], s);
    forall i | 0 <= i < |os|
      ensures Owns(Patch(m, a, s), objs[i], ptr, os[i])
    {
      if objs[i] != objs[k] {
        OwnsElsewhere(m, objs[i], ptr, os[i], a, s);
      }
    }
  }

  method ObjectSize(mem: array<byte>, obj: nat, ptr: nat, ghost o: Object) returns (size: u16)
    requires Owns(mem[..], obj, ptr, o)
    ensures size == |Wire(o)|
  {
    hide Holds, Wire;
    HoldsRest(mem[..], obj, ptr, DataStart(obj, |o|, ptr), o);
    size := LoadU16(mem, obj);
  }

  /** The loop that adds up object sizes, in a 16-bit counter starting at `start`. */
  method AddSizes(mem: array<byte>, ptr: nat, objs: seq<nat>, start: u16, ghost os: seq<Object>)
    returns (size: u16)
    requires AllOwn(mem[..], ptr, objs, os)
    ensures size == (start + |Body(os)|) % 0x1_0000
  {
    hide Owns, Wire, Framed, Body;
    size := start;
    BodyNone();
    assert os[..0] == [];
    for i := 0 to |objs|
      invariant size == (start + |Body(os[..i])|) % 0x1_0000
    {
      BodySnoc(os, i);
      var objectSize := ObjectSize(mem, objs[i], ptr, os[i]);
      var step: nat := objectSize;
      size := Add16(size, step + 2);
    }
    assert os[..|objs|] == os;
  }

  /** proto_serialize_get_size: a 16-bit sum, although the result type is wider. */
  method SerializeGetSize(mem: array<byte>, ptr: nat, objs: seq<nat>, ghost os: seq<Object>)
    returns (size: u16)
    requires AllOwn(mem[..], ptr, objs, os)
    ensures size == (5 + |Body(os)|) % 0x1_0000
    ensures size == |Encode(Message(0, 0, os))| <==> |Encode(Message(0, 0, os))| < 0x1_0000
  {
    hide Wire;
    size := AddSizes(mem, ptr, objs, 5, os);
  }

  /** proto_serialize; with the block from malloc as `data`, also the buffer proto_send fills. */
  method Serialize(mem: array<byte>, data: nat, ptr: nat, objs: seq<nat>, id: u16, flags: byte,
                   ghost os: seq<Object>) returns (end: nat)
    requires AllOwn(mem[..], ptr, objs, os) && Separate(ptr, objs, os) && |os| < 0x100
    requires data + 5 + |Body(os)| <= mem.Length && ClearOfAll(ptr, objs, os, data, 5 + |Body(os)|)
    modifies mem
    ensures end == data + |Encode(Message(flags, id, os))| <= mem.Length
    ensures mem[data..end] == Encode(Message(flags, id, os))
    ensures AllOwn(mem[..], ptr, objs, os)
  {
    hide Owns, Wire, Framed, Patch, ClearOf, OwnedSize;
    var size := AddSizes(mem, ptr, objs, 0, os);
    ghost var header := HeaderBytes(Header(flags, size, id));
    ClearOfPart(ptr, objs, os, data, 5 + |Body(os)|, data, 5);
    AllOwnElsewhere(mem[..], ptr, objs, os, data, header);
    PatchHit(mem[..], data, header);
    WriteBytes(mem, data, HeaderBytes(Header(flags, size, id)));
    end := data + 5;
    assert header + Body(os[..0]) == header;
    for i := 0 to |objs|
      invariant AllOwn(mem[..], ptr, objs, os)
      invariant |Body(os[..i])| <= |Body(os)|
      invariant end == data + |header + Body(os[..i])|
      invariant StoresAt(mem[..], data, header + Body(os[..i]))
    {
      BodySnoc(os, i);
      AppendObject(mem, data, ptr, objs, end, i, header + Body(os[..i]), os, 5 + |Body(os)|);
      var objectSize := ObjectSize(mem, objs[i], ptr, os[i]);
      Assoc(header, Body(os[..i]), Framed(os[i]));
      end := end + objectSize + 2;
    }
    assert os[..|objs|] == os;
    assert mem[..][data..end] == mem[data..end];
  }

  lemma ClearOfPart(ptr: nat, objs: seq<nat>, os: seq<Object>, a: nat, n: nat, b: nat, k: nat)
    requires |objs| == |os| && ClearOfAll(ptr, objs, os, a, n) && a <= b && b + k <= a + n
    ensures ClearOfAll(ptr, objs, os, b, k)
  {
    hide OwnedSize;
    forall i | 0 <= i < |os|
      ensures ClearOf(objs[i], os[i], ptr, b, k)
    {
      assert ClearOf(objs[i], os[i], ptr, a, n);
    }
  }

  /** The body of the writing loop: one more object behind what has been written. */
  method AppendObject(mem: array<byte>, ghost data: nat, ptr: nat, objs: seq<nat>, end: nat, i: nat,
                      ghost written: seq<byte>, ghost os: seq<Object>, ghost room: nat)
    requires AllOwn(mem[..], ptr, objs, os) && Separate(ptr, objs, os) && i < |os|
    requires StoresAt(mem[..], data, written) && end == data + |written|
    requires |written| + |Framed(os[i])| <= room && data + room <= mem.Length
    requires ClearOfAll(ptr, objs, os, data, room)
    modifies mem
    ensures AllOwn(mem[..], ptr, objs, os)
    ensures StoresAt(mem[..], data, written + Framed(os[i]))
  {
    hide Owns, Wire, Patch, ClearOf, OwnedSize, Framed, TableSize, StoresAt, Separate, ClearOfAll;
    ghost var m, o := mem[..], os[i];
    var size := ObjectSize(mem, objs[i], ptr, o);
    AllOwnUpdated(m, ptr, objs, os, i, Le16(size));
    ReservedClear(ptr, objs, os, i, data, room);
    var d := UpdateSize(mem, objs[i], ptr, o);
    PatchStores(m, d, Le16(size), data, written);
    ghost var m1 := mem[..];
    var bytes := mem[d..d + size + 2];
    assert bytes == m1[d..d + 2 + size];
    ClearOfPart(ptr, objs, os, data, room, end, |bytes|);
    AllOwnElsewhere(m1, ptr, objs, os, end, bytes);
    AppendStores(m1, data, written, bytes);
    WriteBytes(mem, end, bytes);
  }

  lemma AppendStores(m: seq<byte>, a: nat, s: seq<byte>, t: seq<byte>)
    requires StoresAt(m, a, s) && a + |s| + |t| <= |m|
    ensures StoresAt(Patch(m, a + |s|, t), a, s + t)
  {
    hide Patch;
    PatchMiss(m, a + |s|, t, a, |s|);
    PatchHit(m, a + |s|, t);
    StoresSplit(Patch(m, a + |s|, t), a, s, t);
  }

  /** The reserved bytes of a listed object are apart from the output. */
  lemma ReservedClear(ptr: nat, objs: seq<nat>, os: seq<Object>, i: nat, data: nat, room: nat)
    requires |objs| == |os| && i < |os| && ClearOfAll(ptr, objs, os, data, room)
    ensures Apart(DataStart(objs[i], |os[i]|, ptr) - 2, 2, data, room)
  {
    assert ClearOf(objs[i], os[i], ptr, data, room);
  }

  /** proto_send where the objects are combined: one block from malloc, one call to send. */
  method SendCombined(mem: array<byte>, block: nat, ptr: nat, objs: seq<nat>, id: u16, flags: byte,
                      ghost os: seq<Object>) returns (sent: seq<byte>)
    requires AllOwn(mem[..], ptr, objs, os) && Separate(ptr, objs, os) && |os| < 0x100
    requires block + 5 + |Body(os)| <= mem.Length && ClearOfAll(ptr, objs, os, block, 5 + |Body(os)|)
    modifies mem
    ensures sent == Encode(Message(flags, id, os))
    ensures AllOwn(mem[..], ptr, objs, os)
  {
    hide *;
    var end := Serialize(mem, block, ptr, objs, id, flags, os);
    sent := mem[block..end];
  }

  /** proto_send where they are not: the header and every object in calls of their own. */
  method SendPiecewise(mem: array<byte>, ptr: nat, objs: seq<nat>, id: u16, flags: byte,
                       ghost os: seq<Object>) returns (sent: seq<byte>)
    requires AllOwn(mem[..], ptr, objs, os) && Separate(ptr, objs, os) && |os| < 0x100
    modifies mem
    ensures sent == Encode(Message(flags, id, os))
    ensures AllOwn(mem[..], ptr, objs, os)
  {
    hide Owns, Wire, Framed, Patch, ClearOf, OwnedSize;
    var size := AddSizes(mem, ptr, objs, 0, os);
    ghost var header := HeaderBytes(Header(flags, size, id));
    sent := HeaderBytes(Header(flags, size, id));
    assert header + Body(os[..0]) == header;
    for i := 0 to |objs|
      invariant AllOwn(mem[..], ptr, objs, os)
      invariant sent == header + Body(os[..i])
    {
      BodySnoc(os, i);
      var objectSize := ObjectSize(mem, objs[i], ptr, os[i]);
      AllOwnUpdated(mem[..], ptr, objs, os, i, Le16(objectSize));
      var d := UpdateSize(mem, objs[i], ptr, os[i]);
      assert mem[..][d..d + 2 + objectSize] == mem[d..d + objectSize + 2];
      Assoc(header, Body(os[..i]), Framed(os[i]));
      sent := sent + mem[d..d + objectSize + 2];
    }
    assert os[..|objs|] == os;
  }
}
