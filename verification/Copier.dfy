/** Copying an object into a block of its own: proto_object_copy. */
module Copier {
  import opened Bytes
  import opened Objects
  import opened Memory
  import opened Builder

  /** Laying an object out leaves everything apart from it alone. */
  lemma PartElsewhere(m: seq<byte>, obj: nat, ptr: nat, size: u16, base: nat, seen: Object, b: nat, n: nat)
    requires obj + |PartHead(size, base, seen, ptr)| <= base && base + |Wire(seen)| <= |m| && b + n <= |m|
    requires Apart(obj, base + |Wire(seen)| - obj, b, n)
    ensures Part(m, obj, ptr, size, base, seen)[b..b + n] == m[b..b + n]
  {
    hide Wire, PartHead, Patch;
    PatchMiss(m, obj, PartHead(size, base, seen, ptr), b, n);
    PatchMiss(Patch(m, obj, PartHead(size, base, seen, ptr)), base, Wire(seen), b, n);
  }

  lemma PartNextRecordFirst(m: seq<byte>, obj: nat, ptr: nat, size: u16, base: nat, seen: Object, p: Property)
    requires obj + |PartHead(size, base, seen, ptr)| + ptr <= base
    requires base + |Wire(seen)| + |Record(p)| <= |m|
    ensures |Wire(seen + [p])| == |Wire(seen)| + |Record(p)|
    ensures |PartHead(size, base, seen + [p], ptr)| == |PartHead(size, base, seen, ptr)| + ptr
    ensures Patch(Patch(Part(m, obj, ptr, size, base, seen), base + |Wire(seen)|, Record(p)),
                  obj + |PartHead(size, base, seen, ptr)|, Le(base + |Wire(seen)|, ptr))
            == Part(m, obj, ptr, size, base, seen + [p])
  {
    hide Le, Wire, Record, PartHead, Patch, Part;
    PartNext(m, obj, ptr, size, base, seen, p);
    PatchCommute(Part(m, obj, ptr, size, base, seen), base + |Wire(seen)|, Record(p),
                 obj + |PartHead(size, base, seen, ptr)|, Le(base + |Wire(seen)|, ptr));
  }

  /** What a copy needs of its source and its destination. */
  ghost predicate Copyable(m: seq<byte>, obj: nat, ptr: nat, from: nat, o: Object, dst: nat) {
    && Holds(m, obj, ptr, from, o) && |o| < 0x100
    && 0 < dst && dst + OwnedSize(o, ptr) <= |m|
    && Apart(dst, OwnedSize(o, ptr), obj, TableSize(|o|, ptr))
    && Apart(dst, OwnedSize(o, ptr), from, |Wire(o)|)
  }

  /** A copy in progress: `seen` has been copied, and `slot` is next in the source table. */
  ghost predicate Copying(m: seq<byte>, obj: nat, ptr: nat, from: nat, o: Object, dst: nat,
                          seen: Object, rest: Object, slot: nat) {
    && Copyable(m, obj, ptr, from, o, dst)
    && o == seen + rest
    && |Wire(o)| == |Wire(seen)| + |Wire(rest)|
    && obj <= slot && slot + PointerBytes(|rest| + 1, ptr) == obj + TableSize(|o|, ptr)
    && Rest(m, slot, ptr, from + |Wire(seen)|, rest)
  }

  /** The memory of a copy in progress. */
  ghost function Copied(m: seq<byte>, obj: nat, ptr: nat, from: nat, o: Object, dst: nat,
                        seen: Object, rest: Object, slot: nat): (r: seq<byte>)
    requires Copying(m, obj, ptr, from, o, dst, seen, rest, slot)
    ensures |r| == |m|
  {
    CopyRoom(m, obj, ptr, from, o, dst, seen, rest, slot);
    Part(m, dst, ptr, |Wire(o)|, DataStart(dst, |o|, ptr), seen)
  }

  lemma CopyFacts(m: seq<byte>, obj: nat, ptr: nat, from: nat, o: Object, dst: nat,
                  seen: Object, rest: Object, slot: nat)
    requires Copying(m, obj, ptr, from, o, dst, seen, rest, slot)
    ensures Copyable(m, obj, ptr, from, o, dst) && Holds(m, obj, ptr, from, o)
    ensures o == seen + rest && |Wire(o)| == |Wire(seen)| + |Wire(rest)|
    ensures obj <= slot && slot + PointerBytes(|rest| + 1, ptr) == obj + TableSize(|o|, ptr)
    ensures 0 < from && Rest(m, slot, ptr, from + |Wire(seen)|, rest)
  {
    hide Wire, Rest, TableSize, OwnedSize, StoresAt;
  }

  lemma CopyRoom(m: seq<byte>, obj: nat, ptr: nat, from: nat, o: Object, dst: nat,
                 seen: Object, rest: Object, slot: nat)
    requires Copying(m, obj, ptr, from, o, dst, seen, rest, slot)
    ensures |Wire(o)| < 0x1_0000 && |o| < 0x100
    ensures dst + 2 + PointerBytes(|seen|, ptr) + ptr <= DataStart(dst, |o|, ptr)
    ensures DataStart(dst, |o|, ptr) + |Wire(seen)| + |Wire(rest)| == dst + OwnedSize(o, ptr) <= |m|
    ensures obj + TableSize(|o|, ptr) <= |m| && from + |Wire(o)| <= |m|
    ensures Apart(dst, OwnedSize(o, ptr), obj, TableSize(|o|, ptr))
    ensures Apart(dst, OwnedSize(o, ptr), from, |Wire(o)|)
    ensures slot + ptr <= obj + TableSize(|o|, ptr)
  {
    hide Wire, Rest, Holds, PointerBytes;
    SlotFits(dst, ptr, |seen|, |o|);
    HoldsRange(m, obj, ptr, from, o);
    PointerBytesMonotone(1, |rest| + 1, ptr);
    NextPointer(0, ptr);
    NoPointers(ptr);
  }

  lemma CopyFirst(m: seq<byte>, obj: nat, ptr: nat, from: nat, o: Object, dst: nat)
    requires Copyable(m, obj, ptr, from, o, dst)
    ensures Holds(m, obj, ptr, from, o) && |o| < 0x100
    ensures |Wire(o)| < 0x1_0000 && dst + 2 <= |m| && obj + 2 <= |m| && U16At(m, obj) == |Wire(o)|
    ensures Copying(m, obj, ptr, from, o, dst, [], o, obj + 2)
    ensures Copied(m, obj, ptr, from, o, dst, [], o, obj + 2) == Patch(m, dst, Le16(|Wire(o)|))
    ensures Wire([]) == []
  {
    hide Wire, Rest, Part, Patch, PartHead, Holds, U16At;
    HoldsRest(m, obj, ptr, from, o);
    HoldsRange(m, obj, ptr, from, o);
    PartFirst(m, dst, ptr, |Wire(o)|, DataStart(dst, |o|, ptr));
    assert [] + o == o;
  }

  /** The pointer to follow next is still the one in the source table. */
  lemma CopySlot(m: seq<byte>, obj: nat, ptr: nat, from: nat, o: Object, dst: nat,
                 seen: Object, rest: Object, slot: nat)
    requires Copying(m, obj, ptr, from, o, dst, seen, rest, slot)
    ensures slot + ptr <= |m|
    ensures Copied(m, obj, ptr, from, o, dst, seen, rest, slot)[slot..slot + ptr] == m[slot..slot + ptr]
  {
    hide Wire, Rest, Part, Patch, PartHead, Holds, Copying, TableSize, OwnedSize;
    CopyRoom(m, obj, ptr, from, o, dst, seen, rest, slot);
    CopyFacts(m, obj, ptr, from, o, dst, seen, rest, slot);
    PartElsewhere(m, dst, ptr, |Wire(o)|, DataStart(dst, |o|, ptr), seen, slot, ptr);
  }

  /** The record to copy next is still there. */
  lemma CopyRecord(m: seq<byte>, obj: nat, ptr: nat, from: nat, o: Object, dst: nat,
                   seen: Object, rest: Object, slot: nat)
    requires Copying(m, obj, ptr, from, o, dst, seen, rest, slot) && rest != []
    ensures var m', at, r := Copied(m, obj, ptr, from, o, dst, seen, rest, slot), from + |Wire(seen)|, rest[0];
      && at + 3 + |r.value| <= |m'|
      && U16At(m', at) == |r.value| && m'[at..at + 3 + |r.value|] == Record(r)
  {
    hide Wire, Rest, Part, Patch, PartHead, Holds, Copying, TableSize, OwnedSize, Record, StoresAt, U16At;
    var at, r := from + |Wire(seen)|, rest[0];
    CopyFacts(m, obj, ptr, from, o, dst, seen, rest, slot);
    RestStep(m, slot, ptr, at, rest);
    WireCons(rest);
    CopyRoom(m, obj, ptr, from, o, dst, seen, rest, slot);
    PartElsewhere(m, dst, ptr, |Wire(o)|, DataStart(dst, |o|, ptr), seen, at, |Record(r)|);
    SourceRecord(m, Copied(m, obj, ptr, from, o, dst, seen, rest, slot), at, r);
  }

  lemma CopyNext(m: seq<byte>, obj: nat, ptr: nat, from: nat, o: Object, dst: nat,
                 seen: Object, rest: Object, slot: nat)
    requires Copying(m, obj, ptr, from, o, dst, seen, rest, slot) && rest != []
    ensures var r, base := rest[0], DataStart(dst, |o|, ptr);
      var it, cp := base + |Wire(seen)|, dst + 2 + PointerBytes(|seen|, ptr);
      && it + |Record(r)| <= |m| && cp + ptr <= |m|
      && |Wire(seen + [r])| == |Wire(seen)| + |Record(r)|
      && Copying(m, obj, ptr, from, o, dst, seen + [r], rest[1..], slot + ptr)
      && Patch(Patch(Copied(m, obj, ptr, from, o, dst, seen, rest, slot), it, Record(r)), cp, Le(it, ptr))
         == Copied(m, obj, ptr, from, o, dst, seen + [r], rest[1..], slot + ptr)
  {
    hide Wire, Rest, Part, Patch, PartHead, Holds, Copying, Copyable, TableSize, OwnedSize, Record, StoresAt, Le;
    var at, r := from + |Wire(seen)|, rest[0];
    CopyFacts(m, obj, ptr, from, o, dst, seen, rest, slot);
    RestStep(m, slot, ptr, at, rest);
    WireCons(rest);
    CopyRoom(m, obj, ptr, from, o, dst, seen, rest, slot);
    PartNextRecordFirst(m, dst, ptr, |Wire(o)|, DataStart(dst, |o|, ptr), seen, r);
    Assoc(seen, [r], rest[1..]);
    assert [r] + rest[1..] == rest;
    NextPointer(|rest|, ptr);
    CopyAdvance(m, obj, ptr, from, o, dst, seen + [r], rest[1..], slot + ptr);
  }

  lemma CopyAdvance(m: seq<byte>, obj: nat, ptr: nat, from: nat, o: Object, dst: nat,
                    seen: Object, rest: Object, slot: nat)
    requires Copyable(m, obj, ptr, from, o, dst)
    requires o == seen + rest && |Wire(o)| == |Wire(seen)| + |Wire(rest)|
    requires obj <= slot && slot + PointerBytes(|rest| + 1, ptr) == obj + TableSize(|o|, ptr)
    requires Rest(m, slot, ptr, from + |Wire(seen)|, rest)
    ensures Copying(m, obj, ptr, from, o, dst, seen, rest, slot)
  {
    hide Wire, Rest, TableSize, Copyable, PointerBytes;
  }

  lemma CopyLast(m: seq<byte>, obj: nat, ptr: nat, from: nat, o: Object, dst: nat, slot: nat)
    requires Copying(m, obj, ptr, from, o, dst, o, [], slot)
    ensures |Wire(o)| < 0x1_0000 && dst + 2 + PointerBytes(|o|, ptr) + ptr <= |m|
    ensures Patch(Copied(m, obj, ptr, from, o, dst, o, [], slot), dst + 2 + PointerBytes(|o|, ptr), Le(0, ptr))
            == LaidOut(m, dst, ptr, o)
    ensures Owns(LaidOut(m, dst, ptr, o), dst, ptr, o)
  {
    hide Wire, Rest, Part, Patch, PartHead, Holds, Copying, TableSize, LaidOut, Owns, Le, Pow256;
    CopyRoom(m, obj, ptr, from, o, dst, o, [], slot);
    CopyFacts(m, obj, ptr, from, o, dst, o, [], slot);
    HoldsRange(m, obj, ptr, from, o);
    PartLast(m, dst, ptr, |Wire(o)|, o);
    LaidOutOwns(m, dst, ptr, o);
  }

  /** The body of the copying loop: one record, and the pointer to it. */
  method CopyRecordBytes(mem: array<byte>, p: nat, it: nat, cp: nat, ptr: nat, ghost r: Property) returns (n: nat)
    requires p + 3 + |r.value| <= mem.Length && U16At(mem[..], p) == |r.value|
    requires mem[..][p..p + 3 + |r.value|] == Record(r)
    requires it + |Record(r)| <= mem.Length && cp + ptr <= mem.Length
    modifies mem
    ensures n == |Record(r)|
    ensures mem[..] == Patch(Patch(old(mem[..]), it, Record(r)), cp, Le(it, ptr))
  {
    hide *;
    var valueSize := LoadU16(mem, p);
    n := valueSize;
    n := n + 3;
    var record := mem[p..p + n];
    assert record == mem[..][p..p + n];
    WriteBytes(mem, it, record);
    WriteBytes(mem, cp, Le(it, ptr));
  }

  /** Reads the next pointer of the source table while the copy is being written. */
  method CopyLoad(mem: array<byte>, ghost m: seq<byte>, ghost obj: nat, ptr: nat, ghost from: nat, ghost o: Object,
                  ghost dst: nat, ghost seen: Object, ghost rest: Object, slot: nat) returns (p: nat)
    requires Copying(m, obj, ptr, from, o, dst, seen, rest, slot)
    requires mem[..] == Copied(m, obj, ptr, from, o, dst, seen, rest, slot)
    ensures p == if rest == [] then 0 else from + |Wire(seen)|
    ensures 0 < from
  {
    hide *;
    CopySlot(m, obj, ptr, from, o, dst, seen, rest, slot);
    CopyFacts(m, obj, ptr, from, o, dst, seen, rest, slot);
    p := LoadSlot(mem, m, slot, ptr, from + |Wire(seen)|, rest);
  }

  /** proto_object_copy, into a block fresh from malloc at `dst`. */
  method Copy(mem: array<byte>, obj: nat, ptr: nat, dst: nat, ghost from: nat, ghost o: Object)
    requires Copyable(mem[..], obj, ptr, from, o, dst)
    modifies mem
    ensures |Wire(o)| < 0x1_0000 && dst + OwnedSize(o, ptr) <= mem.Length
    ensures mem[..] == LaidOut(old(mem[..]), dst, ptr, o)
    ensures Owns(mem[..], dst, ptr, o)
  {
    hide *;
    ghost var m := mem[..];
    CopyFirst(m, obj, ptr, from, o, dst);
    var n := CountProperties(mem, obj, ptr, from, o);
    var size := LoadU16(mem, obj);
    WriteBytes(mem, dst, Le16(size));
    var cp: nat, it: nat, slot: nat := dst + 2, DataStart(dst, n, ptr), obj + 2;
    ghost var seen: Object, rest: Object := [], o;
    NoPointers(ptr);
    var p := CopyLoad(mem, m, obj, ptr, from, o, dst, seen, rest, slot);
    while p != 0
      invariant Copying(m, obj, ptr, from, o, dst, seen, rest, slot)
      invariant p == if rest == [] then 0 else from + |Wire(seen)|
      invariant cp == dst + 2 + PointerBytes(|seen|, ptr) && it == DataStart(dst, |o|, ptr) + |Wire(seen)|
      invariant mem[..] == Copied(m, obj, ptr, from, o, dst, seen, rest, slot)
      decreases |rest|
    {
      CopyRecord(m, obj, ptr, from, o, dst, seen, rest, slot);
      CopyNext(m, obj, ptr, from, o, dst, seen, rest, slot);
      var k := CopyRecordBytes(mem, p, it, cp, ptr, rest[0]);
      it := it + k;
      NextPointer(|seen|, ptr);
      cp := cp + ptr;
      slot := slot + ptr;
      seen, rest := seen + [rest[0]], rest[1..];
      p := CopyLoad(mem, m, obj, ptr, from, o, dst, seen, rest, slot);
    }
    CopyFacts(m, obj, ptr, from, o, dst, seen, rest, slot);
    assert seen == o;
    CopyRoom(m, obj, ptr, from, o, dst, seen, rest, slot);
    CopyLast(m, obj, ptr, from, o, dst, slot);
    WriteBytes(mem, cp, Le(0, ptr));
  }

  lemma WireCons(o: Object)
    requires o != []
    ensures |Wire(o)| == |Record(o[0])| + |Wire(o[1..])|
  {
  }

  lemma SourceRecord(m: seq<byte>, m': seq<byte>, a: nat, p: Property)
    requires StoresAt(m, a, Record(p)) && |m'| == |m|
    requires m'[a..a + |Record(p)|] == m[a..a + |Record(p)|]
    ensures a + 3 + |p.value| <= |m|
    ensures U16At(m', a) == |p.value| && m'[a..a + 3 + |p.value|] == Record(p)
  {
    RecordAt(m', a, p);
  }

  /**
   * The copy is faithful, the original is still there, and whatever later happens to the
   * memory outside the copy, the receive buffer included, the copy stays.
   */
  lemma CopyIsIndependent(m: seq<byte>, m': seq<byte>, obj: nat, ptr: nat, from: nat, o: Object, dst: nat)
    requires Holds(m, obj, ptr, from, o) && 0 < dst && dst + OwnedSize(o, ptr) <= |m|
    requires Apart(dst, OwnedSize(o, ptr), obj, TableSize(|o|, ptr))
    requires Apart(dst, OwnedSize(o, ptr), from, |Wire(o)|)
    requires |m'| == |m| && m'[dst..dst + OwnedSize(o, ptr)] == LaidOut(m, dst, ptr, o)[dst..dst + OwnedSize(o, ptr)]
    ensures Holds(LaidOut(m, dst, ptr, o), obj, ptr, from, o)
    ensures Owns(m', dst, ptr, o)
  {
    hide Wire, Pow256, Patch, Holds, PointerBytes, Owns, LaidOut;
    HoldsRange(m, obj, ptr, from, o);
    LaidOutOwns(m, dst, ptr, o);
    OwnsFrame(LaidOut(m, dst, ptr, o), m', dst, ptr, o);
    LaidOutElsewhere(m, dst, ptr, o, obj, TableSize(|o|, ptr));
    LaidOutElsewhere(m, dst, ptr, o, from, |Wire(o)|);
    HoldsFrame(m, LaidOut(m, dst, ptr, o), obj, ptr, from, o);
  }
}
