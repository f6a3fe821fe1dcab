/** Laying an object out in memory: proto_object_assign and proto_object_allocate. */
module Builder {
  import opened Bytes
  import opened Objects
  import opened Memory

  /** The daisy chain of properties an object is built from, the last one declared first. */
  datatype Chain = End | Link(property: Property, prev: Chain)

  /** The properties that reach the object: empty ones are dropped. */
  function Kept(chain: Chain): Object {
    match chain
    case End => []
    case Link(p, prev) => if p.value == [] then Kept(prev) else [p] + Kept(prev)
  }

  /** The properties of a chain, as they are linked: the last one declared comes first. */
  function Links(chain: Chain): Object {
    match chain
    case End => []
    case Link(p, prev) => [p] + Links(prev)
  }

  /** All properties of a chain reach the object, in that order, except those without a value. */
  lemma {:induction false} KeptIs(chain: Chain)
    ensures forall p :: p in Kept(chain) <==> p in Links(chain) && |p.value| > 0
    ensures (forall p :: p in Links(chain) ==> |p.value| > 0) ==> Kept(chain) == Links(chain)
    ensures chain.Link? ==>
              Kept(chain) == (if |chain.property.value| > 0 then [chain.property] else []) + Kept(chain.prev)
  {
    if chain.Link? {
      KeptIs(chain.prev);
      assert [] + Kept(chain.prev) == Kept(chain.prev);
    }
  }

  method WriteProperty(mem: array<byte>, target: nat, p: Property)
    requires target + |Record(p)| <= mem.Length
    modifies mem
    ensures mem[..] == Patch(old(mem[..]), target, Record(p))
  {
    WriteBytes(mem, target, Le16(|p.value|));
    WriteBytes(mem, target + 2, [p.key]);
    PatchGrow(old(mem[..]), target, Le16(|p.value|), [p.key]);
    WriteBytes(mem, target + 3, p.value);
    PatchGrow(old(mem[..]), target, Le16(|p.value|) + [p.key], p.value);
  }

  /** The head of an object while its table is being filled: `seen` has been entered. */
  ghost function PartHead(size: u16, from: nat, seen: Object, ptr: nat): (r: seq<byte>)
    ensures |r| == 2 + PointerBytes(|seen|, ptr)
  {
    SlotsSize(Starts(from, seen), ptr);
    Le16(size) + Slots(Starts(from, seen), ptr)
  }

  lemma PartHeadNext(size: u16, from: nat, seen: Object, p: Property, ptr: nat)
    ensures PartHead(size, from, seen + [p], ptr) ==
            PartHead(size, from, seen, ptr) + Le(from + |Wire(seen)|, ptr)
  {
    hide Le, Wire;
    var start := from + |Wire(seen)|;
    StartsAppend(from, seen, p);
    SlotsAppend(Starts(from, seen), [start], ptr);
    SlotsFirst(start, [], ptr);
    Assoc(Le16(size), Slots(Starts(from, seen), ptr), Le(start, ptr));
  }

  lemma PartHeadLast(size: u16, from: nat, o: Object, ptr: nat)
    requires size == |Wire(o)|
    ensures PartHead(size, from, o, ptr) + Le(0, ptr) == Head(from, o, ptr)
  {
    hide Le, Wire, Starts, Slots;
    Assoc(Le16(size), Slots(Starts(from, o), ptr), Le(0, ptr));
  }

  lemma WireSnoc(o: Object, p: Property)
    ensures Wire(o + [p]) == Wire(o) + Record(p)
  {
    hide Record;
    WireAppend(o, [p]);
    WireFirst(p, []);
    assert [p] + [] == [p];
  }

  /** The memory while an object is being laid out: `seen` has been written. */
  ghost function Part(m: seq<byte>, obj: nat, ptr: nat, size: u16, base: nat, seen: Object): (r: seq<byte>)
    requires obj + |PartHead(size, base, seen, ptr)| <= |m| && base + |Wire(seen)| <= |m|
    ensures |r| == |m|
  {
    Patch(Patch(m, obj, PartHead(size, base, seen, ptr)), base, Wire(seen))
  }

  lemma PartFirst(m: seq<byte>, obj: nat, ptr: nat, size: u16, base: nat)
    requires obj + 2 <= |m| && base <= |m|
    ensures Wire([]) == [] && PartHead(size, base, [], ptr) == Le16(size)
    ensures Part(m, obj, ptr, size, base, []) == Patch(m, obj, Le16(size))
  {
    hide Le16;
    assert Starts(base, []) == [] && Slots([], ptr) == [];
    assert Le16(size) + [] == Le16(size);
    PatchNothing(Patch(m, obj, Le16(size)), base);
  }

  lemma PartNext(m: seq<byte>, obj: nat, ptr: nat, size: u16, base: nat, seen: Object, p: Property)
    requires obj + |PartHead(size, base, seen, ptr)| + ptr <= base
    requires base + |Wire(seen)| + |Record(p)| <= |m|
    ensures |Wire(seen + [p])| == |Wire(seen)| + |Record(p)|
    ensures |PartHead(size, base, seen + [p], ptr)| == |PartHead(size, base, seen, ptr)| + ptr
    ensures Patch(Patch(Part(m, obj, ptr, size, base, seen),
                        obj + |PartHead(size, base, seen, ptr)|, Le(base + |Wire(seen)|, ptr)),
                  base + |Wire(seen)|, Record(p))
            == Part(m, obj, ptr, size, base, seen + [p])
  {
    hide Le, Wire, Record, PartHead, Patch;
    var h, l := PartHead(size, base, seen, ptr), Le(base + |Wire(seen)|, ptr);
    var w, r := Wire(seen), Record(p);
    PartHeadNext(size, base, seen, p, ptr);
    WireSnoc(seen, p);
    var mh := Patch(m, obj, h);
    PatchCommute(mh, base, w, obj + |h|, l);
    PatchGrow(m, obj, h, l);
    PatchGrow(Patch(m, obj, h + l), base, w, r);
  }

  lemma PartLast(m: seq<byte>, obj: nat, ptr: nat, size: u16, o: Object)
    requires size == |Wire(o)| && obj + OwnedSize(o, ptr) <= |m|
    ensures obj + |PartHead(size, DataStart(obj, |o|, ptr), o, ptr)| + ptr <= |m|
    ensures DataStart(obj, |o|, ptr) + |Wire(o)| <= |m|
    ensures Patch(Part(m, obj, ptr, size, DataStart(obj, |o|, ptr), o),
                  obj + |PartHead(size, DataStart(obj, |o|, ptr), o, ptr)|, Le(0, ptr))
            == LaidOut(m, obj, ptr, o)
  {
    hide Le, Wire, PartHead, Patch, Starts, Slots, Head;
    var base := DataStart(obj, |o|, ptr);
    var h := PartHead(size, base, o, ptr);
    PartHeadLast(size, base, o, ptr);
    PatchCommute(Patch(m, obj, h), base, Wire(o), obj + |h|, Le(0, ptr));
    PatchGrow(m, obj, h, Le(0, ptr));
  }

  /** There is room for one more slot in front of the reserved bytes, and for NULL. */
  lemma SlotFits(obj: nat, ptr: nat, i: nat, n: nat)
    requires i <= n
    ensures obj + 2 + PointerBytes(i, ptr) + ptr <= DataStart(obj, n, ptr)
  {
    PointerBytesMonotone(i + 1, n + 1, ptr);
  }

  /**
   * proto_object_assign and, at an address fresh from malloc, proto_object_allocate. As in
   * the code, nothing checks that the object fits: that is up to the caller.
   */
  method Assign(mem: array<byte>, obj: nat, ptr: nat, chain: Chain)
    requires 0 < ptr && 0 < obj && mem.Length <= Pow256(ptr)
    requires |Wire(Kept(chain))| < 0x1_0000 && |Kept(chain)| < 0x100
    requires obj + OwnedSize(Kept(chain), ptr) <= mem.Length
    modifies mem
    ensures mem[..] == LaidOut(old(mem[..]), obj, ptr, Kept(chain))
    ensures Owns(mem[..], obj, ptr, Kept(chain))
  {
    hide *;
    ghost var m, o := mem[..], Kept(chain);
    var size: u16 := 0;
    var n: byte := 0;
    var property := chain;
    while property != End
      invariant size + |Wire(Kept(property))| == |Wire(o)|
      invariant n + |Kept(property)| == |o|
      invariant mem[..] == m
      decreases property
    {
      KeptStep(property);
      if property.property.value != [] {
        size := size + |property.property.value| + 3;
        n := n + 1;
      }
      property := property.prev;
    }
    KeptEnd();

    var base: nat := DataStart(obj, n, ptr);
    OwnedEnd(obj, ptr, o);
    WriteBytes(mem, obj, Le16(size));
    PartFirst(m, obj, ptr, size, base);
    var slot: nat, data: nat := obj + 2, base;
    ghost var seen: Object := [];
    assert o == seen + Kept(chain);
    property := chain;
    while property != End
      invariant o == seen + Kept(property)
      invariant |Wire(o)| == |Wire(seen)| + |Wire(Kept(property))|
      invariant slot == obj + |PartHead(size, base, seen, ptr)| && data == base + |Wire(seen)|
      invariant slot <= mem.Length && data <= mem.Length
      invariant mem[..] == Part(m, obj, ptr, size, base, seen)
      decreases property
    {
      KeptStep(property);
      if property.property.value != [] {
        ghost var p := property.property;
        SlotFits(obj, ptr, |seen|, |o|);
        PartNext(m, obj, ptr, size, base, seen, p);
        WriteBytes(mem, slot, Le(data, ptr));
        slot := slot + ptr;
        WriteProperty(mem, data, property.property);
        data := data + |property.property.value| + 3;
        Assoc(seen, [p], Kept(property.prev));
        seen := seen + [p];
      }
      property := property.prev;
    }
    KeptEnd();
    assert seen == o;
    PartLast(m, obj, ptr, size, o);
    WriteBytes(mem, slot, Le(0, ptr));
    LaidOutOwns(m, obj, ptr, o);
  }

  lemma KeptStep(chain: Chain)
    requires chain != End
    ensures Kept(chain) == if chain.property.value == [] then Kept(chain.prev)
                           else [chain.property] + Kept(chain.prev)
    ensures |Wire(Kept(chain))| == |Wire(Kept(chain.prev))| +
                                   if chain.property.value == [] then 0 else 3 + |chain.property.value|
  {
    WireFirst(chain.property, Kept(chain.prev));
  }

  lemma KeptEnd()
    ensures Kept(End) == [] && Wire([]) == []
  {
  }

  lemma OwnedEnd(obj: nat, ptr: nat, o: Object)
    ensures DataStart(obj, |o|, ptr) + |Wire(o)| == obj + OwnedSize(o, ptr)
    ensures obj + 2 + RESERVED <= DataStart(obj, |o|, ptr)
  {
  }
}
