/**
 * The object codec over one flat memory. An address is an index into `mem`, 0 is NULL, and
 * a pointer is stored as `ptr` bytes, least significant first. What every routine does to
 * the memory is stated outright, as the old memory with some bytes patched.
 */
module Memory {
  import opened Bytes
  import opened Objects

  /** The bytes proto_send_one reserves in front of the properties of an object. */
  const RESERVED: nat := 7

  // ---------------------------------------------------------------- patching a memory

  ghost function Patch(m: seq<byte>, a: nat, s: seq<byte>): (r: seq<byte>)
    requires a + |s| <= |m|
    ensures |r| == |m|
  {
    m[..a] + s + m[a + |s|..]
  }

  ghost predicate StoresAt(m: seq<byte>, a: nat, s: seq<byte>) {
    a + |s| <= |m| && m[a..a + |s|] == s
  }

  ghost predicate Apart(a: nat, n: nat, b: nat, k: nat) {
    a + n <= b || b + k <= a
  }

  lemma PatchHit(m: seq<byte>, a: nat, s: seq<byte>)
    requires a + |s| <= |m|
    ensures StoresAt(Patch(m, a, s), a, s)
  {
  }

  lemma PatchMiss(m: seq<byte>, a: nat, s: seq<byte>, b: nat, n: nat)
    requires a + |s| <= |m| && b + n <= |m| && Apart(a, |s|, b, n)
    ensures Patch(m, a, s)[b..b + n] == m[b..b + n]
  {
    var x, y := Patch(m, a, s)[b..b + n], m[b..b + n];
    forall i | 0 <= i < n
      ensures x[i] == y[i]
    {
      assert x[i] == Patch(m, a, s)[b + i] == m[b + i];
    }
  }

  lemma PatchGrow(m: seq<byte>, a: nat, s: seq<byte>, t: seq<byte>)
    requires a + |s| + |t| <= |m|
    ensures Patch(Patch(m, a, s), a + |s|, t) == Patch(m, a, s + t)
  {
  }

  lemma PatchCommute(m: seq<byte>, a: nat, s: seq<byte>, b: nat, t: seq<byte>)
    requires a + |s| <= |m| && b + |t| <= |m| && Apart(a, |s|, b, |t|)
    ensures Patch(Patch(m, a, s), b, t) == Patch(Patch(m, b, t), a, s)
  {
    var x, y := Patch(Patch(m, a, s), b, t), Patch(Patch(m, b, t), a, s);
    forall i | 0 <= i < |m|
      ensures x[i] == y[i]
    {
    }
  }

  lemma PatchNothing(m: seq<byte>, a: nat)
    requires a <= |m|
    ensures Patch(m, a, []) == m
  {
  }

  lemma StoresSplit(m: seq<byte>, a: nat, s: seq<byte>, t: seq<byte>)
    ensures StoresAt(m, a, s + t) <==> StoresAt(m, a, s) && StoresAt(m, a + |s|, t)
  {
    if a + |s| + |t| <= |m| {
      var w := m[a..a + |s| + |t|];
      assert w[..|s|] == m[a..a + |s|] && w[|s|..] == m[a + |s|..a + |s| + |t|];
      if w == s + t {
        assert w[..|s|] == s && w[|s|..] == t;
      }
      assert w == w[..|s|] + w[|s|..];
    }
  }

  lemma PatchStores(m: seq<byte>, a: nat, s: seq<byte>, b: nat, t: seq<byte>)
    requires a + |s| <= |m| && StoresAt(m, b, t) && Apart(a, |s|, b, |t|)
    ensures StoresAt(Patch(m, a, s), b, t)
  {
    PatchMiss(m, a, s, b, |t|);
  }

  method WriteBytes(mem: array<byte>, a: nat, s: seq<byte>)
    requires a + |s| <= mem.Length
    modifies mem
    ensures mem[..] == Patch(old(mem[..]), a, s)
  {
    forall i | 0 <= i < |s| {
      mem[a + i] := s[i];
    }
  }

  method LoadU16(mem: array<byte>, a: nat) returns (x: u16)
    requires a + 2 <= mem.Length
    ensures x == U16At(mem[..], a)
  {
    x := U16At(mem[a..a + 2], 0);
  }

  // ---------------------------------------------------------------- the object layout

  /** Where the records of `o` start when the first one is at `from`. */
  ghost function Starts(from: nat, o: Object): (r: seq<nat>)
    ensures |r| == |o|
    decreases |o|
  {
    if o == [] then [] else [from] + Starts(from + |Record(o[0])|, o[1..])
  }

  ghost function Slots(starts: seq<nat>, ptr: nat): seq<byte> {
    if starts == [] then [] else Le(starts[0], ptr) + Slots(starts[1..], ptr)
  }

  /** The pointer table for the records of `o`, with its NULL. */
  ghost function PointerTable(from: nat, o: Object, ptr: nat): seq<byte> {
    Slots(Starts(from, o), ptr) + Le(0, ptr)
  }

  /** Object size, pointer table and NULL: the head of an object whose records are at `from`. */
  ghost function Head(from: nat, o: Object, ptr: nat): seq<byte>
    requires |Wire(o)| < 0x1_0000
  {
    Le16(|Wire(o)|) + PointerTable(from, o, ptr)
  }

  /** The object at `obj` has the properties `o`, whose records are at `from`. */
  ghost predicate Holds(m: seq<byte>, obj: nat, ptr: nat, from: nat, o: Object) {
    && 0 < ptr && 0 < from && |m| <= Pow256(ptr)
    && |Wire(o)| < 0x1_0000
    && StoresAt(m, obj, Head(from, o, ptr))
    && StoresAt(m, from, Wire(o))
  }

  /** Where the records of an object with `n` properties go that carries its own data. */
  function DataStart(obj: nat, n: nat, ptr: nat): nat {
    obj + TableSize(n, ptr) + RESERVED
  }

  /** Bytes taken by an object that carries its own data. */
  function OwnedSize(o: Object, ptr: nat): nat {
    TableSize(|o|, ptr) + RESERVED + |Wire(o)|
  }

  /** The object at `obj` carries its own data, right behind the reserved bytes. */
  ghost predicate Owns(m: seq<byte>, obj: nat, ptr: nat, o: Object) {
    Holds(m, obj, ptr, DataStart(obj, |o|, ptr), o)
  }

  /** The memory after an object with the properties `o` was laid out at `obj`. */
  ghost function LaidOut(m: seq<byte>, obj: nat, ptr: nat, o: Object): (r: seq<byte>)
    requires |Wire(o)| < 0x1_0000 && obj + OwnedSize(o, ptr) <= |m|
    ensures |r| == |m|
  {
    HeadSize(DataStart(obj, |o|, ptr), o, ptr);
    Patch(Patch(m, obj, Head(DataStart(obj, |o|, ptr), o, ptr)), DataStart(obj, |o|, ptr), Wire(o))
  }

  lemma {:induction false} SlotsSize(starts: seq<nat>, ptr: nat)
    ensures |Slots(starts, ptr)| == PointerBytes(|starts|, ptr)
  {
    if starts != [] {
      SlotsSize(starts[1..], ptr);
    }
  }

  lemma HeadSize(from: nat, o: Object, ptr: nat)
    requires |Wire(o)| < 0x1_0000
    ensures |Head(from, o, ptr)| == TableSize(|o|, ptr)
  {
    SlotsSize(Starts(from, o), ptr);
  }

  lemma {:induction false} SlotsAppend(a: seq<nat>, b: seq<nat>, ptr: nat)
    ensures Slots(a + b, ptr) == Slots(a, ptr) + Slots(b, ptr)
  {
    hide Le, Slots;
    if a == [] {
      assert a + b == b;
      SlotsNone(ptr);
    } else {
      SlotsAppend(a[1..], b, ptr);
      assert a == [a[0]] + a[1..] && a + b == [a[0]] + (a[1..] + b);
      SlotsFirst(a[0], a[1..], ptr);
      SlotsFirst(a[0], a[1..] + b, ptr);
      Assoc(Le(a[0], ptr), Slots(a[1..], ptr), Slots(b, ptr));
    }
  }

  lemma {:induction false} StartsAppend(from: nat, a: Object, p: Property)
    ensures Starts(from, a + [p]) == Starts(from, a) + [from + |Wire(a)|]
    decreases |a|
  {
    if a != [] {
      var next := from + |Record(a[0])|;
      StartsAppend(next, a[1..], p);
      assert (a + [p])[1..] == a[1..] + [p];
      Assoc([from], Starts(next, a[1..]), [from + |Wire(a)|]);
    }
  }

  lemma SlotsNone(ptr: nat)
    ensures Slots([], ptr) == []
  {
  }

  lemma SlotsFirst(start: nat, starts: seq<nat>, ptr: nat)
    ensures Slots([start] + starts, ptr) == Le(start, ptr) + Slots(starts, ptr)
  {
    assert ([start] + starts)[1..] == starts;
  }

  lemma TableFirst(from: nat, p: Property, o: Object, ptr: nat)
    ensures PointerTable(from, [p] + o, ptr) == Le(from, ptr) + PointerTable(from + |Record(p)|, o, ptr)
  {
    assert ([p] + o)[1..] == o;
    var starts := Starts(from + |Record(p)|, o);
    assert Starts(from, [p] + o) == [from] + starts;
    SlotsFirst(from, starts, ptr);
    Assoc(Le(from, ptr), Slots(starts, ptr), Le(0, ptr));
  }

  /** Laying an object out yields an object that holds exactly those properties. */
  lemma LaidOutOwns(m: seq<byte>, obj: nat, ptr: nat, o: Object)
    requires 0 < ptr && |m| <= Pow256(ptr)
    requires |Wire(o)| < 0x1_0000 && obj + OwnedSize(o, ptr) <= |m|
    ensures Owns(LaidOut(m, obj, ptr, o), obj, ptr, o)
  {
    var base := DataStart(obj, |o|, ptr);
    HeadSize(base, o, ptr);
    var m1 := Patch(m, obj, Head(base, o, ptr));
    PatchHit(m, obj, Head(base, o, ptr));
    PatchHit(m1, base, Wire(o));
    PatchMiss(m1, base, Wire(o), obj, TableSize(|o|, ptr));
  }

  /** An object that carries its own data does not care what happens to the rest of the memory. */
  lemma OwnsFrame(m: seq<byte>, m': seq<byte>, obj: nat, ptr: nat, o: Object)
    requires Owns(m, obj, ptr, o)
    requires |m'| == |m| && m'[obj..obj + OwnedSize(o, ptr)] == m[obj..obj + OwnedSize(o, ptr)]
    ensures Owns(m', obj, ptr, o)
  {
    hide Wire, Pow256, PointerTable, PointerBytes;
    var base, n := DataStart(obj, |o|, ptr), OwnedSize(o, ptr);
    HeadSize(base, o, ptr);
    var t := TableSize(|o|, ptr);
    SubSlice(m, obj, n, 0, t);
    SubSlice(m', obj, n, 0, t);
    SubSlice(m, obj, n, t + RESERVED, |Wire(o)|);
    SubSlice(m', obj, n, t + RESERVED, |Wire(o)|);
  }

  lemma LaidOutElsewhere(m: seq<byte>, obj: nat, ptr: nat, o: Object, b: nat, n: nat)
    requires |Wire(o)| < 0x1_0000 && obj + OwnedSize(o, ptr) <= |m|
    requires b + n <= |m| && Apart(obj, OwnedSize(o, ptr), b, n)
    ensures LaidOut(m, obj, ptr, o)[b..b + n] == m[b..b + n]
  {
    hide Wire, Patch, PointerBytes;
    var base := DataStart(obj, |o|, ptr);
    HeadSize(base, o, ptr);
    PatchMiss(m, obj, Head(base, o, ptr), b, n);
    PatchMiss(Patch(m, obj, Head(base, o, ptr)), base, Wire(o), b, n);
  }

  lemma NoPointers(ptr: nat)
    ensures PointerBytes(0, ptr) == 0
  {
  }

  lemma NextPointer(n: nat, ptr: nat)
    ensures PointerBytes(n + 1, ptr) == PointerBytes(n, ptr) + ptr
  {
  }

  // ---------------------------------------------------------------- walking an object

  /** From `slot` on, the pointer table lists the records of `o`, and those start at `from`. */
  ghost predicate Rest(m: seq<byte>, slot: nat, ptr: nat, from: nat, o: Object) {
    && 0 < ptr && 0 < from && |m| <= Pow256(ptr)
    && StoresAt(m, slot, PointerTable(from, o, ptr))
    && StoresAt(m, from, Wire(o))
  }

  lemma HoldsRest(m: seq<byte>, obj: nat, ptr: nat, from: nat, o: Object)
    requires Holds(m, obj, ptr, from, o)
    ensures 0 < ptr && 0 < from
    ensures obj + 2 <= |m| && U16At(m, obj) == |Wire(o)|
    ensures Rest(m, obj + 2, ptr, from, o)
  {
    hide Le, FromLe, Pow256, Starts, Slots, Wire;
    StoresSplit(m, obj, Le16(|Wire(o)|), PointerTable(from, o, ptr));
    assert m[obj..obj + 2] == Le16(|Wire(o)|);
    assert m[obj] == m[obj..obj + 2][0] && m[obj + 1] == m[obj..obj + 2][1];
  }

  lemma HoldsRange(m: seq<byte>, obj: nat, ptr: nat, from: nat, o: Object)
    requires Holds(m, obj, ptr, from, o)
    ensures 0 < ptr && 0 < from && |m| <= Pow256(ptr)
    ensures obj + TableSize(|o|, ptr) <= |m| && from + |Wire(o)| <= |m| && |Wire(o)| < 0x1_0000
  {
    HeadSize(from, o, ptr);
  }

  lemma HoldsFrame(m: seq<byte>, m': seq<byte>, obj: nat, ptr: nat, from: nat, o: Object)
    requires Holds(m, obj, ptr, from, o) && |m'| == |m|
    requires obj + TableSize(|o|, ptr) <= |m| && from + |Wire(o)| <= |m|
    requires m'[obj..obj + TableSize(|o|, ptr)] == m[obj..obj + TableSize(|o|, ptr)]
    requires m'[from..from + |Wire(o)|] == m[from..from + |Wire(o)|]
    ensures Holds(m', obj, ptr, from, o)
  {
    hide Wire, Pow256, Head, TableSize;
    HeadSize(from, o, ptr);
  }

  lemma RecordAt(m: seq<byte>, a: nat, p: Property)
    requires StoresAt(m, a, Record(p))
    ensures a + 3 + |p.value| <= |m|
    ensures U16At(m, a) == |p.value| && m[a + 2] == p.key && m[a + 3..a + 3 + |p.value|] == p.value
  {
    var r := m[a..a + 3 + |p.value|];
    assert m[a] == r[0] && m[a + 1] == r[1] && m[a + 2] == r[2];
    assert m[a + 3..a + 3 + |p.value|] == r[3..];
  }

  /** The table is NULL-terminated: the slot at hand says whether there is another record. */
  lemma RestStep(m: seq<byte>, slot: nat, ptr: nat, from: nat, o: Object)
    requires Rest(m, slot, ptr, from, o)
    ensures slot + ptr <= |m|
    ensures o == [] ==> FromLe(m[slot..slot + ptr]) == 0
    ensures o != [] ==>
            && FromLe(m[slot..slot + ptr]) == from
            && StoresAt(m, from, Record(o[0]))
            && Rest(m, slot + ptr, ptr, from + |Record(o[0])|, o[1..])
  {
    hide Pow256, Le, FromLe, Wire, Record;
    if o == [] {
      assert PointerTable(from, o, ptr) == Le(0, ptr);
      LeRoundTrip(0, ptr);
    } else {
      assert [o[0]] + o[1..] == o;
      RestNext(m, slot, ptr, from, o[0], o[1..]);
    }
  }

  lemma RestNext(m: seq<byte>, slot: nat, ptr: nat, from: nat, p: Property, o: Object)
    requires Rest(m, slot, ptr, from, [p] + o)
    ensures slot + ptr <= |m|
    ensures FromLe(m[slot..slot + ptr]) == from
    ensures StoresAt(m, from, Record(p))
    ensures Rest(m, slot + ptr, ptr, from + |Record(p)|, o)
  {
    hide Pow256, Le, FromLe, PointerTable, Wire, Record;
    var next := from + |Record(p)|;
    TableFirst(from, p, o, ptr);
    StoresSplit(m, slot, Le(from, ptr), PointerTable(next, o, ptr));
    WireFirst(p, o);
    StoresSplit(m, from, Record(p), Wire(o));
    LeRoundTrip(from, ptr);
  }

  /** Reads the pointer in `slot`, of which `rest` are the records still to come. */
  method LoadSlot(mem: array<byte>, ghost m: seq<byte>, slot: nat, ptr: nat, ghost at: nat, ghost rest: Object)
    returns (p: nat)
    requires Rest(m, slot, ptr, at, rest) && |m| == mem.Length
    requires slot + ptr <= |m| ==> mem[..][slot..slot + ptr] == m[slot..slot + ptr]
    ensures slot + ptr <= |m|
    ensures p == if rest == [] then 0 else at
    ensures rest != [] ==> 0 < at && StoresAt(m, at, Record(rest[0]))
    ensures rest != [] ==> Rest(m, slot + ptr, ptr, at + |Record(rest[0])|, rest[1..])
  {
    RestStep(m, slot, ptr, at, rest);
    assert mem[..][slot..slot + ptr] == mem[slot..slot + ptr];
    p := FromLe(mem[slot..slot + ptr]);
  }

  /** The loop that counts properties up to NULL, in an 8-bit counter. */
  method CountProperties(mem: array<byte>, obj: nat, ptr: nat, ghost from: nat, ghost o: Object)
    returns (n: byte)
    requires Holds(mem[..], obj, ptr, from, o) && |o| < 0x100
    ensures n == |o|
  {
    hide *;
    HoldsRest(mem[..], obj, ptr, from, o);
    n := 0;
    var slot: nat := obj + 2;
    ghost var rest: Object, at: nat := o, from;
    var p := LoadSlot(mem, mem[..], slot, ptr, at, rest);
    while p != 0
      invariant n + |rest| == |o|
      invariant p == if rest == [] then 0 else at
      invariant rest != [] ==> 0 < at && Rest(mem[..], slot + ptr, ptr, at + |Record(rest[0])|, rest[1..])
      decreases |rest|
    {
      n := n + 1;
      slot := slot + ptr;
      at, rest := at + |Record(rest[0])|, rest[1..];
      p := LoadSlot(mem, mem[..], slot, ptr, at, rest);
    }
  }

  /** proto_object_data: the address behind the pointer table. */
  method ObjectData(mem: array<byte>, obj: nat, ptr: nat, ghost from: nat, ghost o: Object)
    returns (data: nat)
    requires Holds(mem[..], obj, ptr, from, o) && |o| < 0x100
    ensures data == obj + TableSize(|o|, ptr)
  {
    var n := CountProperties(mem, obj, ptr, from, o);
    data := obj + TableSize(n, ptr);
  }
}
