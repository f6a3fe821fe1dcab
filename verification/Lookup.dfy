/** Property lookups: loops over the pointer table up to NULL. */
module Lookup {
  import opened Bytes
  import opened Objects
  import opened Memory

  /** The first property of `o` with this key and, unless any will do, this value size. */
  function FirstMatch(o: Object, key: byte, size: Option<u16>): (r: Option<Property>)
    ensures r == None ==> forall p :: p in o ==> p.key != key || (size.Some? && |p.value| != size.value)
    ensures r.Some? ==>
      exists i ::
        && 0 <= i < |o| && o[i] == r.value && o[i].key == key && (size.Some? ==> |o[i].value| == size.value)
        && forall j :: 0 <= j < i ==> o[j].key != key || (size.Some? && |o[j].value| != size.value)
  {
    if o == [] then None
    else if o[0].key == key && (size == None || |o[0].value| == size.value) then Some(o[0])
    else
      var r := FirstMatch(o[1..], key, size);
      assert r.Some? ==> forall i :: 0 <= i < |o[1..]| ==> o[1..][i] == o[i + 1];
      r
  }

  /** Nothing matches an object without properties, and the first property if it has the key. */
  lemma FirstIs(o: Object, key: byte)
    ensures o == [] ==> FirstMatch(o, key, None) == None
    ensures o != [] && o[0].key == key ==> FirstMatch(o, key, None) == Some(o[0])
  {
  }

  /** The common loop: the address of the first match, or NULL. */
  method Search(mem: array<byte>, obj: nat, ptr: nat, key: byte, size: Option<u16>,
                ghost from: nat, ghost o: Object) returns (r: nat)
    requires Holds(mem[..], obj, ptr, from, o)
    ensures r == 0 <==> FirstMatch(o, key, size) == None
    ensures r != 0 ==> StoresAt(mem[..], r, Record(FirstMatch(o, key, size).value))
  {
    hide Holds, Rest, StoresAt, Record, U16At;
    HoldsRest(mem[..], obj, ptr, from, o);
    var slot: nat := obj + 2;
    ghost var rest: Object, at: nat := o, from;
    var p := LoadSlot(mem, mem[..], slot, ptr, at, rest);
    while p != 0
      invariant FirstMatch(o, key, size) == FirstMatch(rest, key, size)
      invariant p == if rest == [] then 0 else at
      invariant rest != [] ==> 0 < at && StoresAt(mem[..], at, Record(rest[0]))
      invariant rest != [] ==> Rest(mem[..], slot + ptr, ptr, at + |Record(rest[0])|, rest[1..])
      decreases |rest|
    {
      RecordAt(mem[..], at, rest[0]);
      var valueSize := LoadU16(mem, p);
      if mem[p + 2] == key && (size == None || valueSize == size.value) {
        return p;
      }
      slot := slot + ptr;
      at, rest := at + |Record(rest[0])|, rest[1..];
      p := LoadSlot(mem, mem[..], slot, ptr, at, rest);
    }
    r := 0;
  }

  /** find_property: where the first property with this key is, or NULL if there is none. */
  method FindProperty(mem: array<byte>, obj: nat, ptr: nat, key: byte, ghost from: nat, ghost o: Object)
    returns (r: nat)
    requires Holds(mem[..], obj, ptr, from, o)
    ensures r == 0 <==> forall p :: p in o ==> p.key != key
    ensures r != 0 ==>
      exists i ::
        && 0 <= i < |o| && StoresAt(mem[..], r, Record(o[i]))
        && o[i].key == key && forall j :: 0 <= j < i ==> o[j].key != key
  {
    hide *;
    r := Search(mem, obj, ptr, key, None, from, o);
  }

  /** get_uint16_property: the first property with this key that is exactly two bytes long. */
  method GetUint16(mem: array<byte>, obj: nat, ptr: nat, key: byte, default: u16, ghost from: nat, ghost o: Object)
    returns (x: u16)
    requires Holds(mem[..], obj, ptr, from, o)
    ensures (forall p :: p in o ==> p.key != key || |p.value| != 2) ==> x == default
    ensures (exists p :: p in o && p.key == key && |p.value| == 2) ==>
      exists i ::
        && 0 <= i < |o| && o[i].key == key && |o[i].value| == 2
        && x == (o[i].value[0] as int) + 256 * (o[i].value[1] as int)
        && forall j :: 0 <= j < i ==> o[j].key != key || |o[j].value| != 2
  {
    hide Holds, Rest, StoresAt, Record, FirstMatch;
    var r := Search(mem, obj, ptr, key, Some(2), from, o);
    if r == 0 {
      return default;
    }
    ghost var p := FirstMatch(o, key, Some(2)).value;
    RecordAt(mem[..], r, p);
    U16InSlice(mem[..], r + 3);
    x := LoadU16(mem, r + 3);
  }

  lemma U16InSlice(m: seq<byte>, a: nat)
    requires a + 2 <= |m|
    ensures U16At(m[a..a + 2], 0) == U16At(m, a)
  {
  }

  /** copy_str_property: the value, with a terminating NUL. */
  method CopyStr(mem: array<byte>, property: nat, ghost p: Property) returns (s: seq<byte>)
    requires StoresAt(mem[..], property, Record(p))
    ensures s == p.value + [0]
  {
    hide StoresAt, Record, U16At;
    RecordAt(mem[..], property, p);
    var valueSize := LoadU16(mem, property);
    assert mem[..][property + 3..property + 3 + valueSize] == mem[property + 3..property + 3 + valueSize];
    s := mem[property + 3..property + 3 + valueSize] + [0];
  }

  lemma MoveNone(o: Object)
    ensures [] + o == o && o + [] == o
  {
  }

  lemma MoveOver(view: Object, p: Property, rest: Object)
    requires rest != [] && rest[0] == p
    ensures (view + [p]) + rest[1..] == view + rest
  {
  }

  /** Everything a callback can get at through the object it is handed. */
  method Walk(mem: array<byte>, obj: nat, ptr: nat, ghost from: nat, ghost o: Object) returns (view: Object)
    requires Holds(mem[..], obj, ptr, from, o)
    ensures view == o
  {
    hide Holds, Rest, StoresAt, Record, U16At;
    HoldsRest(mem[..], obj, ptr, from, o);
    view := [];
    MoveNone(o);
    var slot: nat := obj + 2;
    ghost var rest: Object, at: nat := o, from;
    var p := LoadSlot(mem, mem[..], slot, ptr, at, rest);
    while p != 0
      invariant view + rest == o
      invariant p == if rest == [] then 0 else at
      invariant rest != [] ==> 0 < at && StoresAt(mem[..], at, Record(rest[0]))
      invariant rest != [] ==> Rest(mem[..], slot + ptr, ptr, at + |Record(rest[0])|, rest[1..])
      decreases |rest|
    {
      RecordAt(mem[..], at, rest[0]);
      var valueSize := LoadU16(mem, p);
      assert mem[..][p + 3..p + 3 + valueSize] == mem[p + 3..p + 3 + valueSize];
      var property := Property(mem[p + 2], mem[p + 3..p + 3 + valueSize]);
      MoveOver(view, property, rest);
      view := view + [property];
      slot := slot + ptr;
      at, rest := at + |Record(rest[0])|, rest[1..];
      p := LoadSlot(mem, mem[..], slot, ptr, at, rest);
    }
  }
}
