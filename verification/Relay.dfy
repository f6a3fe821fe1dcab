/** What a server does with an object it received and keeps: the codec and the writers together. */
module Relay {
  import opened Bytes
  import opened Objects
  import opened Messages
  import opened Memory
  import Reader
  import Copier
  import Writers

  /** An object is read, in place, and copied; then the receive buffer is overwritten. */
  method Keep(mem: array<byte>, obj: nat, ptr: nat, available: u16, size: u16, from: nat, dst: nat,
              next: seq<byte>, ghost o: Object)
    requires 0 < ptr && 0 < obj && 0 < from && 0 < dst && mem.Length <= Pow256(ptr)
    requires from + size <= mem.Length && obj + available <= mem.Length
    requires dst + OwnedSize(o, ptr) <= mem.Length && |next| == size
    requires Apart(obj, available, from, size)
    requires Apart(dst, OwnedSize(o, ptr), obj, available) && Apart(dst, OwnedSize(o, ptr), from, size)
    requires ReadObject(mem[from..from + size], available, ptr) == Readable(o) && |o| < 0x100
    modifies mem
    ensures Owns(mem[..], dst, ptr, o)
  {
    hide Wire, Patch, TableSize, OwnedSize, Pow256, ReadObject, Holds, StoresAt, Owns, LaidOut, Reader.PointedAt;
    ExactAcceptance(mem[from..from + size], available, ptr, o);
    var _, _ := Reader.Read(mem, obj, ptr, available, size, from);
    ghost var m := mem[..];
    Copier.Copy(mem, obj, ptr, dst, from, o);
    ghost var copied := mem[..];
    WriteBytes(mem, from, next);
    PatchMiss(copied, from, next, dst, OwnedSize(o, ptr));
    Copier.CopyIsIndependent(m, mem[..], obj, ptr, from, o, dst);
  }

  /**
   * An object is received and kept; the receive buffer is overwritten with whatever arrives
   * next; the copy is sent. What is sent are the bytes that were received.
   */
  method KeepAndSend(mem: array<byte>, obj: nat, ptr: nat, available: u16, size: u16, from: nat, dst: nat,
                     next: seq<byte>, id: u16, flags: byte, ghost o: Object) returns (sent: seq<byte>)
    requires 0 < ptr && 0 < obj && 0 < from && 0 < dst && mem.Length <= Pow256(ptr)
    requires from + size <= mem.Length && obj + available <= mem.Length
    requires dst + OwnedSize(o, ptr) <= mem.Length && |next| == size
    requires Apart(obj, available, from, size)
    requires Apart(dst, OwnedSize(o, ptr), obj, available) && Apart(dst, OwnedSize(o, ptr), from, size)
    requires ReadObject(mem[from..from + size], available, ptr) == Readable(o) && |o| < 0x100
    modifies mem
    ensures sent == HeaderBytes(Header(flags, Add16(size, 2), id)) + Le16(size) + old(mem[from..from + size])
  {
    hide Wire, Patch, TableSize, OwnedSize, Pow256, Encode, HeaderBytes, Le16, ReadObject, Holds, Owns;
    ghost var received := mem[from..from + size];
    ExactAcceptance(received, available, ptr, o);
    Keep(mem, obj, ptr, available, size, from, dst, next, o);
    sent := Writers.SendOne(mem, dst, ptr, id, flags, o);
    Writers.OneEncoded(flags, id, o);
  }
}
