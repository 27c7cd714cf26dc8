/** Packet buffer (kernel/net/netbuf.c): one region, and a window of live bytes in it that
 *  layers extend to the front and the back and consume from the front. */
module Netbuf {
  import opened Checksum

  class NetBuf {
    const mem: array<Byte>
    var data: nat
    var tail: nat

    ghost predicate Valid()
      reads this
    {
      data <= tail <= mem.Length
    }

    /** The packet bytes. */
    ghost function Live(): seq<Byte>
      requires Valid()
      reads this, mem
    {
      mem[data..tail]
    }

    constructor (capacity: nat, headroom: nat)
      ensures Valid() && Live() == [] && fresh(mem)
      ensures data == headroom && mem.Length >= capacity + headroom
    {
      var total := if capacity + headroom == 0 then 1 else capacity + headroom;
      mem := new Byte[total](i => 0);
      data, tail := headroom, headroom;
    }

    function Len(): nat
      requires Valid()
      reads this
    {
      tail - data
    }

    /** Move an empty window forward, if the region reaches that far. */
    method Reserve(len: nat) returns (ok: bool)
      requires Valid()
      modifies `data, `tail
      ensures Valid() && ok == (old(data) == old(tail) && old(data) + len <= mem.Length)
      ensures data == (if ok then old(data) + len else old(data)) && (ok ==> Live() == [])
      ensures !ok ==> tail == old(tail)
    {
      ok := Len() == 0 && mem.Length - data >= len;
      if ok {
        data := data + len;
        tail := data;
      }
    }

    /** Room in front for a header; its bytes are whatever the region held. */
    method Push(len: nat) returns (ok: bool)
      requires Valid()
      modifies `data
      ensures Valid() && ok == (len <= old(data))
      ensures ok ==> data == old(data) - len && Live()[len..] == old(Live())
      ensures !ok ==> data == old(data)
    {
      ok := len <= data;
      if ok {
        data := data - len;
      }
    }

    method Pull(len: nat) returns (ok: bool)
      requires Valid()
      modifies `data
      ensures Valid() && ok == (len <= |old(Live())|)
      ensures Live() == if ok then old(Live())[len..] else old(Live())
    {
      ok := len <= Len();
      if ok {
        data := data + len;
      }
    }

    method Put(len: nat) returns (ok: bool)
      requires Valid()
      modifies `tail
      ensures Valid() && ok == (old(tail) + len <= mem.Length)
      ensures ok ==> tail == old(tail) + len && Live()[..old(Len())] == old(Live())
      ensures !ok ==> tail == old(tail)
    {
      ok := len <= mem.Length - tail;
      if ok {
        tail := tail + len;
      }
    }

    method Trim(len: nat)
      requires Valid()
      modifies `tail
      ensures Valid() && Live() == if |old(Live())| > len then old(Live())[..len] else old(Live())
    {
      if Len() > len {
        tail := data + len;
      }
    }

    /** Copy bytes into the live window at an offset. */
    method Write(off: nat, bytes: seq<Byte>)
      requires Valid() && off + |bytes| <= Len()
      modifies mem
      ensures Live() == old(Live())[..off] + bytes + old(Live())[off + |bytes|..]
    {
      ghost var was := mem[..];
      var i := 0;
      while i < |bytes|
        invariant i <= |bytes|
        invariant forall k :: 0 <= k < mem.Length && !(data + off <= k < data + off + i) ==> mem[k] == was[k]
        invariant forall k :: 0 <= k < i ==> mem[data + off + k] == bytes[k]
      {
        mem[data + off + i] := bytes[i];
        i := i + 1;
      }
      ghost var l := mem[data..tail];
      ghost var w := was[data..tail];
      assert forall k :: 0 <= k < |l| ==> l[k] == if off <= k < off + |bytes| then bytes[k - off] else w[k];
    }

    /** `netbuf_put_data`: append the bytes if the region has room behind the window. */
    method PutData(bytes: seq<Byte>) returns (ok: bool)
      requires Valid()
      modifies `tail, mem
      ensures Valid() && ok == (old(tail) + |bytes| <= mem.Length)
      ensures tail == (if ok then old(tail) + |bytes| else old(tail))
      ensures Live() == if ok then old(Live()) + bytes else old(Live())
    {
      ghost var was := Live();
      var len := Len();
      ok := Put(|bytes|);
      if ok {
        Write(len, bytes);
        assert Live() == was + bytes;
      }
    }
  }
}
