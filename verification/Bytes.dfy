/** Writing into a buffer of bytes in place. */
module Bytes {
  import opened Values

  /** A buffer with bs over its bytes from offset on. */
  function Put(mem: seq<byte>, offset: nat, bs: seq<byte>): (r: seq<byte>)
    requires offset + |bs| <= |mem|
    ensures |r| == |mem|
  {
    mem[..offset] + bs + mem[offset + |bs|..]
  }

  lemma PutAt(mem: seq<byte>, offset: nat, bs: seq<byte>, i: nat)
    requires offset + |bs| <= |mem| && i < |mem|
    ensures Put(mem, offset, bs)[i] == if offset <= i < offset + |bs| then bs[i - offset] else mem[i]
  {
  }

  /** The bytes put are there. */
  lemma PutHolds(mem: seq<byte>, offset: nat, bs: seq<byte>)
    requires offset + |bs| <= |mem|
    ensures Put(mem, offset, bs)[offset..offset + |bs|] == bs
  {
  }

  /** Regions apart from them are as before. */
  lemma PutApart(mem: seq<byte>, offset: nat, bs: seq<byte>, lo: nat, hi: nat)
    requires offset + |bs| <= |mem| && lo <= hi <= |mem|
    requires hi <= offset || offset + |bs| <= lo
    ensures Put(mem, offset, bs)[lo..hi] == mem[lo..hi]
  {
  }

  function Zeros(n: nat): (z: seq<byte>)
    ensures |z| == n
  {
    seq(n, _ => 0)
  }

  /** memcpy and std::copy. */
  method CopyInto(mem: array<byte>, offset: nat, bs: seq<byte>)
    requires offset + |bs| <= mem.Length
    modifies mem
    ensures mem[..] == Put(old(mem[..]), offset, bs)
  {
    for i := 0 to |bs|
      invariant mem[..offset] == old(mem[..offset])
      invariant mem[offset..offset + i] == bs[..i]
      invariant mem[offset + i..] == old(mem[offset + i..])
    {
      mem[offset + i] := bs[i];
    }
    assert mem[..] == mem[..offset] + mem[offset..offset + |bs|] + mem[offset + |bs|..];
  }

  /** memset to zero. */
  method Clear(mem: array<byte>, offset: nat, size: nat)
    requires offset + size <= mem.Length
    modifies mem
    ensures mem[..] == Put(old(mem[..]), offset, Zeros(size))
  {
    for i := 0 to size
      invariant mem[..offset] == old(mem[..offset])
      invariant mem[offset..offset + i] == Zeros(i)
      invariant mem[offset + i..] == old(mem[offset + i..])
    {
      mem[offset + i] := 0;
    }
    assert mem[..] == mem[..offset] + mem[offset..offset + size] + mem[offset + size..];
  }
}
