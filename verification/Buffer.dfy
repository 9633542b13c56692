/** The growable byte buffer of core/kk.cc: 2048 bytes inline, then a heap block. */
module Buffers {
  import opened Bio

  const INLINE_SIZE := 2048
  const UINT_LIMIT := 0x1_0000_0000

  /** memcpy: the block `dst` whose first `n` bytes are those of `src`. */
  method Move(dst: array<Byte>, src: array<Byte>, n: nat)
    requires n <= dst.Length && n <= src.Length && dst != src
    modifies dst
    ensures dst[..n] == src[..n]
  {
    for i := 0 to n
      invariant dst[..i] == src[..i]
    {
      dst[i] := src[i];
    }
  }

  class Buffer {
    const inline: array<Byte>
    var heap: array?<Byte>
    var size: nat
    var length: nat

    constructor ()
      ensures Valid() && fresh(Repr()) && Contents() == [] && size == INLINE_SIZE
    {
      inline := new Byte[INLINE_SIZE];
      heap := null;
      size := INLINE_SIZE;
      length := 0;
    }

    ghost function Repr(): set<object>
      reads this
    {
      {this, inline} + if heap == null then {} else {heap}
    }

    ghost predicate Valid()
      reads this
    {
      && inline.Length == INLINE_SIZE && inline != heap
      && size == (if heap == null then inline.Length else heap.Length)
      && length <= size < UINT_LIMIT
    }

    /** `data()`: the block that holds the bytes. */
    function Data(): (d: array<Byte>)
      reads this
      ensures d in Repr()
    {
      if heap != null then heap else inline
    }

    ghost function Contents(): seq<Byte>
      requires Valid()
      reads this, Data()
    {
      Data()[..length]
    }

    /** Makes room for `n` bytes; the contents move with the block. */
    method Capacity(n: nat)
      requires Valid() && n < UINT_LIMIT
      modifies this
      ensures Valid() && fresh(Repr() - old(Repr()))
      ensures Contents() == old(Contents()) && length == old(length)
      ensures size == if old(size) < n then n else old(size)
    {
      if size < n {
        var b := new Byte[n];
        Move(b, Data(), length);
        heap := b;
        size := n;
      }
    }

    method SetByteLength(n: nat)
      requires Valid() && n <= size
      modifies `length
      ensures Valid() && length == n && Contents() == Data()[..n]
    {
      length := n;
    }

    method Append(p: seq<Byte>)
      requires Valid() && length + (if |p| > 1024 then |p| else 1024) < UINT_LIMIT
      modifies Repr()
      ensures Valid() && fresh(Repr() - old(Repr()))
      ensures Contents() == old(Contents()) + p
    {
      var n := if |p| > 1024 then |p| else 1024;
      Capacity(length + n);
      ghost var before := Contents();
      var b := Data();
      for i := 0 to |p|
        invariant b[..length] == before && b[length..length + i] == p[..i]
        modifies b
      {
        b[length + i] := p[i];
      }
      assert b[..length + |p|] == b[..length] + b[length..length + |p|];
      SetByteLength(length + |p|);
    }

    /** Drops the first `n` bytes, copying the rest down from the front. */
    method Drain(n: nat)
      requires Valid() && n <= length
      modifies Repr()
      ensures Valid() && Repr() == old(Repr()) && size == old(size)
      ensures Contents() == old(Contents())[n..]
    {
      ghost var before := Contents();
      var b := Data();
      var s := length - n;
      for i := 0 to s
        invariant forall j :: 0 <= j < i ==> b[j] == before[n + j]
        invariant forall j :: n + i <= j < length ==> b[j] == before[j]
        modifies b
      {
        b[i] := b[n + i];
      }
      SetByteLength(s);
    }
  }
}
