/** The buffered streams of core/stream.cc, between a caller and a source or sink that may take or give less than asked. */
module Streams {
  import Bio
  import opened Buffers

  type Byte = Bio.Byte

  /** An input stream of the system: each read yields some of the bytes not read yet, none, or an error. */
  class Source {
    ghost const supply: seq<Byte>
    var rest: seq<Byte>
    ghost var pulled: seq<Byte>
    ghost var asked: nat
    ghost var wanted: nat

    ghost predicate Valid()
      reads this
    {
      pulled + rest == supply
    }

    constructor (supply: seq<Byte>)
      ensures Valid() && this.supply == supply && pulled == []
    {
      this.supply, rest, pulled, asked, wanted := supply, supply, [], 0, 0;
    }

    method Read(dst: array<Byte>, at: nat, size: nat) returns (n: int)
      requires Valid() && at + size <= dst.Length
      modifies this, dst
      ensures Valid() && -1 <= n <= size && asked == old(asked) + 1 && wanted == size
      ensures n == -1 ==> pulled == old(pulled)
      ensures n >= 0 ==> pulled == old(pulled) + dst[at..at + n]
      ensures dst[..at] == old(dst[..at])
    {
      asked, wanted := asked + 1, size;
      n :| -1 <= n <= size && n <= |rest|;
      if n > 0 {
        for i := 0 to n
          invariant dst[at..at + i] == rest[..i] && dst[..at] == old(dst[..at])
          modifies dst
        {
          dst[at + i] := rest[i];
        }
        assert pulled + rest[..n] + rest[n..] == pulled + rest;
        pulled, rest := pulled + rest[..n], rest[n..];
      }
    }
  }

  /** An output stream of the system: each write takes some of the bytes offered, none, or fails. */
  class Sink {
    var accepted: seq<Byte>
    ghost var offers: nat

    constructor ()
      ensures accepted == []
    {
      accepted, offers := [], 0;
    }

    method Write(data: seq<Byte>) returns (n: int)
      modifies this
      ensures -1 <= n <= |data| && offers == old(offers) + 1
      ensures accepted == old(accepted) + if n > 0 then data[..n] else []
    {
      offers := offers + 1;
      n :| -1 <= n <= |data|;
      accepted := accepted + if n > 0 then data[..n] else [];
    }
  }

  function Least(a: nat, b: nat): nat {
    if a < b then a else b
  }

  function Most(a: nat, b: nat): nat {
    if a > b then a else b
  }

  lemma Regroup(a: seq<Byte>, b: seq<Byte>, c: seq<Byte>)
    ensures a + (b + c) == a + b + c
  {
  }

  datatype Option<T> = None | Some(value: T)

  /** What a read sees and changes; `asked` counts how often the source has been asked. */
  datatype InState = InState(delivered: seq<Byte>, buffered: seq<Byte>, pulled: seq<Byte>, asked: nat, open: bool)

  /** The result of one read: none for an error, else the bytes delivered. */
  ghost predicate ReadOnce(a: InState, length: nat, part: Option<seq<Byte>>, b: InState) {
    && b.open == a.open
    && a.pulled <= b.pulled
    && b.delivered + b.buffered == b.pulled
    && b.asked == a.asked + (if length > |a.buffered| && a.open then 1 else 0)
    && (b.asked == a.asked ==> b.pulled == a.pulled)
    && match part
       case None => b.asked > a.asked && b.delivered == a.delivered && b.pulled == a.pulled
       case Some(d) =>
         b.delivered == a.delivered + d && |d| <= length && (|d| < length ==> b.buffered == [])
  }

  class BufferInputStream {
    var input: Source?
    const buffer: Buffer
    ghost const source: Source
    ghost var delivered: seq<Byte>

    ghost function Repr(): set<object>
      reads this, buffer
    {
      {this, source} + buffer.Repr()
    }

    /** What has been delivered, followed by the buffer, is what has been pulled from the source. */
    ghost predicate Valid()
      reads this, source, Repr()
    {
      && this !in buffer.Repr() && source !in buffer.Repr()
      && (input == null || input == source)
      && buffer.Valid() && source.Valid()
      && delivered + buffer.Contents() == source.pulled
    }

    ghost function State(): InState
      requires Valid()
      reads this, source, Repr()
    {
      InState(delivered, buffer.Contents(), source.pulled, source.asked, input != null)
    }

    constructor (input: Source, size: nat)
      requires input.Valid() && input.pulled == [] && size < UINT_LIMIT
      ensures Valid() && fresh(Repr() - {input}) && source == input && this.input == input && delivered == []
    {
      this.input, source, delivered := input, input, [];
      buffer := new Buffer();
      new;
      buffer.Capacity(Most(2048, size));
    }

    method Close()
      requires Valid()
      modifies `input
      ensures Valid() && input == null
    {
      input := null;
    }

    /** Reads from the source into the room behind the bytes of the buffer. */
    method Fill() returns (n: int)
      requires Valid() && input != null
      modifies source, buffer.Repr()
      ensures Valid() && Repr() == old(Repr()) && -1 <= n && source.asked == old(source.asked) + 1
      ensures source.wanted == buffer.size - old(buffer.length)
      ensures buffer.length == old(buffer.length) + (if n > 0 then n else 0) && old(source.pulled) <= source.pulled
    {
      var base := buffer.length;
      ghost var before := buffer.Contents();
      var b := buffer.Data();
      n := input.Read(b, base, buffer.size - base);
      if n > 0 {
        assert b[..base + n] == before + b[base..base + n];
        Regroup(delivered, before, b[base..base + n]);
        buffer.SetByteLength(base + n);
      }
    }

    /** Makes room for `length` bytes at least, and pulls as much as fits. */
    method Pull(length: nat) returns (n: int)
      requires Valid() && input != null && buffer.length + Most(2048, length) < UINT_LIMIT
      modifies source, buffer.Repr()
      ensures Valid() && fresh(Repr() - old(Repr())) && -1 <= n && source.asked == old(source.asked) + 1
      ensures source.wanted >= length && source.wanted >= 2048
      ensures buffer.length == old(buffer.length) + (if n > 0 then n else 0) && old(source.pulled) <= source.pulled
    {
      buffer.Capacity(buffer.length + Most(2048, length));
      n := Fill();
    }

    /** Hands over the first `n` bytes of the buffer. */
    method Take(data: array<Byte>, n: nat)
      requires Valid() && n <= buffer.length && n <= data.Length && data !in Repr()
      modifies `delivered, buffer.Repr(), data
      ensures Valid() && Repr() == old(Repr())
      ensures delivered == old(delivered) + data[..n] && buffer.Contents() == old(buffer.Contents())[n..]
    {
      Move(data, buffer.Data(), n);
      buffer.Drain(n);
      delivered := delivered + data[..n];
    }

    /** `BufferInputStream::read`. */
    method Read(data: array<Byte>, length: nat) returns (n: int)
      requires Valid() && length <= data.Length && data !in Repr()
      requires length > buffer.length && input != null ==> buffer.length + Most(2048, length) < UINT_LIMIT
      modifies `delivered, source, buffer.Repr(), data
      ensures Valid() && fresh(Repr() - old(Repr())) && -1 <= n <= length
      ensures ReadOnce(old(State()), length, if n >= 0 then Some(data[..n]) else None, State())
      ensures source.asked > old(source.asked) ==> source.wanted >= length && source.wanted >= 2048
    {
      if length > buffer.length {
        if input != null {
          n := Pull(length);
          if n == -1 {
            return;
          }
        }
      }
      n := Least(length, buffer.length);
      if n > 0 {
        Take(data, n);
      } else {
        assert delivered + data[..n] == delivered;
      }
    }
  }

  // ---------------------------------------------------------------- whole runs of reads

  ghost predicate ReadMany(a: InState, lengths: seq<nat>, parts: seq<Option<seq<Byte>>>, b: InState)
    requires |parts| == |lengths|
  {
    if |lengths| == 0 then b == a
    else
      var n := |lengths| - 1;
      exists mid :: ReadMany(a, lengths[..n], parts[..n], mid) && ReadOnce(mid, lengths[n], parts[n], b)
  }

  function Delivered(parts: seq<Option<seq<Byte>>>): seq<Byte> {
    if |parts| == 0 then []
    else
      var n := |parts| - 1;
      Delivered(parts[..n]) + if parts[n].Some? then parts[n].value else []
  }

  /** Over every run of reads the parts together are what has been delivered: the supply from its beginning. */
  lemma {:induction false} ReadManyDelivers(a: InState, lengths: seq<nat>, parts: seq<Option<seq<Byte>>>, b: InState)
    requires |parts| == |lengths| && ReadMany(a, lengths, parts, b) && a.delivered + a.buffered == a.pulled
    ensures b.delivered == a.delivered + Delivered(parts) && b.delivered + b.buffered == b.pulled
  {
    if |lengths| > 0 {
      var n := |lengths| - 1;
      var mid :| ReadMany(a, lengths[..n], parts[..n], mid) && ReadOnce(mid, lengths[n], parts[n], b);
      ReadManyDelivers(a, lengths[..n], parts[..n], mid);
      var d := if parts[n].Some? then parts[n].value else [];
      Regroup(a.delivered, Delivered(parts[..n]), d);
      assert b.delivered == mid.delivered + d;
    } else {
      assert a.delivered + [] == a.delivered;
    }
  }

  /** Reads again and again: every read has its effect, and the parts are the supply from its beginning. */
  method ReadAll(s: BufferInputStream, lengths: seq<nat>) returns (parts: seq<Option<seq<Byte>>>)
    requires s.Valid() && forall n <- lengths :: n < 0x8000_0000
    modifies s`delivered, s.source, s.buffer.Repr()
    ensures s.Valid() && |parts| == |lengths| && ReadMany(old(s.State()), lengths, parts, s.State())
    ensures old(s.delivered) + Delivered(parts) + s.buffer.Contents() + s.source.rest == s.source.supply
  {
    hide ReadOnce;
    ghost var a := s.State();
    parts := [];
    assert lengths[..0] == [];
    for i := 0 to |lengths|
      invariant s.Valid() && fresh(s.Repr() - old(s.Repr()))
      invariant |parts| == i && ReadMany(a, lengths[..i], parts, s.State())
    {
      ghost var mid, before := s.State(), parts;
      assert lengths[i] in lengths;
      var data := new Byte[lengths[i]];
      var n := s.Read(data, lengths[i]);
      var part := if n >= 0 then Some(data[..n]) else None;
      parts := parts + [part];
      assert ReadOnce(mid, lengths[i], part, s.State());
      assert lengths[..i + 1][..i] == lengths[..i] && parts[..i] == before;
    }
    assert lengths[..|lengths|] == lengths;
    ReadManyDelivers(a, lengths, parts, s.State());
  }

  class BufferOutputStream {
    var output: Sink?
    const buffer: Buffer
    const maxSize: nat
    ghost const sink: Sink
    ghost var written: seq<Byte>

    ghost function Repr(): set<object>
      reads this, buffer
    {
      {this, sink} + buffer.Repr()
    }

    /** What the sink has accepted, followed by the buffer, is what has been written. */
    ghost predicate Valid()
      reads this, sink, Repr()
    {
      && this !in buffer.Repr() && sink !in buffer.Repr()
      && (output == null || output == sink)
      && buffer.Valid()
      && sink.accepted + buffer.Contents() == written
    }

    constructor (output: Sink, size: nat)
      requires output.accepted == []
      ensures Valid() && fresh(Repr() - {output}) && sink == output && this.output == output && written == [] && maxSize == size
    {
      this.output, sink, maxSize, written := output, output, size, [];
      buffer := new Buffer();
    }

    /** Offers the whole buffer to the sink, and drops what it took. */
    method Offer() returns (n: int)
      requires Valid() && output != null
      modifies sink, buffer.Repr()
      ensures Valid() && Repr() == old(Repr()) && -1 <= n <= old(buffer.length)
      ensures buffer.length == old(buffer.length) - if n > 0 then n else 0
      ensures sink.offers == old(sink.offers) + 1
    {
      ghost var before := buffer.Contents();
      n := output.Write(buffer.Data()[..buffer.length]);
      if n > 0 {
        assert sink.accepted + before[n..] == old(sink.accepted) + (before[..n] + before[n..]);
        buffer.Drain(n);
      }
    }

    /** `BufferOutputStream::write`. The bytes have been taken over even when the result says that the sink failed. */
    method Write(data: seq<Byte>) returns (n: int)
      requires Valid() && buffer.length + Most(1024, |data|) < UINT_LIMIT
      modifies `written, sink, buffer.Repr()
      ensures Valid() && fresh(Repr() - old(Repr()))
      ensures written == old(written) + if output == null then [] else data
      ensures n == |data| || n <= 0
      ensures buffer.length <= old(buffer.length) + |data|
      ensures output != null && n != |data| ==> buffer.length >= maxSize && buffer.length == old(buffer.length) + |data|
      ensures sink.offers
        == old(sink.offers) + if output != null && old(buffer.length) + |data| >= maxSize then 1 else 0
    {
      if output == null {
        return -1;
      }
      buffer.Append(data);
      assert sink.accepted + (old(buffer.Contents()) + data) == written + data;
      written := written + data;
      if buffer.length >= maxSize {
        n := Offer();
        if n <= 0 {
          return;
        }
      }
      n := |data|;
    }

    /** `BufferOutputStream::flush`: true exactly if every byte written has reached the sink. */
    method Flush() returns (ok: bool)
      requires Valid()
      modifies sink, buffer.Repr()
      ensures Valid() && Repr() == old(Repr())
      ensures ok <==> output != null && sink.accepted == written
      ensures sink.offers == old(sink.offers) + if output != null && old(buffer.length) > 0 then 1 else 0
    {
      if output == null {
        return false;
      }
      if buffer.length > 0 {
        var _ := Offer();
      }
      ok := buffer.length == 0;
    }

    /** Offers what is still buffered, once, and lets go of the sink. */
    method Close()
      requires Valid()
      modifies `output, sink, buffer.Repr()
      ensures Valid() && output == null && written == old(written)
      ensures sink.offers == old(sink.offers) + if old(output) != null && old(buffer.length) > 0 then 1 else 0
    {
      var _ := Flush();
      output := null;
    }
  }

  function Joined(chunks: seq<seq<Byte>>): seq<Byte> {
    if |chunks| == 0 then [] else Joined(chunks[..|chunks| - 1]) + chunks[|chunks| - 1]
  }

  lemma {:induction false} JoinedPrefix(chunks: seq<seq<Byte>>, i: nat)
    requires i < |chunks|
    ensures Joined(chunks[..i + 1]) == Joined(chunks[..i]) + chunks[i]
    ensures |Joined(chunks[..i])| + |chunks[i]| <= |Joined(chunks)|
    decreases |chunks|
  {
    assert chunks[..i + 1][..i] == chunks[..i];
    if i < |chunks| - 1 {
      JoinedPrefix(chunks[..|chunks| - 1], i);
      assert chunks[..|chunks| - 1][..i] == chunks[..i] && chunks[..|chunks| - 1][..i + 1] == chunks[..i + 1];
    }
  }

  /**
   * Writes again and again and flushes: all bytes have been taken over in order, the sink has a prefix of them, and
   * all of them exactly if the flush succeeds.
   */
  method WriteAll(s: BufferOutputStream, chunks: seq<seq<Byte>>) returns (ok: bool)
    requires s.Valid() && s.output != null
    requires s.buffer.length + |Joined(chunks)| + 1024 < UINT_LIMIT
    modifies s`written, s.sink, s.buffer.Repr()
    ensures s.Valid() && s.written == old(s.written) + Joined(chunks)
    ensures s.sink.accepted <= s.written && (ok <==> s.sink.accepted == s.written)
  {
    ghost var before := s.written;
    assert chunks[..0] == [] && before + [] == before;
    for i := 0 to |chunks|
      invariant s.Valid() && fresh(s.Repr() - old(s.Repr()))
      invariant s.written == before + Joined(chunks[..i])
      invariant s.buffer.length <= old(s.buffer.length) + |Joined(chunks[..i])|
    {
      JoinedPrefix(chunks, i);
      Regroup(before, Joined(chunks[..i]), chunks[i]);
      var _ := s.Write(chunks[i]);
    }
    assert chunks[..|chunks|] == chunks;
    ok := s.Flush();
  }
}
