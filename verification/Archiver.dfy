/** `MemArchiver`: writes the frames of the archive format into a buffer. */
module Archivers {
  import opened Bio
  import opened Buffers
  import opened Records
  import opened Seqs

  /** A frame written into a block at `at`: type, length, payload. */
  method WriteFrame(b: array<Byte>, at: nat, kind: Byte, payload: seq<Byte>)
    requires at + 5 + |payload| <= b.Length
    modifies b
    ensures b[..at + 5 + |payload|] == old(b[..at]) + FrameBytes(Frame(kind, payload))
  {
    hide LittleEndian;
    b[at] := kind;
    ghost var head := old(b[..at]) + [kind] + LittleEndian(|payload|, 4);
    assert b[..at + 1] == old(b[..at]) + [kind];
    Bio.Encode(|payload|, b, at + 1, 4);
    assert b[..at + 5] == head;
    for i := 0 to |payload|
      invariant b[..at + 5] == head
      invariant b[at + 5..at + 5 + i] == payload[..i]
    {
      b[at + 5 + i] := payload[i];
    }
    assert b[..at + 5 + |payload|] == b[..at + 5] + b[at + 5..at + 5 + |payload|];
    assert head + payload == old(b[..at]) + FrameBytes(Frame(kind, payload));
  }

  class MemArchiver {
    const buffer: Buffer

    constructor ()
      ensures Valid() && fresh(Repr()) && Written() == []
    {
      buffer := new Buffer();
    }

    ghost function Repr(): set<object>
      reads buffer
    {
      buffer.Repr()
    }

    ghost predicate Valid()
      reads buffer
    {
      buffer.Valid()
    }

    ghost function Written(): seq<Byte>
      requires Valid()
      reads buffer, Repr()
    {
      buffer.Contents()
    }

    /** Appends one frame.  The 32-bit buffer length must not wrap. */
    method EncodeValue(kind: Byte, payload: seq<Byte>)
      requires Valid() && |Written()| + |payload| + 5 < UINT_LIMIT
      modifies Repr()
      ensures Valid() && fresh(Repr() - old(Repr()))
      ensures Written() == old(Written()) + FrameBytes(Frame(kind, payload))
    {
      var at, n := buffer.length, |payload| + 5;
      buffer.Capacity(at + n);
      assert buffer.Data()[..at] == buffer.Contents();
      WriteFrame(buffer.Data(), at, kind, payload);
      buffer.SetByteLength(at + n);
    }

    /** Encodes a value; an object or array writes its brackets around its parts. */
    method Encode(v: Value)
      requires Valid() && Archivable(v)
      requires |Written()| + |FramesBytes(Frames(v))| < UINT_LIMIT
      modifies Repr()
      ensures Valid() && fresh(Repr() - old(Repr()))
      ensures Written() == old(Written()) + FramesBytes(Frames(v))
      decreases v, 0
    {
      match v
      case Nil => EncodeScalar(NIL, []);
      case Str(text) => EncodeScalar(STRING, text + [0]);
      case Bytes(data) => EncodeScalar(BYTES, data);
      case Int32(n) => EncodeInteger(INT32, n, 4);
      case Int64(n) => EncodeInteger(INT64, n, 8);
      case Float(raw) => EncodeScalar(FLOAT, raw);
      case Double(raw) => EncodeScalar(DOUBLE, raw);
      case Boolean(b) => EncodeScalar(BOOLEAN, [if b then 1 else 0]);
      case Obj(fields) => EncodeBracketed(OBJECT, fields);
      case Arr(items) => EncodeBracketed(ARRAY, items);
    }

    method EncodeScalar(kind: Byte, payload: seq<Byte>)
      requires Valid() && |Written()| + |FramesBytes([Frame(kind, payload)])| < UINT_LIMIT
      modifies Repr()
      ensures Valid() && fresh(Repr() - old(Repr()))
      ensures Written() == old(Written()) + FramesBytes([Frame(kind, payload)])
    {
      OneFrame(Frame(kind, payload));
      EncodeValue(kind, payload);
    }

    method EncodeInteger(kind: Byte, n: int, width: nat)
      requires Valid() && |Written()| + |FramesBytes([Frame(kind, LittleEndian(n, width))])| < UINT_LIMIT
      modifies Repr()
      ensures Valid() && fresh(Repr() - old(Repr()))
      ensures Written() == old(Written()) + FramesBytes([Frame(kind, LittleEndian(n, width))])
    {
      var m := new Byte[width];
      Bio.Encode(n, m, 0, width);
      assert m[..] == LittleEndian(n, width);
      EncodeScalar(kind, m[..]);
    }

    method EncodeBracketed(kind: Byte, vs: seq<Value>)
      requires Valid() && forall v :: v in vs ==> Archivable(v)
      requires |Written()| + |FramesBytes([Frame(kind, [])] + AllFrames(vs) + [Frame(DONE, [])])| < UINT_LIMIT
      modifies Repr()
      ensures Valid() && fresh(Repr() - old(Repr()))
      ensures Written() == old(Written()) + FramesBytes([Frame(kind, [])] + AllFrames(vs) + [Frame(DONE, [])])
      decreases vs, 2
    {
      ghost var before, open, inner, close :=
        Written(), FramesBytes([Frame(kind, [])]), Encoding(vs), FramesBytes([Frame(DONE, [])]);
      BracketBytes(kind, AllFrames(vs));
      EncodeScalar(kind, []);
      EncodeAll(vs);
      EncodeScalar(DONE, []);
      Assoc(before, open, inner);
      Assoc(before, open + inner, close);
    }

    method EncodeAll(vs: seq<Value>)
      requires Valid() && forall v :: v in vs ==> Archivable(v)
      requires |Written()| + |Encoding(vs)| < UINT_LIMIT
      modifies Repr()
      ensures Valid() && fresh(Repr() - old(Repr()))
      ensures Written() == old(Written()) + Encoding(vs)
      decreases vs, 1
    {
      if vs != [] {
        ghost var before := Written();
        FramesBytesAppend(Frames(vs[0]), AllFrames(vs[1..]));
        Encode(vs[0]);
        EncodeAll(vs[1..]);
        Assoc(before, FramesBytes(Frames(vs[0])), Encoding(vs[1..]));
      }
    }
  }

  lemma BracketBytes(kind: Byte, fs: seq<Frame>)
    ensures FramesBytes([Frame(kind, [])] + fs + [Frame(DONE, [])])
      == FramesBytes([Frame(kind, [])]) + FramesBytes(fs) + FramesBytes([Frame(DONE, [])])
  {
    FramesBytesAppend([Frame(kind, [])] + fs, [Frame(DONE, [])]);
    FramesBytesAppend([Frame(kind, [])], fs);
  }
}
