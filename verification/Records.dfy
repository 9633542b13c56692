/** The archive format: a stream of frames, each a type byte, a 4-byte little-endian length
    and a payload; objects and arrays are bracketed by frames of their own. */
module Records {
  import opened Bio
  import opened Bits
  import opened Seqs

  const NIL := 0
  const STRING := 1
  const BYTES := 2
  const INT32 := 3
  const INT64 := 4
  const FLOAT := 5
  const DOUBLE := 6
  const BOOLEAN := 7
  const OBJECT := 8
  const ARRAY := 9
  const DONE := 10

  datatype Option<T> = None | Some(value: T)

  datatype Frame = Frame(kind: Byte, payload: seq<Byte>)

  /** What can be archived.  Floats are their four or eight memory bytes. */
  datatype Value =
    | Nil
    | Str(text: seq<Byte>)
    | Bytes(data: seq<Byte>)
    | Int32(n: int)
    | Int64(n: int)
    | Float(raw: seq<Byte>)
    | Double(raw: seq<Byte>)
    | Boolean(b: bool)
    | Obj(fields: seq<Value>)
    | Arr(items: seq<Value>)

  const LENGTH_LIMIT := 0x8000_0000

  /** C strings hold no NUL and empty blocks are written as nil; lengths fit an Int32. */
  ghost predicate Archivable(v: Value) {
    match v
    case Nil => true
    case Str(text) => 0 !in text && |text| + 1 < LENGTH_LIMIT
    case Bytes(data) => 0 < |data| < LENGTH_LIMIT
    case Int32(n) => Fits(n, 4)
    case Int64(n) => Fits(n, 8)
    case Float(raw) => |raw| == 4
    case Double(raw) => |raw| == 8
    case Boolean(_) => true
    case Obj(fields) => forall f :: f in fields ==> Archivable(f)
    case Arr(items) => forall f :: f in items ==> Archivable(f)
  }

  // ---------------------------------------------------------------- writing

  function FrameBytes(f: Frame): seq<Byte> {
    [f.kind] + LittleEndian(|f.payload|, 4) + f.payload
  }

  function FramesBytes(fs: seq<Frame>): seq<Byte> {
    if fs == [] then [] else FrameBytes(fs[0]) + FramesBytes(fs[1..])
  }

  function Frames(v: Value): (fs: seq<Frame>)
    ensures fs != []
    decreases v, 0
  {
    match v
    case Nil => [Frame(NIL, [])]
    case Str(text) => [Frame(STRING, text + [0])]
    case Bytes(data) => [Frame(BYTES, data)]
    case Int32(n) => [Frame(INT32, LittleEndian(n, 4))]
    case Int64(n) => [Frame(INT64, LittleEndian(n, 8))]
    case Float(raw) => [Frame(FLOAT, raw)]
    case Double(raw) => [Frame(DOUBLE, raw)]
    case Boolean(b) => [Frame(BOOLEAN, [if b then 1 else 0])]
    case Obj(fields) => [Frame(OBJECT, [])] + AllFrames(fields) + [Frame(DONE, [])]
    case Arr(items) => [Frame(ARRAY, [])] + AllFrames(items) + [Frame(DONE, [])]
  }

  function AllFrames(vs: seq<Value>): seq<Frame>
    decreases vs, 1
  {
    if vs == [] then [] else Frames(vs[0]) + AllFrames(vs[1..])
  }

  function Encoding(vs: seq<Value>): seq<Byte> {
    FramesBytes(AllFrames(vs))
  }

  lemma SmallLength(n: nat)
    requires n < 256
    ensures LittleEndian(n, 4) == [n, 0, 0, 0]
  {
  }

  lemma OneValue(v: Value)
    ensures AllFrames([v]) == Frames(v)
  {
    assert [v][1..] == [] && AllFrames([v][1..]) == [];
    assert AllFrames([v]) == Frames(v) + AllFrames([v][1..]);
  }

  lemma OneFrame(f: Frame)
    ensures FramesBytes([f]) == FrameBytes(f)
  {
    assert [f][1..] == [];
  }

  lemma OneFrameBytes(v: Value, f: Frame)
    requires Frames(v) == [f]
    ensures Encoding([v]) == FrameBytes(f)
  {
    OneValue(v);
    OneFrame(f);
  }

  /** The bytes of each kind of value: the type, the length, and the payload. */
  lemma KnownRecords(t: seq<Byte>, d: seq<Byte>, n: int, b: bool)
    ensures Encoding([Nil]) == [0, 0, 0, 0, 0]
    ensures Encoding([Str(t)]) == [1] + LittleEndian(|t| + 1, 4) + (t + [0])
    ensures Encoding([Bytes(d)]) == [2] + LittleEndian(|d|, 4) + d
    ensures Encoding([Int32(n)]) == [3, 4, 0, 0, 0] + LittleEndian(n, 4)
    ensures Encoding([Int64(n)]) == [4, 8, 0, 0, 0] + LittleEndian(n, 8)
    ensures |d| == 4 ==> Encoding([Float(d)]) == [5, 4, 0, 0, 0] + d
    ensures |d| == 8 ==> Encoding([Double(d)]) == [6, 8, 0, 0, 0] + d
    ensures Encoding([Boolean(b)]) == [7, 1, 0, 0, 0] + [if b then 1 else 0]
  {
    hide LittleEndian, Encoding;
    SmallLength(0);
    SmallLength(1);
    SmallLength(4);
    SmallLength(8);
    OneFrameBytes(Nil, Frame(NIL, []));
    OneFrameBytes(Str(t), Frame(STRING, t + [0]));
    OneFrameBytes(Bytes(d), Frame(BYTES, d));
    OneFrameBytes(Int32(n), Frame(INT32, LittleEndian(n, 4)));
    OneFrameBytes(Int64(n), Frame(INT64, LittleEndian(n, 8)));
    OneFrameBytes(Float(d), Frame(FLOAT, d));
    OneFrameBytes(Double(d), Frame(DOUBLE, d));
    OneFrameBytes(Boolean(b), Frame(BOOLEAN, [if b then 1 else 0]));
  }

  // ---------------------------------------------------------------- reading

  /** The frame walk: type byte, length, payload, and on to the next frame. */
  function ReadFrames(s: seq<Byte>): Option<seq<Frame>>
    decreases |s|
  {
    if s == [] then Some([])
    else if |s| < 5 then None
    else
      var n := Signed(Unsigned(s[1..5]), 4);
      if n < 0 || |s| < 5 + n then None
      else
        match ReadFrames(s[5 + n..])
        case None => None
        case Some(rest) => Some([Frame(s[0], s[5..5 + n])] + rest)
  }

  function ReadScalar(f: Frame): Option<Value> {
    if f.kind == NIL then Some(Nil)
    else if f.kind == STRING then
      if f.payload == [] then None else Some(Str(f.payload[..|f.payload| - 1]))
    else if f.kind == BYTES then Some(Bytes(f.payload))
    else if f.kind == INT32 then Some(Int32(Signed(Unsigned(f.payload), |f.payload|)))
    else if f.kind == INT64 then Some(Int64(Signed(Unsigned(f.payload), |f.payload|)))
    else if f.kind == FLOAT then Some(Float(f.payload))
    else if f.kind == DOUBLE then Some(Double(f.payload))
    else if f.kind == BOOLEAN then
      if f.payload == [] then None else Some(Boolean(f.payload[0] != 0))
    else None
  }

  datatype Reading = Fail | Read(values: seq<Value>, rest: seq<Frame>)

  /** Values up to the frame that closes the surrounding object or array, or up to the end. */
  function ReadValues(fs: seq<Frame>): (r: Reading)
    ensures r.Read? ==> |r.rest| <= |fs|
    decreases |fs|
  {
    if fs == [] || fs[0].kind == DONE then Read([], fs)
    else if fs[0].kind == OBJECT || fs[0].kind == ARRAY then
      match ReadValues(fs[1..])
      case Fail => Fail
      case Read(inner, rest) =>
        if rest == [] then Fail
        else
          match ReadValues(rest[1..])
          case Fail => Fail
          case Read(more, end) =>
            Read([if fs[0].kind == OBJECT then Obj(inner) else Arr(inner)] + more, end)
    else
      match ReadScalar(fs[0])
      case None => Fail
      case Some(v) =>
        match ReadValues(fs[1..])
        case Fail => Fail
        case Read(more, end) => Read([v] + more, end)
  }

  /** The values of a whole archive. */
  function Decoding(s: seq<Byte>): Option<seq<Value>> {
    match ReadFrames(s)
    case None => None
    case Some(fs) =>
      match ReadValues(fs)
      case Fail => None
      case Read(values, rest) => if rest == [] then Some(values) else None
  }

  // ---------------------------------------------------------------- unique readability

  ghost predicate ShortFrames(fs: seq<Frame>) {
    forall i :: 0 <= i < |fs| ==> |fs[i].payload| < LENGTH_LIMIT
  }

  lemma {:induction false} ReadFramesInverts(fs: seq<Frame>)
    requires ShortFrames(fs)
    ensures ReadFrames(FramesBytes(fs)) == Some(fs)
  {
    if fs != [] {
      var f, s, t := fs[0], FramesBytes(fs), FramesBytes(fs[1..]);
      var n := |f.payload|;
      assert Pow256(4) == 0x1_0000_0000;
      DecodeEncode(n, 4);
      assert s[0] == f.kind;
      assert s[1..5] == LittleEndian(n, 4);
      assert s[5..5 + n] == f.payload;
      assert s[5 + n..] == t;
      assert ShortFrames(fs[1..]);
      ReadFramesInverts(fs[1..]);
      assert [Frame(s[0], s[5..5 + n])] + fs[1..] == fs;
    }
  }

  lemma {:induction false} FramesShort(v: Value)
    requires Archivable(v)
    ensures ShortFrames(Frames(v))
    decreases v, 0
  {
    match v
    case Obj(fields) => AllFramesShort(fields);
    case Arr(items) => AllFramesShort(items);
    case _ =>
  }

  lemma {:induction false} AllFramesShort(vs: seq<Value>)
    requires forall v :: v in vs ==> Archivable(v)
    ensures ShortFrames(AllFrames(vs))
    decreases vs, 1
  {
    if vs != [] {
      FramesShort(vs[0]);
      AllFramesShort(vs[1..]);
    }
  }

  lemma ReadScalarFirst(v: Value, more: seq<Frame>, after: seq<Value>, rest: seq<Frame>)
    requires Archivable(v) && !v.Obj? && !v.Arr? && ReadValues(more) == Read(after, rest)
    ensures ReadValues(Frames(v) + more) == Read([v] + after, rest)
  {
    hide Frames, Archivable, ReadScalar;
    ReadScalarInverts(v);
    var fs := Frames(v) + more;
    assert fs[0] == Frames(v)[0] && fs[1..] == more;
  }

  lemma {:induction false} ReadValuesInverts(vs: seq<Value>, rest: seq<Frame>)
    requires forall v :: v in vs ==> Archivable(v)
    requires rest == [] || rest[0].kind == DONE
    ensures ReadValues(AllFrames(vs) + rest) == Read(vs, rest)
    decreases vs
  {
    if vs == [] {
      assert AllFrames(vs) + rest == rest;
    } else {
      var v, more := vs[0], AllFrames(vs[1..]) + rest;
      Assoc(Frames(v), AllFrames(vs[1..]), rest);
      ReadValuesInverts(vs[1..], rest);
      assert Archivable(v);
      if v.Obj? {
        ReadValuesInverts(v.fields, [Frame(DONE, [])] + more);
        ReadBracketed(OBJECT, v.fields, more, vs[1..], rest);
      } else if v.Arr? {
        ReadValuesInverts(v.items, [Frame(DONE, [])] + more);
        ReadBracketed(ARRAY, v.items, more, vs[1..], rest);
      } else {
        ReadScalarFirst(v, more, vs[1..], rest);
      }
      assert vs == [v] + vs[1..];
    }
  }

  /** An object or array in front of frames that read back is read back in one piece. */
  lemma {:induction false} ReadBracketed(
      kind: Byte, inner: seq<Value>, more: seq<Frame>, after: seq<Value>, rest: seq<Frame>)
    requires kind == OBJECT || kind == ARRAY
    requires ReadValues(AllFrames(inner) + ([Frame(DONE, [])] + more)) == Read(inner, [Frame(DONE, [])] + more)
    requires ReadValues(more) == Read(after, rest)
    ensures ReadValues([Frame(kind, [])] + AllFrames(inner) + [Frame(DONE, [])] + more)
      == Read([if kind == OBJECT then Obj(inner) else Arr(inner)] + after, rest)
  {
    ReadBracket(kind, AllFrames(inner), inner, more, after, rest);
  }

  lemma {:induction false} ReadBracket(
      kind: Byte, fs: seq<Frame>, inner: seq<Value>, more: seq<Frame>, after: seq<Value>, rest: seq<Frame>)
    requires kind == OBJECT || kind == ARRAY
    requires ReadValues(fs + ([Frame(DONE, [])] + more)) == Read(inner, [Frame(DONE, [])] + more)
    requires ReadValues(more) == Read(after, rest)
    ensures ReadValues([Frame(kind, [])] + fs + [Frame(DONE, [])] + more)
      == Read([if kind == OBJECT then Obj(inner) else Arr(inner)] + after, rest)
  {
    Bracket(Frame(kind, []), fs, Frame(DONE, []), more);
    var closing := [Frame(DONE, [])] + more;
    assert closing[1..] == more;
  }

  lemma Bracket<T>(open: T, inner: seq<T>, close: T, more: seq<T>)
    ensures ([open] + inner + [close] + more)[0] == open
    ensures ([open] + inner + [close] + more)[1..] == inner + ([close] + more)
  {
  }

  lemma {:induction false} ReadScalarInverts(v: Value)
    requires Archivable(v) && !v.Obj? && !v.Arr?
    ensures |Frames(v)| == 1 && ReadScalar(Frames(v)[0]) == Some(v)
    ensures Frames(v)[0].kind < OBJECT
  {
    match v
    case Str(text) => assert (text + [0])[..|text|] == text;
    case Int32(n) => DecodeEncode(n, 4);
    case Int64(n) => DecodeEncode(n, 8);
    case _ =>
  }

  /** The archive of any list of values reads back as exactly that list. */
  lemma {:induction false} DecodingInverts(vs: seq<Value>)
    requires forall v :: v in vs ==> Archivable(v)
    ensures Decoding(Encoding(vs)) == Some(vs)
  {
    var fs := AllFrames(vs);
    AllFramesShort(vs);
    ReadFramesInverts(fs);
    ReadValuesInverts(vs, []);
    assert fs + [] == fs;
  }

  /** Different lists of values have different archives. */
  lemma {:induction false} EncodingInjective(vs: seq<Value>, ws: seq<Value>)
    requires forall v :: v in vs ==> Archivable(v)
    requires forall w :: w in ws ==> Archivable(w)
    requires Encoding(vs) == Encoding(ws)
    ensures vs == ws
  {
    DecodingInverts(vs);
    DecodingInverts(ws);
  }

  lemma {:induction false} EncodingAppend(vs: seq<Value>, ws: seq<Value>)
    ensures Encoding(vs + ws) == Encoding(vs) + Encoding(ws)
  {
    AllFramesAppend(vs, ws);
    FramesBytesAppend(AllFrames(vs), AllFrames(ws));
  }

  lemma {:induction false} AllFramesAppend(vs: seq<Value>, ws: seq<Value>)
    ensures AllFrames(vs + ws) == AllFrames(vs) + AllFrames(ws)
  {
    if vs == [] {
      assert vs + ws == ws;
    } else {
      FrontOfConcat(vs, ws);
      AllFramesAppend(vs[1..], ws);
      Assoc(Frames(vs[0]), AllFrames(vs[1..]), AllFrames(ws));
    }
  }

  lemma {:induction false} FramesBytesAppend(a: seq<Frame>, b: seq<Frame>)
    ensures FramesBytes(a + b) == FramesBytes(a) + FramesBytes(b)
  {
    if a == [] {
      assert a + b == b;
    } else {
      FrontOfConcat(a, b);
      FramesBytesAppend(a[1..], b);
      Assoc(FrameBytes(a[0]), FramesBytes(a[1..]), FramesBytes(b));
    }
  }

  /** Objects and arrays are the bytes of their parts between two empty frames. */
  lemma KnownBrackets(vs: seq<Value>)
    ensures Encoding([Obj(vs)]) == [8, 0, 0, 0, 0] + Encoding(vs) + [10, 0, 0, 0, 0]
    ensures Encoding([Arr(vs)]) == [9, 0, 0, 0, 0] + Encoding(vs) + [10, 0, 0, 0, 0]
  {
    hide LittleEndian, FramesBytes;
    SmallLength(0);
    Bracketed(Obj(vs), OBJECT, vs);
    Bracketed(Arr(vs), ARRAY, vs);
  }

  lemma Bracketed(v: Value, kind: Byte, vs: seq<Value>)
    requires Frames(v) == [Frame(kind, [])] + AllFrames(vs) + [Frame(DONE, [])]
    ensures Encoding([v]) == FrameBytes(Frame(kind, [])) + Encoding(vs) + FrameBytes(Frame(DONE, []))
  {
    hide FrameBytes;
    var open, close := [Frame(kind, [])], [Frame(DONE, [])];
    OneValue(v);
    FramesBytesAppend(open + AllFrames(vs), close);
    FramesBytesAppend(open, AllFrames(vs));
    OneFrame(open[0]);
    OneFrame(close[0]);
  }
}
