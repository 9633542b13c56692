/** Recorded commands as archived records, and replication over the archived bytes. */
module CommandLog {
  import opened Bio
  import opened DomModel
  import R = Records
  import Replication
  import opened Archivers
  import opened Buffers

  type Command = Replication.Command

  // ---------------------------------------------------------------- texts

  /** A text that a C string of bytes can hold. */
  predicate CText(s: string) {
    |s| + 1 < R.LENGTH_LIMIT && forall i :: 0 <= i < |s| ==> 0 < s[i] as int < 256
  }

  function TextBytes(s: string): (b: seq<Byte>)
    requires CText(s)
    ensures |b| == |s|
  {
    seq(|s|, i requires 0 <= i < |s| => s[i] as int)
  }

  function BytesText(b: seq<Byte>): (s: string)
    ensures |s| == |b|
  {
    seq(|b|, i requires 0 <= i < |b| => b[i] as char)
  }

  lemma TextInverts(s: string)
    requires CText(s)
    ensures BytesText(TextBytes(s)) == s
    ensures 0 !in TextBytes(s) && forall i: nat :: i < |s| ==> TextBytes(s)[i] == s[i] as int
  {
  }

  // ---------------------------------------------------------------- commands as values

  predicate Writable(c: Command) {
    match c
    case Alloc(id, name) => Fits(id, 8) && CText(name)
    case SetRoot(id) => Fits(id, 8)
    case SetAttribute(id, key, value) => Fits(id, 8) && Fits(key, 8) && CText(value)
    case AppendTo(id, sub) => Fits(id, 8) && Fits(sub, 8)
    case BeforeOf(id, sib) => Fits(id, 8) && Fits(sib, 8)
    case AfterOf(id, sib) => Fits(id, 8) && Fits(sib, 8)
    case RemoveElement(id) => Fits(id, 8)
    case DefineKey(key, name) => Fits(key, 8) && CText(name)
  }

  /** `encode` of each command class: the command type, then the fields in order. */
  function Record(c: Command): R.Value
    requires Writable(c)
  {
    match c
    case Alloc(id, name) => R.Obj([R.Int32(0), R.Int64(id), R.Str(TextBytes(name))])
    case SetRoot(id) => R.Obj([R.Int32(1), R.Int64(id)])
    case SetAttribute(id, key, value) =>
      R.Obj([R.Int32(2), R.Int64(id), R.Int64(key), R.Str(TextBytes(value))])
    case AppendTo(id, sub) => R.Obj([R.Int32(3), R.Int64(id), R.Int64(sub)])
    case BeforeOf(id, sib) => R.Obj([R.Int32(4), R.Int64(id), R.Int64(sib)])
    case AfterOf(id, sib) => R.Obj([R.Int32(5), R.Int64(id), R.Int64(sib)])
    case RemoveElement(id) => R.Obj([R.Int32(6), R.Int64(id)])
    case DefineKey(key, name) => R.Obj([R.Int32(7), R.Int64(key), R.Str(TextBytes(name))])
  }

  // ---------------------------------------------------------------- the bytes of a command

  function Number(n: Byte): seq<Byte> {
    [3, 4, 0, 0, 0, n, 0, 0, 0]
  }

  function Word(id: int): seq<Byte> {
    [4, 8, 0, 0, 0] + LittleEndian(id, 8)
  }

  function Text(s: string): seq<Byte>
    requires CText(s)
  {
    [1] + LittleEndian(|s| + 1, 4) + (TextBytes(s) + [0])
  }

  /** The fields of each command class as bytes, in the order of its members. */
  function Fields(c: Command): seq<Byte>
    requires Writable(c)
  {
    match c
    case Alloc(id, name) => Number(0) + Word(id) + Text(name)
    case SetRoot(id) => Number(1) + Word(id)
    case SetAttribute(id, key, value) => Number(2) + Word(id) + Word(key) + Text(value)
    case AppendTo(id, sub) => Number(3) + Word(id) + Word(sub)
    case BeforeOf(id, sib) => Number(4) + Word(id) + Word(sib)
    case AfterOf(id, sib) => Number(5) + Word(id) + Word(sib)
    case RemoveElement(id) => Number(6) + Word(id)
    case DefineKey(key, name) => Number(7) + Word(key) + Text(name)
  }

  /** What the bytes of single values are. */
  lemma FieldBytes(n: Byte, id: int, s: string)
    requires CText(s)
    ensures n < 8 ==> R.Encoding([R.Int32(n)]) == Number(n)
    ensures R.Encoding([R.Int64(id)]) == Word(id)
    ensures R.Encoding([R.Str(TextBytes(s))]) == Text(s)
  {
    R.KnownRecords(TextBytes(s), [], n, false);
    R.KnownRecords([], [], id, false);
    R.SmallLength(n);
  }

  lemma FieldsAppend(v: R.Value, vs: seq<R.Value>, fields: seq<R.Value>)
    requires fields == [v] + vs
    ensures R.Encoding(fields) == R.Encoding([v]) + R.Encoding(vs)
  {
    R.EncodingAppend([v], vs);
  }

  lemma TwoFields(v: R.Value, w: R.Value)
    ensures R.Encoding([v, w]) == R.Encoding([v]) + R.Encoding([w])
  {
    hide R.Encoding;
    FieldsAppend(v, [w], [v, w]);
  }

  lemma ThreeFields(u: R.Value, v: R.Value, w: R.Value)
    ensures R.Encoding([u, v, w]) == R.Encoding([u]) + R.Encoding([v]) + R.Encoding([w])
  {
    hide R.Encoding;
    FieldsAppend(u, [v, w], [u, v, w]);
    TwoFields(v, w);
  }

  lemma FourFields(t: R.Value, u: R.Value, v: R.Value, w: R.Value)
    ensures R.Encoding([t, u, v, w]) == R.Encoding([t]) + R.Encoding([u]) + R.Encoding([v]) + R.Encoding([w])
  {
    hide R.Encoding;
    FieldsAppend(t, [u, v, w], [t, u, v, w]);
    ThreeFields(u, v, w);
  }

  /** The record of a command is an object, type 8, of its number and its fields, closed by type 10. */
  lemma CommandBytes(c: Command)
    requires Writable(c)
    ensures R.Encoding([Record(c)]) == [8, 0, 0, 0, 0] + Fields(c) + [10, 0, 0, 0, 0]
  {
    hide R.Encoding, Number, Word, Text, TextBytes, CText, Fits;
    R.KnownBrackets(Record(c).fields);
    match c
    case Alloc(id, name) =>
      ThreeFields(R.Int32(0), R.Int64(id), R.Str(TextBytes(name)));
      FieldBytes(0, id, name);
    case SetRoot(id) =>
      TwoFields(R.Int32(1), R.Int64(id));
      NumberBytes(1, id);
    case SetAttribute(id, key, value) =>
      FourFields(R.Int32(2), R.Int64(id), R.Int64(key), R.Str(TextBytes(value)));
      FieldBytes(2, id, value);
      NumberBytes(2, key);
    case AppendTo(id, sub) => PairBytes(3, id, sub);
    case BeforeOf(id, sib) => PairBytes(4, id, sib);
    case AfterOf(id, sib) => PairBytes(5, id, sib);
    case RemoveElement(id) =>
      TwoFields(R.Int32(6), R.Int64(id));
      NumberBytes(6, id);
    case DefineKey(key, name) =>
      ThreeFields(R.Int32(7), R.Int64(key), R.Str(TextBytes(name)));
      FieldBytes(7, key, name);
  }

  lemma NumberBytes(n: Byte, id: int)
    requires n < 8
    ensures R.Encoding([R.Int32(n)]) == Number(n) && R.Encoding([R.Int64(id)]) == Word(id)
  {
    hide R.Encoding;
    FieldBytes(n, id, "");
  }

  lemma PairBytes(n: Byte, a: int, b: int)
    requires n < 8
    ensures R.Encoding([R.Int32(n), R.Int64(a), R.Int64(b)]) == Number(n) + Word(a) + Word(b)
  {
    hide R.Encoding, Number, Word;
    ThreeFields(R.Int32(n), R.Int64(a), R.Int64(b));
    NumberBytes(n, a);
    NumberBytes(n, b);
  }

  /** The command a record holds, if it holds one. */
  function CommandOf(v: R.Value): R.Option<Command> {
    match v
    case Obj(fields) =>
      if |fields| == 2 && fields[0].Int32? && fields[1].Int64? then
        if fields[0].n == 1 then R.Some(Replication.SetRoot(fields[1].n))
        else if fields[0].n == 6 then R.Some(Replication.RemoveElement(fields[1].n))
        else R.None
      else if |fields| == 3 && fields[0].Int32? && fields[1].Int64? && fields[2].Int64? then
        if fields[0].n == 3 then R.Some(Replication.AppendTo(fields[1].n, fields[2].n))
        else if fields[0].n == 4 then R.Some(Replication.BeforeOf(fields[1].n, fields[2].n))
        else if fields[0].n == 5 then R.Some(Replication.AfterOf(fields[1].n, fields[2].n))
        else R.None
      else if |fields| == 3 && fields[0].Int32? && fields[1].Int64? && fields[2].Str? then
        if fields[0].n == 0 then R.Some(Replication.Alloc(fields[1].n, BytesText(fields[2].text)))
        else if fields[0].n == 7 then R.Some(Replication.DefineKey(fields[1].n, BytesText(fields[2].text)))
        else R.None
      else if |fields| == 4 && fields[0].Int32? && fields[1].Int64? && fields[2].Int64? && fields[3].Str? then
        if fields[0].n == 2 then
          R.Some(Replication.SetAttribute(fields[1].n, fields[2].n, BytesText(fields[3].text)))
        else R.None
      else R.None
    case _ => R.None
  }

  lemma {:induction false} RecordInverts(c: Command)
    requires Writable(c)
    ensures R.Archivable(Record(c)) && CommandOf(Record(c)) == R.Some(c)
  {
    hide Fits, TextBytes, BytesText;
    SmallTypes();
    match c
    case Alloc(_, name) => TextInverts(name);
    case SetAttribute(_, _, value) => TextInverts(value);
    case DefineKey(_, name) => TextInverts(name);
    case _ =>
  }

  lemma SmallTypes()
    ensures forall n :: 0 <= n < 8 ==> Fits(n, 4)
  {
    assert Half(4) == 0x8000_0000;
  }

  // ---------------------------------------------------------------- logs as bytes

  predicate AllWritable(log: seq<Command>) {
    forall i :: 0 <= i < |log| ==> Writable(log[i])
  }

  function AllRecords(log: seq<Command>): (vs: seq<R.Value>)
    requires AllWritable(log)
    ensures |vs| == |log| && forall i :: 0 <= i < |log| ==> vs[i] == Record(log[i])
  {
    seq(|log|, i requires 0 <= i < |log| => Record(log[i]))
  }

  /** The commands of a list of records. */
  function CommandsOf(vs: seq<R.Value>): R.Option<seq<Command>> {
    if vs == [] then R.Some([])
    else
      match CommandOf(vs[0])
      case None => R.None
      case Some(c) =>
        match CommandsOf(vs[1..])
        case None => R.None
        case Some(log) => R.Some([c] + log)
  }

  /** The commands of an archived transaction. */
  function ReadLog(bytes: seq<Byte>): R.Option<seq<Command>> {
    match R.Decoding(bytes)
    case None => R.None
    case Some(vs) => CommandsOf(vs)
  }

  lemma {:induction false} CommandsInvert(log: seq<Command>)
    requires AllWritable(log)
    ensures CommandsOf(AllRecords(log)) == R.Some(log)
  {
    hide CommandOf, Record, Writable;
    if log != [] {
      RecordInverts(log[0]);
      CommandsInvert(log[1..]);
      assert AllRecords(log)[1..] == AllRecords(log[1..]);
      assert [log[0]] + log[1..] == log;
    }
  }

  /** An archived transaction reads back as exactly the commands that were recorded. */
  lemma {:induction false} LogInverts(log: seq<Command>)
    requires AllWritable(log)
    ensures ReadLog(R.Encoding(AllRecords(log))) == R.Some(log)
  {
    forall v | v in AllRecords(log)
      ensures R.Archivable(v)
    {
      var i :| 0 <= i < |log| && v == Record(log[i]);
      RecordInverts(log[i]);
    }
    R.DecodingInverts(AllRecords(log));
    CommandsInvert(log);
  }

  // ---------------------------------------------------------------- replication over bytes

  ghost predicate TextsFit(op: Replication.Op) {
    match op
    case Create(name) => CText(name)
    case AttrOp(_, key, value) => CText(key) && (value.Some? ==> CText(value.value))
    case _ => true
  }

  ghost predicate IdsFit(d: Dom) {
    && d.autoKey < Half(8)
    && forall s :: s in d.keys ==> CText(s)
  }

  lemma {:induction false} StepWritable(d: Dom, op: Replication.Op)
    requires Replication.Consistent(d) && Replication.Enabled(d, op) && TextsFit(op)
    requires IdsFit(d) && d.autoKey + 1 < Half(8)
    ensures AllWritable(Replication.StepLog(d, op))
  {
    hide Linked;
    match op
    case Create(name) =>
    case AppendOp(t, x) => IdFits(d, t); IdFits(d, x);
    case BeforeOp(t, x) => IdFits(d, t); IdFits(d, x);
    case AfterOp(t, x) => IdFits(d, t); IdFits(d, x);
    case RemoveOp(x) => IdFits(d, x);
    case AttrOp(x, key, value) => IdFits(d, x); AttrWritable(d, x, key, value);
    case RootOp(x) => if x != 0 { IdFits(d, x); }
  }

  lemma {:induction false} StepIdsFit(d: Dom, op: Replication.Op)
    requires Replication.Enabled(d, op) && TextsFit(op) && IdsFit(d) && d.autoKey + 1 < Half(8)
    ensures IdsFit(Replication.Step(d, op))
    ensures Replication.Step(d, op).autoKey <= d.autoKey + 1
  {
  }

  lemma IdFits(d: Dom, x: Id)
    requires Replication.Consistent(d) && IdsFit(d) && x in d.nodes
    ensures Fits(x, 8)
  {
  }

  lemma AttrWritable(d: Dom, x: Id, key: string, value: Replication.Option<string>)
    requires Replication.Consistent(d) && IdsFit(d) && d.autoKey + 1 < Half(8) && Fits(x, 8)
    requires CText(key) && (value.Some? ==> CText(value.value))
    ensures AllWritable(Replication.AttrLog(d, x, key, value))
  {
    var e := Replication.LookUpKey(d, key);
    assert CText("");
    assert key in d.keys ==> Fits(d.keys[key], 8);
    assert Fits(e.keys[key], 8);
  }

  lemma {:induction false} RunWritable(d: Dom, ops: seq<Replication.Op>)
    requires Replication.Consistent(d) && Replication.AllEnabled(d, ops)
    requires forall i :: 0 <= i < |ops| ==> TextsFit(ops[i])
    requires IdsFit(d) && d.autoKey + |ops| < Half(8)
    ensures AllWritable(Replication.RunLog(d, ops))
    decreases |ops|
  {
    if ops != [] {
      assert TextsFit(ops[0]);
      StepWritable(d, ops[0]);
      StepIdsFit(d, ops[0]);
      Replication.StepConsistent(d, ops[0]);
      RunWritable(Replication.Step(d, ops[0]), ops[1..]);
    }
  }

  /** Replication through the archive: the bytes of a recorded run, read back by the format's
      definition and dispatched on an empty document, rebuild the document. */
  lemma {:induction false} ReplicatesThroughBytes(ops: seq<Replication.Op>)
    requires Replication.AllEnabled(EMPTY, ops)
    requires |ops| < Half(8) && forall i :: 0 <= i < |ops| ==> TextsFit(ops[i])
    ensures AllWritable(Replication.RunLog(EMPTY, ops))
    ensures
      var bytes := R.Encoding(AllRecords(Replication.RunLog(EMPTY, ops)));
      var read := ReadLog(bytes);
      && read.Some? && Replication.AllDispatchable(EMPTY, read.value)
      && Replication.DispatchAll(EMPTY, read.value) == Replication.Visible(Replication.Run(EMPTY, ops))
  {
    Replication.EmptyConsistent();
    RunWritable(EMPTY, ops);
    LogInverts(Replication.RunLog(EMPTY, ops));
    Replication.Replicates(ops);
  }

  /** Writes the commands of a transaction into an archive, from which they can be read back. */
  method Archive(log: seq<Command>) returns (bytes: seq<Byte>)
    requires AllWritable(log) && |R.Encoding(AllRecords(log))| < UINT_LIMIT
    ensures bytes == R.Encoding(AllRecords(log)) && ReadLog(bytes) == R.Some(log)
  {
    hide R.Encoding, ReadLog, Record;
    var archiver := new MemArchiver();
    forall v | v in AllRecords(log) ensures R.Archivable(v) {
      var i :| 0 <= i < |log| && v == AllRecords(log)[i];
      RecordInverts(log[i]);
    }
    archiver.EncodeAll(AllRecords(log));
    bytes := archiver.buffer.Data()[..archiver.buffer.length];
    assert bytes == [] + R.Encoding(AllRecords(log)) == R.Encoding(AllRecords(log));
    LogInverts(log);
  }
}
