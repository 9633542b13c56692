/** Transactions as bytes between two documents on the heap. */
module Transactions {
  import opened Bio
  import opened Buffers
  import opened CommandLog
  import opened Documents
  import opened DomModel
  import R = Records
  import opened Replication

  /** What has been recorded can be archived, and its bytes have a length. */
  ghost predicate Archivable(log: seq<Command>) {
    AllWritable(log) && |R.Encoding(AllRecords(log))| < UINT_LIMIT
  }

  /** `Document::commitTransaction`: the bytes of what has been recorded, or null if that is nothing. */
  method Commit(d: Document) returns (bytes: Option<seq<Byte>>)
    requires d.Valid() && (d.archiver.Some? ==> Archivable(d.archiver.value))
    modifies d`archiver
    ensures d.Valid() && d.State() == old(d.State()) && d.archiver == None
    ensures bytes
      == if old(d.archiver).None? || old(d.archiver.value) == [] then None
         else Some(R.Encoding(AllRecords(old(d.archiver.value))))
  {
    hide R.Encoding;
    var log := d.CommitTransaction();
    bytes := None;
    if log.Some? {
      var data := Archive(log.value);
      bytes := Some(data);
    }
  }

  /** `Document::setTransaction`, with the bytes read by the definition of the format. */
  method Apply(d: Document, bytes: Option<seq<Byte>>)
    requires d.Valid()
    requires bytes.Some? ==> ReadLog(bytes.value).Some? && AllDispatchable(d.State(), ReadLog(bytes.value).value)
    modifies d, d.elements.Values
    ensures d.Valid()
    ensures d.State()
      == if bytes.None? then old(d.State()) else DispatchAll(old(d.State()), ReadLog(bytes.value).value)
  {
    hide ReadLog;
    if bytes.None? { return; }
    var log := ReadLog(bytes.value);
    d.SetTransaction(log.value);
  }

  /**
   * End to end: the bytes of any run on a new document, applied to another one, make the two agree on everything but
   * empty attribute values.
   */
  method Synchronise(ops: seq<Op>) returns (source: Document, bytes: Option<seq<Byte>>, replica: Document)
    requires AllEnabled(EMPTY, ops) && |ops| < Half(8) && forall i :: 0 <= i < |ops| ==> TextsFit(ops[i])
    requires AllWritable(RunLog(EMPTY, ops)) ==> Archivable(RunLog(EMPTY, ops))
    ensures source.Valid() && source.State() == Run(EMPTY, ops)
    ensures replica.Valid() && replica.State() == Visible(Run(EMPTY, ops))
    ensures AllWritable(RunLog(EMPTY, ops))
    ensures bytes == if RunLog(EMPTY, ops) == [] then None else Some(R.Encoding(AllRecords(RunLog(EMPTY, ops))))
  {
    hide R.Encoding, ReadLog, TextsFit, Visible, Run, RunLog, AllEnabled, AllDispatchable;
    hide Document.Valid, Document.State, AllWritable, AllRecords, Consistent;
    EmptyConsistent();
    assert IdsFit(EMPTY);
    RunWritable(EMPTY, ops);
    source := new Document();
    source.StartTransaction();
    source.ExecuteAll(ops);
    assert source.archiver == Some([] + RunLog(EMPTY, ops)) && [] + RunLog(EMPTY, ops) == RunLog(EMPTY, ops);
    bytes := Commit(source);
    replica := new Document();
    assert replica.elements.Values == {};
    Replicates(ops);
    ReplicatesThroughBytes(ops);
    LogInverts(RunLog(EMPTY, ops));
    Apply(replica, bytes);
  }
}
