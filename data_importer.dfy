/**
 * importCsvData: empty the users table, stream the CSV into batches of
 * BatchSize records, insert each full batch as it fills and the remainder at
 * the end, and report the outcome as a value instead of throwing.
 */
module DataImporter {
  import opened JsValues
  import opened Rows
  import opened Store
  import opened Db
  import opened Accumulator
  import opened CsvStream

  /** Records per insert. */
  const BatchSize: nat := 1000

  /** What the import reports to its caller. */
  datatype ImportResult = ImportResult(success: bool, message: string, error: Option<string>)

  const Complete := ImportResult(true, "Import complete.", None)

  /** The report for an error caught by the import: its message is passed on. */
  function Failed(e: Error): (result: ImportResult)
    ensures !result.success && result.error == Some(e.message)
  {
    ImportResult(false, "Import failed.", Some(e.message))
  }

  /**
   * The end of the try block once every record has reached the buffer: insert
   * what is left, then report. The database sees one committed transaction
   * per batch inserted (`batches`), then the call that failed, for the
   * records `failed`, if one did; together they are the records, in order.
   * On success the batches are the records cut into batches of the buffer's
   * size; on failure the report carries the error of the last insert.
   */
  method FinishImport(sink: BatchAccumulator, ghost records: seq<Record>)
    returns (result: ImportResult, ghost batches: seq<seq<Record>>, ghost failed: seq<Record>, ghost start: nat)
    requires sink.Valid() && sink.delivered == records
    modifies sink, sink.db
    ensures sink.db.Idle()
    ensures result.success ==> result == Complete
    ensures start == sink.servedBase + 4 * |batches|
    ensures var e := BatchExchange(failed, sink.numerals, sink.db.replies, start);
      sink.db.log == sink.logBase + CommittedAll(batches, sink.numerals) + e.commands
      && sink.db.served == start + e.used
      && (failed != [] ==> e.outcome.Fail? && result == Failed(e.outcome.error))
    ensures Concat(batches) + failed == records
      && TransformAll(Concat(batches), sink.numerals).Success?
      && sink.db.state.table == sink.base + TransformAll(Concat(batches), sink.numerals).value
    ensures !result.success ==>
      0 < |failed| < sink.batchSize && forall i :: 0 <= i < |batches| ==> |batches[i]| == sink.batchSize
    ensures result.success ==>
      failed == [] && batches == Chunks(records, sink.batchSize)
      && |batches| == CeilDiv(|records|, sink.batchSize)
      && TransformAll(records, sink.numerals).Success?
      && sink.db.state.table == sink.base + TransformAll(records, sink.numerals).value
    ensures old(sink.db.Accepting()) && AllNamed(records) ==> result == Complete
  {
    var flushedOut := sink.FinalFlush();
    batches := sink.flushed;
    start := sink.servedBase + 4 * |batches|;
    if flushedOut.Fail? {
      failed := sink.batch;
      sink.FailedExchange(flushedOut, sink.db, batches, failed, sink.numerals, start, sink.logBase);
      return Failed(flushedOut.error), batches, failed, start;
    }
    failed := [];
    result := Complete;
  }

  /**
   * The rest of the try block once the table is cleared: stream the records
   * through a fresh buffer, then insert what is left. The database sees one
   * committed transaction per batch inserted (`batches`), then the call that
   * failed, for the records `failed`, if one did; these are the first records
   * of the input, in order. On success that is all of them, cut into batches
   * of BatchSize. A failure reports the failed insert's error, else the
   * stream's.
   */
  method LoadRecords(db: Database, source: LineSource, numerals: Numerals)
    returns (result: ImportResult, ghost batches: seq<seq<Record>>, ghost failed: seq<Record>, ghost start: nat)
    requires db.Idle()
    modifies db
    ensures db.Idle()
    ensures result.success ==> result == Complete
    ensures start == old(db.served) + 4 * |batches|
    ensures var e := BatchExchange(failed, numerals, db.replies, start);
      db.log == old(db.log) + CommittedAll(batches, numerals) + e.commands
      && db.served == start + e.used
      && (failed != [] ==> e.outcome.Fail? && result == Failed(e.outcome.error))
    ensures var records, sent := DataRecords(source.lines, numerals), Concat(batches) + failed;
      |sent| <= |records| && sent == records[..|sent|]
      && TransformAll(Concat(batches), numerals).Success?
      && db.state.table == old(db.state.table) + TransformAll(Concat(batches), numerals).value
    ensures !result.success ==> |failed| <= BatchSize && forall i :: 0 <= i < |batches| ==> |batches[i]| == BatchSize
    ensures !result.success && failed == [] ==>
      StreamEnd(source, numerals).Fail? && result == Failed(StreamEnd(source, numerals).error)
    ensures result.success ==>
      var records := DataRecords(source.lines, numerals);
      failed == [] && StreamEnd(source, numerals) == Pass && batches == Chunks(records, BatchSize)
      && |batches| == CeilDiv(|records|, BatchSize)
      && TransformAll(records, numerals).Success? && db.state.table == old(db.state.table) + TransformAll(records, numerals).value
    ensures old(db.Accepting()) && AllNamed(DataRecords(source.lines, numerals)) ==>
      result == (match StreamEnd(source, numerals) case Pass => Complete case Fail(e) => Failed(e))
  {
    ghost var records := DataRecords(source.lines, numerals);
    var sink := new BatchAccumulator(db, numerals, BatchSize);
    var processed, count, stopped := ProcessCsv(source, numerals, sink);
    if processed.Fail? {
      batches := sink.flushed;
      start := old(db.served) + 4 * |batches|;
      if stopped {
        failed := sink.batch;
        sink.FailedExchange(processed, db, batches, failed, numerals, start, old(db.log));
      } else {
        failed := [];
        FrontOfPrefix(Concat(batches), sink.batch, records, count);
      }
      return Failed(processed.error), batches, failed, start;
    }
    result, batches, failed, start := FinishImport(sink, records);
    if result.success {
    }
  }

  /**
   * importCsvData over a database and an input. The first request is the
   * TRUNCATE; if it fails nothing else is sent. Otherwise the database sees
   * one committed transaction per batch inserted (`batches`), then the call
   * that failed, for the records `failed`, if one did, and the table holds
   * exactly the rows of the batches inserted, the first records of the input,
   * in order. A successful import inserted all records, cut into batches of
   * BatchSize. A failure reports the TRUNCATE's error, else the failed
   * insert's, else the stream's; with a server that accepts every request and
   * records that all have a name, the only ways to fail are a line whose
   * record cannot be built and a read error.
   */
  method ImportCsvData(db: Database, source: LineSource, numerals: Numerals)
    returns (result: ImportResult, ghost batches: seq<seq<Record>>, ghost failed: seq<Record>, ghost start: nat)
    requires db.Idle()
    modifies db
    ensures db.Idle()
    ensures |db.log| > |old(db.log)| && db.log[|old(db.log)|] == Truncate
    ensures result.success ==> result == Complete
    ensures !result.success ==> result.message == "Import failed." && result.error.Some?
    ensures old(db.NextReply()).Fail? ==>
      result == Failed(old(db.NextReply()).error) && db.log == old(db.log) + [Truncate] && db.state == old(db.state)
      && batches == [] && failed == []
    ensures old(db.NextReply()).Pass? ==>
      var e := BatchExchange(failed, numerals, db.replies, start);
      start == old(db.served) + 1 + 4 * |batches|
      && db.log == old(db.log) + [Truncate] + CommittedAll(batches, numerals) + e.commands
      && db.served == start + e.used
      && (failed != [] ==> e.outcome.Fail? && result == Failed(e.outcome.error))
    ensures old(db.NextReply()).Pass? && !AllNamed(failed) ==>
      result == Failed(MissingNameError) && db.log == old(db.log) + [Truncate] + CommittedAll(batches, numerals)
    ensures old(db.NextReply()).Pass? ==>
      var records, sent := DataRecords(source.lines, numerals), Concat(batches) + failed;
      |sent| <= |records| && sent == records[..|sent|]
      && TransformAll(Concat(batches), numerals).Success? && db.state.table == TransformAll(Concat(batches), numerals).value
    ensures old(db.NextReply()).Pass? && !result.success && failed == [] ==>
      StreamEnd(source, numerals).Fail? && result == Failed(StreamEnd(source, numerals).error)
    ensures !result.success ==> |failed| <= BatchSize && forall i :: 0 <= i < |batches| ==> |batches[i]| == BatchSize
    ensures result.success ==>
      var records := DataRecords(source.lines, numerals);
      failed == [] && StreamEnd(source, numerals) == Pass && batches == Chunks(records, BatchSize)
      && |batches| == CeilDiv(|records|, BatchSize)
      && TransformAll(records, numerals).Success? && db.state.table == TransformAll(records, numerals).value
    ensures old(db.Accepting()) && AllNamed(DataRecords(source.lines, numerals)) ==>
      result == (match StreamEnd(source, numerals) case Pass => Complete case Fail(e) => Failed(e))
  {
    var truncated := db.Request(Truncate);
    if truncated.Fail? {
      return Failed(truncated.error), [], [], db.served;
    }
    ghost var log0 := db.log;
    assert db.state.table == [];
    result, batches, failed, start := LoadRecords(db, source, numerals);
    if failed != [] {
      BatchExchangeSucceeds(failed, numerals, db.replies, start);
    }
    assert db.log[..|log0|] == log0;
    assert [] + TransformAll(Concat(batches), numerals).value == TransformAll(Concat(batches), numerals).value;
    if result.success {
      assert [] + TransformAll(DataRecords(source.lines, numerals), numerals).value
          == TransformAll(DataRecords(source.lines, numerals), numerals).value;
    }
  }
}
