/**
 * The line loop of processCSV: the first line gives the headers, every later
 * line with as many comma-separated cells as there are headers is built into a
 * record and handed to the data callback, one at a time and in order.
 */
module CsvStream {
  import opened JsValues
  import opened RecordBuilder
  import opened Rows
  import opened Accumulator

  /** What the line reader yields: the lines read, then the end of input or one read error. */
  datatype LineSource = LineSource(lines: seq<string>, readError: Option<Error>)

  /** A data line is used when it has exactly as many cells as there are headers. */
  predicate Accepted(headers: seq<string>, line: string) {
    |Split(line, ',')| == |headers|
  }

  /** What one data line gives: None for a skipped line, else what buildNestedObject returns or throws. */
  function LineResult(headers: seq<string>, line: string, numerals: Numerals): Option<Result<Record>> {
    var data := Split(line, ',');
    if |data| == |headers| then Some(BuildResult(headers, data, numerals)) else None
  }

  /** The error of the first data line in `lines` whose record cannot be built, if any: reading stops there. */
  function Halt(headers: seq<string>, lines: seq<string>, numerals: Numerals): Option<Error>
    decreases |lines|
  {
    if |lines| == 0 then None
    else match Halt(headers, lines[..|lines| - 1], numerals)
      case Some(e) => Some(e)
      case None =>
        match LineResult(headers, lines[|lines| - 1], numerals)
        case Some(Failure(e)) => Some(e)
        case _ => None
  }

  /**
   * The records built from the data lines `lines` under `headers`, in line
   * order, up to the first line whose build throws; skipped lines give none.
   */
  function RecordsOf(headers: seq<string>, lines: seq<string>, numerals: Numerals): seq<Record>
    decreases |lines|
  {
    if |lines| == 0 then []
    else
      var init := RecordsOf(headers, lines[..|lines| - 1], numerals);
      if Halt(headers, lines[..|lines| - 1], numerals).Some? then init
      else match LineResult(headers, lines[|lines| - 1], numerals)
        case Some(Success(rec)) => init + [rec]
        case _ => init
  }

  /** The records a whole input delivers: the first line is the header row and is never delivered. */
  function DataRecords(lines: seq<string>, numerals: Numerals): seq<Record> {
    if |lines| == 0 then [] else RecordsOf(Split(lines[0], ','), lines[1..], numerals)
  }

  /** The error of the first data line of a whole input whose record cannot be built, if any. */
  function DataHalt(lines: seq<string>, numerals: Numerals): Option<Error> {
    if |lines| == 0 then None else Halt(Split(lines[0], ','), lines[1..], numerals)
  }

  /**
   * How processCSV settles when every callback succeeds: with the error of a
   * line whose record cannot be built, else with the read error, else normally.
   */
  function StreamEnd(source: LineSource, numerals: Numerals): Outcome {
    match DataHalt(source.lines, numerals)
    case Some(e) => Fail(e)
    case None =>
      match source.readError
      case Some(e) => Fail(e)
      case None => Pass
  }

  /** An input of no lines, or of the header line only, delivers nothing. */
  lemma HeaderOnlyDeliversNothing(lines: seq<string>, numerals: Numerals)
    requires |lines| <= 1
    ensures DataRecords(lines, numerals) == []
  {
    if |lines| == 1 {
      assert lines[1..] == [];
    }
  }

  /** The positions, in `lines`, of the lines that are used, in increasing order. */
  function AcceptedIndices(headers: seq<string>, lines: seq<string>): seq<nat>
    decreases |lines|
  {
    if |lines| == 0 then []
    else
      var init := AcceptedIndices(headers, lines[..|lines| - 1]);
      if Accepted(headers, lines[|lines| - 1]) then init + [|lines| - 1] else init
  }

  /** A line is used if and only if its cell count matches the header count. */
  lemma {:induction false} AcceptedIndicesExactly(headers: seq<string>, lines: seq<string>)
    ensures forall i :: i in AcceptedIndices(headers, lines) <==> 0 <= i < |lines| && Accepted(headers, lines[i])
    decreases |lines|
  {
    if |lines| > 0 {
      var init := lines[..|lines| - 1];
      AcceptedIndicesExactly(headers, init);
      forall i | 0 <= i < |init| ensures init[i] == lines[i] {
      }
    }
  }

  /** Used lines are delivered in line order. */
  lemma {:induction false} AcceptedIndicesIncreasing(headers: seq<string>, lines: seq<string>)
    ensures forall a, b :: 0 <= a < b < |AcceptedIndices(headers, lines)| ==>
      AcceptedIndices(headers, lines)[a] < AcceptedIndices(headers, lines)[b]
    ensures forall a :: 0 <= a < |AcceptedIndices(headers, lines)| ==> AcceptedIndices(headers, lines)[a] < |lines|
    decreases |lines|
  {
    if |lines| > 0 {
      AcceptedIndicesIncreasing(headers, lines[..|lines| - 1]);
    }
  }

  /** One record per used line: record j is built from the j-th used line. */
  lemma {:induction false} RecordsAtAcceptedIndices(headers: seq<string>, lines: seq<string>, numerals: Numerals)
    requires Halt(headers, lines, numerals).None?
    ensures |RecordsOf(headers, lines, numerals)| == |AcceptedIndices(headers, lines)|
    ensures forall j :: 0 <= j < |AcceptedIndices(headers, lines)| ==>
      var i := AcceptedIndices(headers, lines)[j];
      i < |lines| && Accepted(headers, lines[i])
      && RecordsOf(headers, lines, numerals)[j] == Build(headers, Split(lines[i], ','), numerals)
    decreases |lines|
  {
    if |lines| > 0 {
      var init := lines[..|lines| - 1];
      RecordsAtAcceptedIndices(headers, init, numerals);
      AcceptedIndicesIncreasing(headers, init);
      var last := lines[|lines| - 1];
      if Accepted(headers, last) {
        FirstThrowAt(headers, Split(last, ','), numerals, |headers|);
        assert LineResult(headers, last, numerals) == Some(Success(Build(headers, Split(last, ','), numerals)));
      }
      var ix, recs := AcceptedIndices(headers, lines), RecordsOf(headers, lines, numerals);
      var ix0, recs0 := AcceptedIndices(headers, init), RecordsOf(headers, init, numerals);
      forall j | 0 <= j < |ix|
        ensures ix[j] < |lines| && Accepted(headers, lines[ix[j]])
             && recs[j] == Build(headers, Split(lines[ix[j]], ','), numerals)
      {
        if j < |ix0| {
          assert ix[j] == ix0[j] && recs[j] == recs0[j];
          assert init[ix0[j]] == lines[ix[j]];
        }
      }
    }
  }

  /**
   * Reading one more line: once a line has thrown nothing changes; otherwise a
   * line whose build returns adds its record at the end, a skipped line adds
   * nothing, and a line whose build throws stops the reading with its error.
   */
  lemma RecordsOfSnoc(headers: seq<string>, lines: seq<string>, line: string, numerals: Numerals)
    ensures Halt(headers, lines, numerals).Some? ==>
      RecordsOf(headers, lines + [line], numerals) == RecordsOf(headers, lines, numerals)
      && Halt(headers, lines + [line], numerals) == Halt(headers, lines, numerals)
    ensures Halt(headers, lines, numerals).None? ==>
      RecordsOf(headers, lines + [line], numerals)
        == RecordsOf(headers, lines, numerals)
           + (match LineResult(headers, line, numerals) case Some(Success(rec)) => [rec] case _ => [])
      && Halt(headers, lines + [line], numerals)
        == (match LineResult(headers, line, numerals) case Some(Failure(e)) => Some(e) case _ => None)
  {
    assert (lines + [line])[..|lines|] == lines;
  }

  /** One more line only ever adds records at the end. */
  lemma RecordsOfGrows(headers: seq<string>, lines: seq<string>, line: string, numerals: Numerals)
    ensures var pre, all := RecordsOf(headers, lines, numerals), RecordsOf(headers, lines + [line], numerals);
      |pre| <= |all| && pre == all[..|pre|]
  {
    RecordsOfSnoc(headers, lines, line, numerals);
    var pre := RecordsOf(headers, lines, numerals);
    assert forall tail: seq<Record> :: (pre + tail)[..|pre|] == pre;
  }

  /** The records of the first lines are a prefix of the records of all of them. */
  lemma {:induction false} RecordsOfPrefix(headers: seq<string>, lines: seq<string>, n: nat, numerals: Numerals)
    requires n <= |lines|
    ensures var pre := RecordsOf(headers, lines[..n], numerals);
      |pre| <= |RecordsOf(headers, lines, numerals)| && pre == RecordsOf(headers, lines, numerals)[..|pre|]
    decreases |lines|
  {
    if n < |lines| {
      var init := lines[..|lines| - 1];
      RecordsOfPrefix(headers, init, n, numerals);
      assert init[..n] == lines[..n] && init + [lines[|lines| - 1]] == lines;
      RecordsOfGrows(headers, init, lines[|lines| - 1], numerals);
      var pre, mid, all := RecordsOf(headers, lines[..n], numerals), RecordsOf(headers, init, numerals), RecordsOf(headers, lines, numerals);
      assert pre == mid[..|pre|] && mid == all[..|mid|];
      assert mid[..|pre|] == all[..|pre|];
    } else {
      assert lines[..n] == lines;
    }
  }

  /** The records of the data lines up to line `n` are the first records of the whole input. */
  lemma DataRecordsPrefix(lines: seq<string>, n: nat, numerals: Numerals)
    requires 1 <= n <= |lines|
    ensures var pre := RecordsOf(Split(lines[0], ','), lines[1..n], numerals);
      |pre| <= |DataRecords(lines, numerals)| && pre == DataRecords(lines, numerals)[..|pre|]
  {
    RecordsOfPrefix(Split(lines[0], ','), lines[1..], n - 1, numerals);
    assert lines[1..][..n - 1] == lines[1..n];
  }

  /**
   * A delivery that ends after line `n` delivered the first records; if all
   * records are named, so are those. If line `n` or one before it threw, those
   * are all the records, and the error is the input's.
   */
  lemma StoppedAfter(start: seq<Record>, lines: seq<string>, n: nat, numerals: Numerals)
    requires 1 <= n <= |lines|
    ensures var pre, all := RecordsOf(Split(lines[0], ','), lines[1..n], numerals), DataRecords(lines, numerals);
      |pre| <= |all| && pre == all[..|pre|] && (AllNamed(start + all) ==> AllNamed(start + pre))
    ensures Halt(Split(lines[0], ','), lines[1..n], numerals).Some? ==>
      DataRecords(lines, numerals) == RecordsOf(Split(lines[0], ','), lines[1..n], numerals)
      && DataHalt(lines, numerals) == Halt(Split(lines[0], ','), lines[1..n], numerals)
  {
    DataRecordsPrefix(lines, n, numerals);
    var pre, all := RecordsOf(Split(lines[0], ','), lines[1..n], numerals), DataRecords(lines, numerals);
    AllNamedAppend(start, all);
    AllNamedAppend(start, pre);
    AllNamedAppend(pre, all[|pre|..]);
    assert pre + all[|pre|..] == all;
    if Halt(Split(lines[0], ','), lines[1..n], numerals).Some? {
      ThrewAt(lines, n, numerals);
    }
  }

  /** The data lines up to the last are all the data lines. */
  lemma DataRecordsAll(lines: seq<string>, numerals: Numerals)
    requires |lines| > 0
    ensures RecordsOf(Split(lines[0], ','), lines[1..|lines|], numerals) == DataRecords(lines, numerals)
    ensures Halt(Split(lines[0], ','), lines[1..|lines|], numerals) == DataHalt(lines, numerals)
  {
    assert lines[1..|lines|] == lines[1..];
  }

  /** After a line has thrown, the later lines change neither the records nor the error. */
  lemma {:induction false} HaltSticks(headers: seq<string>, lines: seq<string>, n: nat, numerals: Numerals)
    requires n <= |lines| && Halt(headers, lines[..n], numerals).Some?
    ensures RecordsOf(headers, lines, numerals) == RecordsOf(headers, lines[..n], numerals)
    ensures Halt(headers, lines, numerals) == Halt(headers, lines[..n], numerals)
    decreases |lines| - n
  {
    if n < |lines| {
      assert lines[..n + 1] == lines[..n] + [lines[n]];
      RecordsOfSnoc(headers, lines[..n], lines[n], numerals);
      HaltSticks(headers, lines, n + 1, numerals);
    } else {
      assert lines[..n] == lines;
    }
  }

  /** A line of the input that throws ends the reading: the records and the error are those up to line `n`. */
  lemma ThrewAt(lines: seq<string>, n: nat, numerals: Numerals)
    requires 1 <= n <= |lines| && Halt(Split(lines[0], ','), lines[1..n], numerals).Some?
    ensures DataRecords(lines, numerals) == RecordsOf(Split(lines[0], ','), lines[1..n], numerals)
    ensures DataHalt(lines, numerals) == Halt(Split(lines[0], ','), lines[1..n], numerals)
  {
    assert lines[1..][..n - 1] == lines[1..n];
    HaltSticks(Split(lines[0], ','), lines[1..], n - 1, numerals);
  }

  /**
   * Reading stops at the first line whose build throws: that line is used,
   * no line before it throws, and the records are exactly those of the lines
   * before it.
   */
  lemma {:induction false} HaltAt(headers: seq<string>, lines: seq<string>, numerals: Numerals)
    requires Halt(headers, lines, numerals).Some?
    ensures exists i ::
              && 0 <= i < |lines| && Halt(headers, lines[..i], numerals).None?
              && LineResult(headers, lines[i], numerals) == Some(Failure(Halt(headers, lines, numerals).value))
              && RecordsOf(headers, lines, numerals) == RecordsOf(headers, lines[..i], numerals)
    decreases |lines|
  {
    var init := lines[..|lines| - 1];
    if Halt(headers, init, numerals).Some? {
      HaltAt(headers, init, numerals);
      var i :| 0 <= i < |init| && Halt(headers, init[..i], numerals).None?
        && LineResult(headers, init[i], numerals) == Some(Failure(Halt(headers, init, numerals).value))
        && RecordsOf(headers, init, numerals) == RecordsOf(headers, init[..i], numerals);
      assert init[..i] == lines[..i] && init[i] == lines[i];
    } else {
      assert lines[..|lines| - 1] == init;
    }
  }

  /** Headers with at most one '.' never stop the reading: every used line is built. */
  lemma {:induction false} ShallowHeadersNeverHalt(headers: seq<string>, lines: seq<string>, numerals: Numerals)
    requires forall i :: 0 <= i < |headers| ==> Count(headers[i], '.') <= 1
    ensures Halt(headers, lines, numerals) == None
    decreases |lines|
  {
    if |lines| > 0 {
      ShallowHeadersNeverHalt(headers, lines[..|lines| - 1], numerals);
      var data := Split(lines[|lines| - 1], ',');
      if |data| == |headers| {
        ShallowHeadersBuild(headers, data, numerals);
      }
    }
  }

  /** Reading line `i` of the input, when no line before it threw. */
  lemma RecordsOfNextLine(headers: seq<string>, lines: seq<string>, i: nat, numerals: Numerals)
    requires 1 <= i < |lines| && Halt(headers, lines[1..i], numerals).None?
    ensures RecordsOf(headers, lines[1..i + 1], numerals)
         == RecordsOf(headers, lines[1..i], numerals)
            + (match LineResult(headers, lines[i], numerals) case Some(Success(rec)) => [rec] case _ => [])
    ensures Halt(headers, lines[1..i + 1], numerals)
         == (match LineResult(headers, lines[i], numerals) case Some(Failure(e)) => Some(e) case _ => None)
  {
    assert lines[1..i + 1] == lines[1..i] + [lines[i]];
    RecordsOfSnoc(headers, lines[1..i], lines[i], numerals);
  }

  /**
   * One data line of processCSV's loop: a line whose cell count differs from
   * the header count is skipped; any other is built into a record, and the
   * build's error, or else the data callback's outcome, is returned.
   * Afterwards the callback has seen the records of every data line up to and
   * including this one.
   */
  method DeliverLine(headers: seq<string>, lines: seq<string>, i: nat, numerals: Numerals, sink: BatchAccumulator,
                     ghost start: seq<Record>)
    returns (o: Outcome)
    requires 1 <= i < |lines|
    requires sink.Valid() && sink.numerals == numerals
    requires Halt(headers, lines[1..i], numerals).None?
    requires sink.delivered == start + RecordsOf(headers, lines[1..i], numerals)
    modifies sink, sink.db
    ensures sink.delivered == start + RecordsOf(headers, lines[1..i + 1], numerals)
    ensures sink.Recorded()
    ensures LineResult(headers, lines[i], numerals).None? ==> o == Pass && sink.db.log == old(sink.db.log)
    ensures Halt(headers, lines[1..i + 1], numerals).Some? ==>
      o == Fail(Halt(headers, lines[1..i + 1], numerals).value) && sink.db.log == old(sink.db.log)
    ensures o.Pass? || Halt(headers, lines[1..i + 1], numerals).Some? ==> sink.Valid()
    ensures o.Fail? && Halt(headers, lines[1..i + 1], numerals).None? ==>
      |RecordsOf(headers, lines[1..i + 1], numerals)| > 0 && |sink.batch| == sink.batchSize
      && sink.FailedWith(o) && sink.Full()
    ensures old(sink.db.Accepting()) ==> sink.db.Accepting()
    ensures old(sink.db.log) <= sink.db.log
    ensures old(sink.db.Accepting()) && AllNamed(sink.delivered) ==>
      o.Pass? || Halt(headers, lines[1..i + 1], numerals).Some?
  {
    RecordsOfNextLine(headers, lines, i, numerals);
    ghost var got := RecordsOf(headers, lines[1..i], numerals);
    var data := Split(lines[i], ',');
    if |data| != |headers| {
      assert got + [] == got;
      return Pass;
    }
    var built := BuildNestedObject(headers, data, numerals);
    if built.Failure? {
      assert got + [] == got;
      return Fail(built.error);
    }
    o := sink.OnData(built.value);
    assert start + got + [built.value] == start + (got + [built.value]);
  }

  /**
   * processCSV over an already-read input, with the importer's buffer as the
   * data callback: `count` records reach the callback, a prefix of the input's
   * records in order. If a callback fails (`stopped`), nothing more is read and
   * the result is a failure; otherwise every record was delivered and the
   * result is StreamEnd: the error of a line whose record cannot be built,
   * else the read error, if there was one.
   */
  method ProcessCsv(source: LineSource, numerals: Numerals, sink: BatchAccumulator)
    returns (r: Outcome, ghost count: nat, ghost stopped: bool)
    requires sink.Valid() && sink.numerals == numerals
    modifies sink, sink.db
    ensures count <= |DataRecords(source.lines, numerals)|
    ensures sink.delivered == old(sink.delivered) + DataRecords(source.lines, numerals)[..count]
    ensures sink.Recorded()
    ensures !stopped ==>
      count == |DataRecords(source.lines, numerals)| && sink.Valid() && r == StreamEnd(source, numerals)
    ensures stopped ==> r.Fail? && count > 0 && |sink.batch| == sink.batchSize && sink.FailedWith(r) && sink.Full()
    ensures old(sink.db.Accepting()) ==> sink.db.Accepting()
    ensures old(sink.db.log) <= sink.db.log
    ensures old(sink.db.Accepting()) && AllNamed(old(sink.delivered) + DataRecords(source.lines, numerals)) ==> !stopped
  {
    var lines := source.lines;
    var headers: seq<string> := [];
    var isFirstLine := true;
    stopped := false;
    ghost var start := sink.delivered;
    ghost var accepting := sink.db.Accepting();
    for i := 0 to |lines|
      invariant isFirstLine <==> i == 0
      invariant i > 0 ==> headers == Split(lines[0], ',')
      invariant sink.Valid()
      invariant i == 0 ==> sink.delivered == start
      invariant i > 0 ==> sink.delivered == start + RecordsOf(headers, lines[1..i], numerals)
      invariant i > 0 ==> Halt(headers, lines[1..i], numerals).None?
      invariant accepting ==> sink.db.Accepting()
      invariant old(sink.db.log) <= sink.db.log
    {
      if isFirstLine {
        headers := Split(lines[i], ',');
        isFirstLine := false;
        assert lines[1..1] == [];
        assert start + [] == start;
        continue;
      }
      var o := DeliverLine(headers, lines, i, numerals, sink, start);
      if o.Fail? {
        r := o;
        count := |RecordsOf(headers, lines[1..i + 1], numerals)|;
        StoppedAfter(start, lines, i + 1, numerals);
        stopped := Halt(headers, lines[1..i + 1], numerals).None?;
        return;
      }
    }
    if |lines| > 0 {
      DataRecordsAll(lines, numerals);
      count := |DataRecords(lines, numerals)|;
    } else {
      count := 0;
      assert start + [] == start;
    }
    r := match source.readError case Some(e) => Fail(e) case None => Pass;
  }
}
