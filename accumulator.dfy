/**
 * The record buffer of importCsvData's data callback: records are appended
 * one at a time, a full buffer is inserted as one batch and then emptied, and
 * whatever is left at the end is inserted as a last, shorter batch.
 */
module Accumulator {
  import opened JsValues
  import opened Rows
  import opened Store
  import opened Db

  // ---------------------------------------------------------------------------
  // Batches as sequences

  /** The batches laid end to end. */
  function Concat<T>(xss: seq<seq<T>>): seq<T>
    decreases |xss|
  {
    if |xss| == 0 then [] else xss[0] + Concat(xss[1..])
  }

  lemma {:induction false} ConcatSnoc<T>(xss: seq<seq<T>>, x: seq<T>)
    ensures Concat(xss + [x]) == Concat(xss) + x
    decreases |xss|
  {
    if |xss| == 0 {
      assert xss + [x] == [x];
      assert Concat([x]) == x + Concat([x][1..]);
    } else {
      assert (xss + [x])[1..] == xss[1..] + [x];
      ConcatSnoc(xss[1..], x);
    }
  }

  /** `xs` cut into consecutive batches of `size` records, the last one possibly shorter. */
  function Chunks<T>(xs: seq<T>, size: nat): seq<seq<T>>
    requires size > 0
    decreases |xs|
  {
    if |xs| == 0 then [] else if |xs| <= size then [xs] else [xs[..size]] + Chunks(xs[size..], size)
  }

  /** Laying the batches end to end gives back the records, in order. */
  lemma {:induction false} ConcatChunks<T>(xs: seq<T>, size: nat)
    requires size > 0
    ensures Concat(Chunks(xs, size)) == xs
    decreases |xs|
  {
    if |xs| > size {
      ConcatChunks(xs[size..], size);
      assert xs[..size] + xs[size..] == xs;
    } else if |xs| > 0 {
      assert Concat([xs]) == xs + Concat([xs][1..]);
    }
  }

  /** Every batch but the last is full, and the last holds between 1 and `size` records. */
  lemma {:induction false} ChunkSizes<T>(xs: seq<T>, size: nat)
    requires size > 0
    ensures forall i :: 0 <= i < |Chunks(xs, size)| - 1 ==> |Chunks(xs, size)[i]| == size
    ensures |Chunks(xs, size)| > 0 ==> 0 < |Chunks(xs, size)[|Chunks(xs, size)| - 1]| <= size
    decreases |xs|
  {
    if |xs| > size {
      ChunkSizes(xs[size..], size);
      var rest := Chunks(xs[size..], size);
      assert Chunks(xs, size) == [xs[..size]] + rest;
      assert |rest| > 0;
    }
  }

  lemma MulAtLeast(d: int, b: int)
    requires d >= 1 && b > 0
    ensures d * b >= b
  {
    assert (d - 1) * b >= 0;
    assert d * b == (d - 1) * b + b;
  }

  /** Division has one answer: a quotient and in-range remainder that rebuild `a` are the quotient. */
  lemma DivUnique(a: int, b: int, q: int, r: int)
    requires b > 0 && a == q * b + r && 0 <= r < b
    ensures a / b == q
  {
    var q', r' := a / b, a % b;
    assert a == q' * b + r';
    if q' > q {
      assert q' * b - q * b == (q' - q) * b;
      MulAtLeast(q' - q, b);
    } else if q' < q {
      assert q * b - q' * b == (q - q') * b;
      MulAtLeast(q - q', b);
    }
  }

  /** ceil(n / size): how many batches of at most size items hold n items. */
  function CeilDiv(n: nat, size: nat): nat
    requires size > 0
  {
    (n + size - 1) / size
  }

  /** There are ceil(n / size) batches. */
  lemma {:induction false} ChunkCount<T>(xs: seq<T>, size: nat)
    requires size > 0
    ensures |Chunks(xs, size)| == CeilDiv(|xs|, size)
    decreases |xs|
  {
    if |xs| == 0 {
      DivUnique(size - 1, size, 0, size - 1);
    } else if |xs| <= size {
      DivUnique(|xs| + size - 1, size, 1, |xs| - 1);
    } else {
      var m := |xs| - size;
      ChunkCount(xs[size..], size);
      var q := (m + size - 1) / size;
      var r := (m + size - 1) % size;
      assert m + size - 1 == q * size + r;
      DivUnique(|xs| + size - 1, size, q + 1, r);
    }
  }

  /**
   * Full batches followed by a shorter remainder are exactly the batches of
   * their concatenation.
   */
  lemma {:induction false} ChunksOfFull<T>(fs: seq<seq<T>>, tail: seq<T>, size: nat)
    requires size > 0 && |tail| < size
    requires forall i :: 0 <= i < |fs| ==> |fs[i]| == size
    ensures Chunks(Concat(fs) + tail, size) == fs + (if |tail| == 0 then [] else [tail])
    decreases |fs|
  {
    if |fs| == 0 {
      assert Concat(fs) + tail == tail;
    } else {
      var rest := Concat(fs[1..]) + tail;
      var xs := Concat(fs) + tail;
      assert xs == fs[0] + rest;
      ChunksOfFull(fs[1..], tail, size);
      if |rest| == 0 {
        assert tail == [] && fs[1..] == [];
        assert xs == fs[0];
        assert fs == [fs[0]];
      } else {
        assert xs[..size] == fs[0];
        assert xs[size..] == rest;
        assert fs == [fs[0]] + fs[1..];
      }
    }
  }

  /** Five records in batches of two: two full batches and a last one of one record. */
  lemma FiveInTwos<T>(a: T, b: T, c: T, d: T, e: T)
    ensures Chunks([a, b, c, d, e], 2) == [[a, b], [c, d], [e]]
  {
    var xs := [a, b, c, d, e];
    var ys, zs := [c, d, e], [e];
    assert xs[..2] == [a, b] && xs[2..] == ys;
    assert ys[..2] == [c, d] && ys[2..] == zs;
    assert Chunks(zs, 2) == [zs];
    assert Chunks(ys, 2) == [[c, d]] + Chunks(zs, 2);
    assert Chunks(xs, 2) == [[a, b]] + Chunks(ys, 2);
  }

  // Associativity of concatenation, stated once: as an assertion inside
  // FlushAdvances or LoggedStep it costs the solver an extensionality proof there.
  lemma AppendAssoc<T>(a: seq<T>, b: seq<T>, c: seq<T>)
    ensures a + b + c == a + (b + c)
  {
  }

  /** The front part of a prefix is itself a prefix. */
  lemma FrontOfPrefix<T>(a: seq<T>, b: seq<T>, xs: seq<T>, n: nat)
    requires n <= |xs| && a + b == xs[..n]
    ensures a == xs[..|a|]
  {
    assert a == (a + b)[..|a|];
  }

  /** Inserting one more batch extends the table by that batch's rows, after those of the earlier batches. */
  lemma FlushExtendsTable(flushed: seq<seq<Record>>, b: seq<Record>, numerals: Numerals)
    requires TransformAll(Concat(flushed), numerals).Success? && TransformAll(b, numerals).Success?
    ensures TransformAll(Concat(flushed + [b]), numerals)
         == Success(TransformAll(Concat(flushed), numerals).value + TransformAll(b, numerals).value)
  {
    ConcatSnoc(flushed, b);
    TransformAllAppend(Concat(flushed), b, numerals);
  }

  /** The bookkeeping of a successful flush: the batch moves from the buffer to the flushed batches. */
  lemma FlushAdvances(base: seq<Row>, flushed: seq<seq<Record>>, b: seq<Record>, numerals: Numerals, table: seq<Row>)
    requires TransformAll(Concat(flushed), numerals).Success? && TransformAll(b, numerals).Success?
    requires table == base + TransformAll(Concat(flushed), numerals).value + TransformAll(b, numerals).value
    ensures TransformAll(Concat(flushed + [b]), numerals).Success?
    ensures table == base + TransformAll(Concat(flushed + [b]), numerals).value
    ensures Concat(flushed + [b]) == Concat(flushed) + b
  {
    FlushExtendsTable(flushed, b, numerals);
    AppendAssoc(base, TransformAll(Concat(flushed), numerals).value, TransformAll(b, numerals).value);
    ConcatSnoc(flushed, b);
  }

  /**
   * Full batches followed by a shorter remainder: sending the remainder, when
   * there is one, leaves exactly the batches of everything, ceil(n / size) of them.
   */
  lemma FinalBatches<T>(fs: seq<seq<T>>, tail: seq<T>, size: nat, all: seq<T>)
    requires size > 0 && |tail| < size && all == Concat(fs) + tail
    requires forall i :: 0 <= i < |fs| ==> |fs[i]| == size
    ensures var out := fs + (if |tail| == 0 then [] else [tail]);
      Concat(out) == all && Chunks(all, size) == out && |out| == CeilDiv(|all|, size)
  {
    ChunksOfFull(fs, tail, size);
    if |tail| == 0 {
      assert fs + [] == fs;
      assert Concat(fs) + [] == Concat(fs);
    } else {
      ConcatSnoc(fs, tail);
    }
    ChunkCount(all, size);
  }

  // ---------------------------------------------------------------------------
  // The commands of the inserted batches

  /** The commands of the successful inserts of some batches, one call after the other. */
  function CommittedAll(batches: seq<seq<Record>>, numerals: Numerals): seq<Command>
    decreases |batches|
  {
    if |batches| == 0 then []
    else CommittedAll(batches[..|batches| - 1], numerals) + Committed(batches[|batches| - 1], numerals)
  }

  lemma {:induction false} CommittedAllLength(batches: seq<seq<Record>>, numerals: Numerals)
    requires forall b :: 0 <= b < |batches| ==> AllNamed(batches[b])
    ensures |CommittedAll(batches, numerals)| == 5 * |batches|
    decreases |batches|
  {
    if |batches| > 0 {
      var init := batches[..|batches| - 1];
      assert forall b :: 0 <= b < |init| ==> init[b] == batches[b];
      CommittedAllLength(init, numerals);
    }
  }

  /** A named batch's call sends five commands, the third being the INSERT of its rows. */
  lemma CommittedOne(b: seq<Record>, numerals: Numerals)
    requires AllNamed(b)
    ensures |Committed(b, numerals)| == 5
    ensures Committed(b, numerals)[2] == InsertOf(TransformAll(b, numerals).value)
  {
  }

  /** The commands of the first m batches begin the commands of all of them. */
  lemma {:induction false} CommittedAllPrefix(batches: seq<seq<Record>>, numerals: Numerals, m: nat)
    requires m <= |batches|
    ensures CommittedAll(batches[..m], numerals) <= CommittedAll(batches, numerals)
    decreases |batches|
  {
    if m < |batches| {
      var init := batches[..|batches| - 1];
      assert init[..m] == batches[..m];
      CommittedAllPrefix(init, numerals, m);
    } else {
      assert batches[..m] == batches;
    }
  }

  /**
   * The commands of batch i are commands 5i to 5i+4: its own transaction,
   * right after those of the batches before it, whose INSERT carries
   * exactly that batch's rows.
   */
  lemma CommittedAllAt(batches: seq<seq<Record>>, numerals: Numerals, i: nat)
    requires forall b :: 0 <= b < |batches| ==> AllNamed(batches[b])
    requires i < |batches|
    ensures |CommittedAll(batches, numerals)| == 5 * |batches|
    ensures |CommittedAll(batches[..i], numerals)| == 5 * i
    ensures CommittedAll(batches[..i], numerals) + Committed(batches[i], numerals) <= CommittedAll(batches, numerals)
    ensures CommittedAll(batches, numerals)[5 * i + 2] == InsertOf(TransformAll(batches[i], numerals).value)
  {
    CommittedAllLength(batches, numerals);
    CommittedAllLength(batches[..i], numerals);
    CommittedOne(batches[i], numerals);
    var upTo := batches[..i + 1];
    assert upTo[..i] == batches[..i];
    CommittedAllPrefix(batches, numerals, i + 1);
    assert CommittedAll(upTo, numerals) == CommittedAll(batches[..i], numerals) + Committed(batches[i], numerals);
  }

  /** The log after one more inserted batch, regrouped. */
  lemma LoggedStep(logBase: seq<Command>, flushed: seq<seq<Record>>, b: seq<Record>, numerals: Numerals, log: seq<Command>)
    requires log == logBase + CommittedAll(flushed, numerals) + Committed(b, numerals)
    ensures log == logBase + CommittedAll(flushed + [b], numerals)
  {
    CommittedSnoc(flushed, b, numerals);
    AppendAssoc(logBase, CommittedAll(flushed, numerals), Committed(b, numerals));
  }

  /** One more inserted batch appends its five commands. */
  lemma CommittedSnoc(batches: seq<seq<Record>>, b: seq<Record>, numerals: Numerals)
    ensures CommittedAll(batches + [b], numerals) == CommittedAll(batches, numerals) + Committed(b, numerals)
  {
    assert (batches + [b])[..|batches|] == batches;
  }

  // ---------------------------------------------------------------------------
  // The buffer

  /** The closure state of the data callback: the current buffer and the database it flushes to. */
  class BatchAccumulator {
    var batch: seq<Record>
    const batchSize: nat
    const db: Database
    const numerals: Numerals
    /** Every record handed to the callback so far. */
    ghost var delivered: seq<Record>
    /** The batches inserted so far, one per successful insertUsersBatch call. */
    ghost var flushed: seq<seq<Record>>
    /** The table when the buffer was created. */
    ghost const base: seq<Row>
    /** The commands sent, and the replies used, before the buffer was created. */
    ghost const logBase: seq<Command>
    ghost const servedBase: nat

    /**
     * What holds on every path: the records delivered are the flushed batches
     * followed by the buffer, and the table holds the rows of exactly the
     * flushed records, after those it had when the buffer was created.
     */
    ghost predicate Recorded()
      reads this, db
    {
      db.Idle()
      && delivered == Concat(flushed) + batch
      && TransformAll(Concat(flushed), numerals).Success?
      && db.state.table == base + TransformAll(Concat(flushed), numerals).value
    }

    /**
     * The database has seen one successful insertUsersBatch call per flushed
     * batch, in order, and nothing else, since the buffer was created.
     */
    ghost predicate Logged()
      reads this, db
    {
      db.log == logBase + CommittedAll(flushed, numerals) && db.served == servedBase + 4 * |flushed|
    }

    /** The insertUsersBatch call the buffer makes when it is flushed next. */
    ghost function Pending(): Exchange
      reads this, db
    {
      BatchExchange(batch, numerals, db.replies, servedBase + 4 * |flushed|)
    }

    /**
     * The last flush failed with r: after the successful calls, the database
     * has seen the buffer's own call, which settled with r.
     */
    ghost predicate FailedWith(r: Outcome)
      reads this, db
    {
      |batch| > 0 && r.Fail? && r == Pending().outcome
      && db.log == logBase + CommittedAll(flushed, numerals) + Pending().commands
      && db.served == servedBase + 4 * |flushed| + Pending().used
    }

    /** Every flushed batch is full. */
    ghost predicate Full()
      reads this
    {
      0 < batchSize && forall i :: 0 <= i < |flushed| ==> |flushed[i]| == batchSize
    }

    /** Between callbacks: besides the above, the buffer is not full and every flushed batch is. */
    ghost predicate Valid()
      reads this, db
    {
      |batch| < batchSize && Recorded() && Logged() && Full()
    }

    /** After the final flush: everything delivered went out, in full batches and one last shorter one. */
    ghost predicate Drained()
      reads this, db
    {
      0 < batchSize && batch == [] && db.Idle() && Logged()
      && delivered == Concat(flushed)
      && flushed == Chunks(delivered, batchSize)
      && TransformAll(delivered, numerals).Success?
      && db.state.table == base + TransformAll(delivered, numerals).value
    }

    constructor(db: Database, numerals: Numerals, batchSize: nat)
      requires batchSize > 0 && db.Idle()
      ensures this.db == db && this.numerals == numerals && this.batchSize == batchSize
      ensures batch == [] && delivered == [] && flushed == [] && base == db.state.table
      ensures logBase == db.log && servedBase == db.served
      ensures Valid()
    {
      this.db := db;
      this.numerals := numerals;
      this.batchSize := batchSize;
      batch := [];
      delivered := [];
      flushed := [];
      base := db.state.table;
      logBase := db.log;
      servedBase := db.served;
      new;
      assert Concat<Record>([]) == [];
    }

    /** Once the batches sent are the batches of everything delivered, the buffer is drained. */
    lemma DrainedWhenSent()
      requires Recorded() && Logged() && 0 < batchSize && batch == [] && flushed == Chunks(Concat(flushed), batchSize)
      ensures Drained()
    {
      assert Concat(flushed) + [] == Concat(flushed);
    }

    /** After the buffer's own call settled with a failure, the buffer records it. */
    lemma FailedAfter(r: Outcome, k: nat)
      requires |batch| > 0 && k == servedBase + 4 * |flushed|
      requires var e := BatchExchange(batch, numerals, db.replies, k);
        r == e.outcome && r.Fail?
        && db.log == logBase + CommittedAll(flushed, numerals) + e.commands && db.served == k + e.used
      ensures FailedWith(r)
    {
    }

    /** After the buffer's own call inserted b: the table holds the rows of every flushed batch. */
    lemma RecordedAfter(prev: seq<seq<Record>>, b: seq<Record>)
      requires batch == [] && flushed == prev + [b] && db.Idle()
      requires delivered == Concat(prev) + b
      requires TransformAll(Concat(prev), numerals).Success? && TransformAll(b, numerals).Success?
      requires db.state.table == base + TransformAll(Concat(prev), numerals).value + TransformAll(b, numerals).value
      ensures Recorded()
    {
      FlushAdvances(base, prev, b, numerals, db.state.table);
      assert Concat(flushed) + [] == Concat(flushed);
    }

    /** After the buffer's own call inserted b: the log holds the transaction of every flushed batch. */
    lemma LoggedAfter(prev: seq<seq<Record>>, b: seq<Record>)
      requires flushed == prev + [b]
      requires db.log == logBase + CommittedAll(prev, numerals) + Committed(b, numerals)
      requires db.served == servedBase + 4 * |prev| + 4
      ensures Logged()
    {
      LoggedStep(logBase, prev, b, numerals, db.log);
    }

    /**
     * Once the remainder tail left after the full batches before went out (or
     * was empty), the buffer is drained, after ceil(n / size) batches.
     */
    lemma DrainedAfter(before: seq<seq<Record>>, tail: seq<Record>)
      requires Recorded() && Logged() && batch == [] && 0 < batchSize && |tail| < batchSize
      requires forall i :: 0 <= i < |before| ==> |before[i]| == batchSize
      requires delivered == Concat(before) + tail
      requires flushed == before + (if |tail| == 0 then [] else [tail])
      ensures Drained()
      ensures |flushed| == CeilDiv(|delivered|, batchSize)
    {
      FinalBatches(before, tail, batchSize, delivered);
      DrainedWhenSent();
    }

    /**
     * A failed flush, spelled out in the caller's terms: the buffer's own
     * call is the last thing the database saw.
     */
    lemma FailedExchange(r: Outcome, d: Database, fs: seq<seq<Record>>, b: seq<Record>, ns: Numerals, k: nat, log0: seq<Command>)
      requires FailedWith(r)
      requires d == db && fs == flushed && b == batch && ns == numerals && k == servedBase + 4 * |flushed| && log0 == logBase
      ensures var e := BatchExchange(b, ns, d.replies, k);
        r == e.outcome && r.Fail?
        && d.log == log0 + CommittedAll(fs, ns) + e.commands && d.served == k + e.used
    {
    }

    /** `await insertUsersBatch(batch); batch = [];` — the reset is skipped when the insert fails. */
    method Flush() returns (r: Outcome)
      requires Recorded() && Logged() && |batch| > 0
      modifies this, db
      ensures Recorded() && delivered == old(delivered)
      ensures var e := BatchExchange(old(batch), numerals, db.replies, old(db.served));
        db.log == old(db.log) + e.commands && db.served == old(db.served) + e.used && r == e.outcome
      ensures r.Pass? ==> batch == [] && flushed == old(flushed) + [old(batch)] && Logged()
      ensures r.Fail? ==>
        batch == old(batch) && flushed == old(flushed) && db.state.table == old(db.state.table) && FailedWith(r)
      ensures old(db.Accepting()) ==> db.Accepting()
      ensures old(db.log) <= db.log
      ensures old(db.Accepting()) && AllNamed(old(batch)) ==> r == Pass
      ensures !AllNamed(old(batch)) ==> r == Fail(MissingNameError) && db.log == old(db.log) && db.served == old(db.served)
    {
      BatchExchangeSucceeds(batch, numerals, db.replies, db.served);
      r := InsertUsersBatch(db, batch, numerals);
      if r.Fail? {
        FailedAfter(r, old(db.served));
        return;
      }
      flushed := flushed + [batch];
      batch := [];
      RecordedAfter(old(flushed), old(batch));
      LoggedAfter(old(flushed), old(batch));
    }

    /**
     * onDataCallback: append the record; once the buffer is full, insert it and
     * then empty it. A failed insert leaves the full buffer in place and
     * propagates the error.
     */
    method OnData(rec: Record) returns (r: Outcome)
      requires Valid()
      modifies this, db
      ensures delivered == old(delivered) + [rec] && Recorded()
      ensures |old(batch)| + 1 < batchSize ==>
        r == Pass && batch == old(batch) + [rec] && flushed == old(flushed)
        && db.log == old(db.log) && db.served == old(db.served)
      ensures |old(batch)| + 1 == batchSize ==>
        var e := BatchExchange(old(batch) + [rec], numerals, db.replies, old(db.served));
        db.log == old(db.log) + e.commands && db.served == old(db.served) + e.used && r == e.outcome
      ensures |old(batch)| + 1 == batchSize && r.Pass? ==>
        batch == [] && flushed == old(flushed) + [old(batch) + [rec]]
      ensures r.Pass? ==> Valid()
      ensures r.Fail? ==>
        batch == old(batch) + [rec] && |batch| == batchSize && flushed == old(flushed)
        && db.state.table == old(db.state.table) && FailedWith(r) && Full()
      ensures old(db.Accepting()) ==> db.Accepting()
      ensures old(db.log) <= db.log
      ensures old(db.Accepting()) && AllNamed(delivered) ==> r == Pass
    {
      AllNamedAppend(Concat(flushed), batch + [rec]);
      batch := batch + [rec];
      delivered := delivered + [rec];
      if |batch| >= batchSize {
        ghost var full := batch;
        r := Flush();
        if r.Pass? {
          assert flushed == old(flushed) + [full] && |full| == batchSize;
          assert Full();
        }
      } else {
        r := Pass;
        assert Full();
      }
    }

    /** The final flush after the stream ends: insert what is left, if anything. */
    method FinalFlush() returns (r: Outcome)
      requires Valid()
      modifies this, db
      ensures delivered == old(delivered) && Recorded()
      ensures |old(batch)| == 0 ==> r == Pass && db.log == old(db.log) && db.served == old(db.served)
      ensures |old(batch)| > 0 ==>
        var e := BatchExchange(old(batch), numerals, db.replies, old(db.served));
        db.log == old(db.log) + e.commands && db.served == old(db.served) + e.used && r == e.outcome
      ensures r.Pass? ==> Drained()
      ensures r.Pass? && |old(batch)| > 0 ==> flushed == old(flushed) + [old(batch)] && |old(batch)| < batchSize
      ensures r.Pass? ==> |flushed| == CeilDiv(|delivered|, batchSize)
      ensures r.Fail? ==>
        db.state.table == old(db.state.table) && flushed == old(flushed) && batch == old(batch) && FailedWith(r) && Full()
      ensures old(db.Accepting()) ==> db.Accepting()
      ensures old(db.log) <= db.log
      ensures old(db.Accepting()) && AllNamed(delivered) ==> r == Pass
    {
      ghost var before, tail := flushed, batch;
      AllNamedAppend(Concat(flushed), batch);
      if |batch| == 0 {
        DrainedAfter(before, tail);
        return Pass;
      }
      r := Flush();
      if r.Pass? {
        DrainedAfter(before, tail);
      }
    }
  }
}
