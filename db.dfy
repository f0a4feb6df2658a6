/**
 * insertUsersBatch: the multi-row INSERT's text and parameters, and the
 * BEGIN / INSERT / COMMIT-or-ROLLBACK conversation that carries it.
 */
module Db {
  import opened JsValues
  import opened Rows
  import opened Store

  // ---------------------------------------------------------------------------
  // Placeholder text

  function Digit(d: nat): char
    requires d < 10
  {
    ('0' as int + d) as char
  }

  function DigitValue(c: char): nat {
    if '0' <= c <= '9' then c as int - '0' as int else 0
  }

  /** The decimal numeral a template literal prints for a non-negative integer. */
  function Decimal(n: nat): (s: string)
    ensures |s| >= 1 && forall i :: 0 <= i < |s| ==> '0' <= s[i] <= '9'
    decreases n
  {
    if n < 10 then [Digit(n)] else Decimal(n / 10) + [Digit(n % 10)]
  }

  /** The value of a string of decimal digits. */
  function NatOf(s: string): nat
    decreases |s|
  {
    if |s| == 0 then 0 else 10 * NatOf(s[..|s| - 1]) + DigitValue(s[|s| - 1])
  }

  /** Reading a numeral back gives the number: distinct parameter numbers print as distinct placeholders. */
  lemma {:induction false} NatOfDecimal(n: nat)
    ensures NatOf(Decimal(n)) == n
    decreases n
  {
    var s := Decimal(n);
    if n >= 10 {
      NatOfDecimal(n / 10);
      assert s[..|s| - 1] == Decimal(n / 10);
    }
  }

  /** The positional placeholder `$p`. */
  function Dollar(p: nat): string {
    "$" + Decimal(p)
  }

  /** The parameter number a placeholder names. */
  function ParamNumber(placeholder: string): nat {
    if |placeholder| == 0 then 0 else NatOf(placeholder[1..])
  }

  lemma ParamNumberOfDollar(p: nat)
    ensures ParamNumber(Dollar(p)) == p
  {
    assert Dollar(p)[1..] == Decimal(p);
    NatOfDecimal(p);
  }

  /** One row's placeholder group `($p, $p+1, $p+2, $p+3)`. */
  function Group(p: nat): string {
    "(" + Dollar(p) + ", " + Dollar(p + 1) + ", " + Dollar(p + 2) + ", " + Dollar(p + 3) + ")"
  }

  /** The placeholder groups of n rows: group k starts at parameter 4k+1. */
  function Placeholders(n: nat): (gs: seq<string>)
    ensures |gs| == n
    decreases n
  {
    if n == 0 then [] else Placeholders(n - 1) + [Group(4 * (n - 1) + 1)]
  }

  /** Group k of the placeholders starts at parameter 4k+1. */
  lemma {:induction false} PlaceholdersAt(n: nat, k: nat)
    requires k < n
    ensures Placeholders(n)[k] == Group(4 * k + 1)
    decreases n
  {
    if k < n - 1 {
      PlaceholdersAt(n - 1, k);
    }
  }

  const InsertHead := "\n    INSERT INTO public.users (\"name\", age, address, additional_info)\n    VALUES "
  const InsertTail := "\n  "

  /** The text of the INSERT for n rows. */
  function InsertText(n: nat): string {
    InsertHead + Join(Placeholders(n), ", ") + InsertTail
  }

  /**
   * Placeholder j of group k names parameter 4k+j+1, and that parameter is
   * field j (name, age, address, additional_info) of row k.
   */
  lemma PlaceholderBindsField(rows: seq<Row>, k: nat, j: nat)
    requires k < |rows| && j < 4
    ensures ParamNumber(Dollar(4 * k + 1 + j)) == 4 * k + j + 1
    ensures FlatParams(rows)[ParamNumber(Dollar(4 * k + 1 + j)) - 1] == RowParams(rows[k])[j]
  {
    ParamNumberOfDollar(4 * k + 1 + j);
    FlatParamsAt(rows, k, j);
  }

  /** The placeholder and value loop: one group and four parameters per row, with a running parameter number. */
  method BuildInsertQuery(rows: seq<Row>) returns (queryText: string, flattenedValues: seq<Param>)
    ensures queryText == InsertText(|rows|)
    ensures flattenedValues == FlatParams(rows)
  {
    var placeholders: seq<string> := [];
    flattenedValues := [];
    var paramIndex: nat := 1;
    for i := 0 to |rows|
      invariant paramIndex == 4 * i + 1
      invariant placeholders == Placeholders(i)
      invariant flattenedValues == FlatParams(rows[..i])
    {
      var user := rows[i];
      var a := paramIndex;
      paramIndex := paramIndex + 1;
      var b := paramIndex;
      paramIndex := paramIndex + 1;
      var c := paramIndex;
      paramIndex := paramIndex + 1;
      var d := paramIndex;
      paramIndex := paramIndex + 1;
      placeholders := placeholders + ["(" + Dollar(a) + ", " + Dollar(b) + ", " + Dollar(c) + ", " + Dollar(d) + ")"];
      flattenedValues := flattenedValues + [Val(Str(user.name)), OptionParam(user.age), OptionParam(user.address),
                                            Val(Obj(user.additionalInfo))];
      assert rows[..i + 1][..i] == rows[..i];
    }
    assert rows[..|rows|] == rows;
    queryText := InsertHead + Join(placeholders, ", ") + InsertTail;
  }

  // ---------------------------------------------------------------------------
  // The transaction

  /** The commands a call sends, how many fallible requests it made, and how it settles. */
  datatype Exchange = Exchange(commands: seq<Command>, used: nat, outcome: Outcome)

  /**
   * The try block's statements, each awaited in turn from request k on,
   * stopping at the first that fails: the commands sent, and the failure if
   * one occurred.
   */
  function TryStatements(stmts: seq<Command>, replies: seq<Outcome>, k: nat): (seq<Command>, Outcome)
    decreases |stmts|
  {
    if |stmts| == 0 then ([], Pass)
    else if Reply(replies, k).Fail? then ([stmts[0]], Reply(replies, k))
    else
      var rest := TryStatements(stmts[1..], replies, k + 1);
      ([stmts[0]] + rest.0, rest.1)
  }

  /** BEGIN, the insert and COMMIT, answered from request k on: the statements up to the first failure. */
  lemma TryThree(insert: Command, replies: seq<Outcome>, k: nat)
    ensures TryStatements([Begin, insert, Commit], replies, k)
      == if Reply(replies, k).Fail? then ([Begin], Reply(replies, k))
         else if Reply(replies, k + 1).Fail? then ([Begin, insert], Reply(replies, k + 1))
         else if Reply(replies, k + 2).Fail? then ([Begin, insert, Commit], Reply(replies, k + 2))
         else ([Begin, insert, Commit], Pass)
  {
    var stmts := [Begin, insert, Commit];
    assert stmts[1..] == [insert, Commit];
    assert [insert, Commit][1..] == [Commit];
    assert [Commit][1..] == [];
    assert TryStatements([], replies, k + 3) == ([], Pass);
    assert [Commit] + [] == [Commit];
    var last := TryStatements([Commit], replies, k + 2);
    assert last == if Reply(replies, k + 2).Fail? then ([Commit], Reply(replies, k + 2)) else ([Commit], Pass);
    var two := TryStatements([insert, Commit], replies, k + 1);
    assert two == if Reply(replies, k + 1).Fail? then ([insert], Reply(replies, k + 1)) else ([insert] + last.0, last.1);
    assert TryStatements(stmts, replies, k) == if Reply(replies, k).Fail? then ([Begin], Reply(replies, k)) else ([Begin] + two.0, two.1);
    assert [Begin] + [insert] == [Begin, insert];
    assert [Begin] + ([insert] + [Commit]) == stmts;
  }

  /**
   * The conversation of one non-empty batch, answered from request k on:
   * check out a client (a failure here propagates with nothing else sent),
   * then the statements of the try block until one fails; on failure ROLLBACK
   * and rethrow (the rollback's own error if it fails too); release the client
   * on every path once it was obtained.
   */
  function Transaction(insert: Command, replies: seq<Outcome>, k: nat): Exchange {
    var connect := Reply(replies, k);
    if connect.Fail? then Exchange([Connect], 1, connect)
    else
      var (sent, failure) := TryStatements([Begin, insert, Commit], replies, k + 1);
      if failure.Pass? then Exchange([Connect] + sent + [Release], |sent| + 1, Pass)
      else
        var rollback := Reply(replies, k + 1 + |sent|);
        Exchange([Connect] + sent + [Rollback, Release], |sent| + 2, if rollback.Fail? then rollback else failure)
  }

  /**
   * How a transaction settles: the client is checked out first and, once
   * obtained, released last; the batch commits exactly when all four requests
   * succeed.
   */
  lemma TransactionShape(insert: Command, replies: seq<Outcome>, k: nat)
    requires insert.Insert?
    ensures var e := Transaction(insert, replies, k);
      |e.commands| >= 1 && e.commands[0] == Connect
    ensures var e := Transaction(insert, replies, k);
      Reply(replies, k).Fail? ==> e.commands == [Connect] && e.used == 1 && e.outcome == Reply(replies, k)
    ensures var e := Transaction(insert, replies, k);
      Reply(replies, k).Pass? ==>
        e.commands[|e.commands| - 1] == Release && Release !in e.commands[..|e.commands| - 1]
        && e.used == |e.commands| - 1
    ensures var e := Transaction(insert, replies, k);
      Commit in e.commands ==>
        |e.commands| >= 4 && e.commands[..4] == [Connect, Begin, insert, Commit]
        && Reply(replies, k + 1).Pass? && Reply(replies, k + 2).Pass?
    ensures var e := Transaction(insert, replies, k);
      e.outcome.Pass? <==>
        Reply(replies, k).Pass? && Reply(replies, k + 1).Pass? && Reply(replies, k + 2).Pass? && Reply(replies, k + 3).Pass?
    ensures var e := Transaction(insert, replies, k);
      e.outcome.Pass? ==> e.commands == [Connect, Begin, insert, Commit, Release] && e.used == 4
  {
    TryThree(insert, replies, k + 1);
  }

  /**
   * How a transaction fails once the client was obtained: the statement that
   * failed, the i-th request after the checkout, is followed by ROLLBACK, every
   * request before it succeeded, and the rollback's own error, if any,
   * replaces the statement's. ROLLBACK is sent on no other path.
   */
  lemma TransactionRollback(insert: Command, replies: seq<Outcome>, k: nat)
    requires insert.Insert?
    ensures var e := Transaction(insert, replies, k);
      Rollback in e.commands <==> Reply(replies, k).Pass? && e.outcome.Fail?
    ensures var e := Transaction(insert, replies, k);
      Reply(replies, k).Pass? && e.outcome.Fail? ==>
        var i := |e.commands| - 3;
        1 <= i <= 3 && e.commands[i + 1] == Rollback
        && (forall j :: k <= j < k + i ==> Reply(replies, j).Pass?) && Reply(replies, k + i).Fail?
        && e.outcome == (if Reply(replies, k + i + 1).Fail? then Reply(replies, k + i + 1) else Reply(replies, k + i))
  {
    TryThree(insert, replies, k + 1);
    var e := Transaction(insert, replies, k);
    if Reply(replies, k).Fail? {
    } else if Reply(replies, k + 1).Fail? {
      assert e.commands == [Connect, Begin, Rollback, Release];
    } else if Reply(replies, k + 2).Fail? {
      assert e.commands == [Connect, Begin, insert, Rollback, Release];
    } else if Reply(replies, k + 3).Fail? {
      assert e.commands == [Connect, Begin, insert, Commit, Rollback, Release];
    }
  }

  /** The multi-row INSERT of some rows: its text and its parameters. */
  function InsertOf(rows: seq<Row>): Command {
    Insert(InsertText(|rows|), FlatParams(rows))
  }

  /**
   * What one insertUsersBatch call does, answered from request k on: nothing
   * for an empty batch, the projection's error before any request when a
   * record has no name, else the transaction of the batch's rows.
   */
  function BatchExchange(jsonBatch: seq<Record>, numerals: Numerals, replies: seq<Outcome>, k: nat): Exchange {
    if |jsonBatch| == 0 then Exchange([], 0, Pass)
    else match TransformAll(jsonBatch, numerals)
      case Failure(e) => Exchange([], 0, Fail(e))
      case Success(rows) => Transaction(InsertOf(rows), replies, k)
  }

  /** The commands of a call that inserted the batch. */
  function Committed(jsonBatch: seq<Record>, numerals: Numerals): seq<Command> {
    match TransformAll(jsonBatch, numerals)
    case Failure(_) => []
    case Success(rows) => [Connect, Begin, InsertOf(rows), Commit, Release]
  }

  /**
   * A non-empty batch is inserted exactly when every record has a name and
   * the four requests of its transaction succeed; it then sends the five
   * commands of `Committed` and uses four replies. A nameless record fails
   * with the projection's error and sends nothing.
   */
  lemma BatchExchangeSucceeds(jsonBatch: seq<Record>, numerals: Numerals, replies: seq<Outcome>, k: nat)
    requires |jsonBatch| > 0
    ensures var e := BatchExchange(jsonBatch, numerals, replies, k);
      (e.outcome.Pass? <==> AllNamed(jsonBatch) && forall j :: k <= j < k + 4 ==> Reply(replies, j).Pass?)
      && (e.outcome.Pass? ==> e.commands == Committed(jsonBatch, numerals) && e.used == 4)
      && (!AllNamed(jsonBatch) ==> e == Exchange([], 0, Fail(MissingNameError)))
  {
    var e := BatchExchange(jsonBatch, numerals, replies, k);
    if AllNamed(jsonBatch) {
      var rows := TransformAll(jsonBatch, numerals).value;
      assert e == Transaction(InsertOf(rows), replies, k);
      TryThree(InsertOf(rows), replies, k + 1);
      if forall j :: k <= j < k + 4 ==> Reply(replies, j).Pass? {
        assert Reply(replies, k).Pass? && Reply(replies, k + 1).Pass?;
        assert Reply(replies, k + 2).Pass? && Reply(replies, k + 3).Pass?;
      }
    }
  }

  /**
   * The try block: BEGIN, the insert, COMMIT, each awaited, stopping at the
   * first that fails. The table gains the rows exactly when all three succeed.
   */
  method RunStatements(db: Database, queryText: string, flattenedValues: seq<Param>, ghost rows: seq<Row>)
    returns (o: Outcome)
    requires db.Idle() && flattenedValues == FlatParams(rows)
    modifies db
    ensures var (sent, failure) := TryStatements([Begin, Insert(queryText, flattenedValues), Commit], db.replies, old(db.served));
      db.log == old(db.log) + sent && db.served == old(db.served) + |sent| && o == failure
    ensures o.Pass? ==> db.state == StoreState(old(db.state.table) + rows, [], false)
    ensures o.Fail? ==> db.state.table == old(db.state.table)
  {
    ghost var insert := Insert(queryText, flattenedValues);
    ghost var s0 := db.state;
    TryThree(insert, db.replies, db.served);
    o := db.Request(Begin);
    if o.Fail? {
      return;
    }
    ghost var s1 := db.state;
    assert s1 == StoreState(s0.table, [], true);
    InsertRowsInTransaction(s1, queryText, rows);
    o := db.Request(Insert(queryText, flattenedValues));
    if o.Fail? {
      return;
    }
    assert db.state == StoreState(s0.table, [] + rows, true);
    o := db.Request(Commit);
  }

  /**
   * Checks out a client and runs the try / catch / finally around the
   * statements: ROLLBACK and rethrow on failure, release on every path once
   * the client was obtained.
   */
  method SendInTransaction(db: Database, queryText: string, flattenedValues: seq<Param>, ghost rows: seq<Row>)
    returns (r: Outcome)
    requires db.Idle() && flattenedValues == FlatParams(rows)
    modifies db
    ensures db.Idle()
    ensures var e := Transaction(Insert(queryText, flattenedValues), db.replies, old(db.served));
      db.log == old(db.log) + e.commands && db.served == old(db.served) + e.used && r == e.outcome
    ensures r.Pass? ==> db.state.table == old(db.state.table) + rows
    ensures r.Fail? ==> db.state.table == old(db.state.table)
  {
    ghost var insert := Insert(queryText, flattenedValues);
    ghost var k, log0 := db.served, db.log;
    var client := db.Request(Connect);
    if client.Fail? {
      return client;
    }
    var o := RunStatements(db, queryText, flattenedValues, rows);
    ghost var sent := TryStatements([Begin, insert, Commit], db.replies, k + 1).0;
    if o.Fail? {
      var rolledBack := db.Request(Rollback);
      r := if rolledBack.Fail? then rolledBack else o;
      db.ReleaseClient();
      assert db.log == log0 + ([Connect] + sent + [Rollback, Release]);
    } else {
      r := Pass;
      db.ReleaseClient();
      assert db.log == log0 + ([Connect] + sent + [Release]);
    }
  }

  /**
   * insertUsersBatch: nothing happens for an empty batch; a record without a
   * name fails the projection before a client is checked out; otherwise the
   * conversation is the one Transaction describes, and the table gains the
   * batch's rows exactly when it succeeds.
   */
  method InsertUsersBatch(db: Database, jsonBatch: seq<Record>, numerals: Numerals) returns (r: Outcome)
    requires db.Idle()
    modifies db
    ensures db.Idle()
    ensures |jsonBatch| == 0 ==> r == Pass && db.log == old(db.log) && db.served == old(db.served)
    ensures var e := BatchExchange(jsonBatch, numerals, db.replies, old(db.served));
      db.log == old(db.log) + e.commands && db.served == old(db.served) + e.used && r == e.outcome
    ensures r.Pass? ==> db.state.table == old(db.state.table) + TransformAll(jsonBatch, numerals).value
    ensures r.Fail? ==> db.state.table == old(db.state.table)
    ensures old(db.Accepting()) ==> db.Accepting()
    ensures old(db.Accepting()) && AllNamed(jsonBatch) ==> r == Pass
    ensures old(db.log) <= db.log
  {
    if |jsonBatch| == 0 {
      return Pass;
    }
    var transformed := TransformAll(jsonBatch, numerals);
    if transformed.Failure? {
      return Fail(transformed.error);
    }
    var queryText, flattenedValues := BuildInsertQuery(transformed.value);
    TryThree(Insert(queryText, flattenedValues), db.replies, db.served + 1);
    r := SendInTransaction(db, queryText, flattenedValues, transformed.value);
  }
}
