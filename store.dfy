/**
 * The database the importer talks to, seen from outside: the commands it is
 * sent, the outcome the server gives each fallible one (an oracle fixed in
 * advance), and the users table those outcomes imply.
 */
module Store {
  import opened JsValues
  import opened Rows

  /** What the client sends: pool queries, the connection checkout and release, and transaction statements. */
  datatype Command =
    | Truncate
    | Connect
    | Begin
    | Insert(text: string, params: seq<Param>)
    | Commit
    | Rollback
    | Release

  /** The users table, the rows inserted by the open transaction, and whether one is open. */
  datatype StoreState = StoreState(table: seq<Row>, pending: seq<Row>, inTransaction: bool)

  /** The outcome of the k-th fallible request: the oracle's answer, or success once it has no more to say. */
  function Reply(replies: seq<Outcome>, k: nat): Outcome {
    if k < |replies| then replies[k] else Pass
  }

  /** How a command with a given outcome changes the server's state. */
  function Effect(s: StoreState, c: Command, o: Outcome): (t: StoreState)
    ensures c.Rollback? ==> t == StoreState(s.table, [], false)
    ensures o.Fail? && !c.Commit? && !c.Rollback? ==> t == s
    ensures c.Connect? || c.Release? ==> t == s
    ensures t.table != s.table ==> o.Pass? && (c.Truncate? || c.Commit? || (c.Insert? && !s.inTransaction))
  {
    match c
    case Rollback => StoreState(s.table, [], false)
    case Release => s
    case Connect => s
    case _ =>
      if o.Fail? then
        if c.Commit? then StoreState(s.table, [], false) else s
      else match c
        case Truncate => s.(table := [])
        case Begin => StoreState(s.table, [], true)
        case Insert(_, params) =>
          var rows := match DecodeRows(params) case Some(rs) => rs case None => [];
          if s.inTransaction then s.(pending := s.pending + rows) else s.(table := s.table + rows)
        case Commit =>
          if s.inTransaction then StoreState(s.table + s.pending, [], false) else s
  }

  /** The server and the conversation with it so far. */
  class Database {
    /** Every command sent, in order. */
    var log: seq<Command>
    /** The outcomes the server will give to fallible requests, in order. */
    const replies: seq<Outcome>
    /** How many fallible requests have been answered. */
    var served: nat
    var state: StoreState

    constructor(replies: seq<Outcome>, table: seq<Row>)
      ensures this.replies == replies && log == [] && served == 0
      ensures state == StoreState(table, [], false)
    {
      this.replies := replies;
      log := [];
      served := 0;
      state := StoreState(table, [], false);
    }

    /** No transaction open and nothing pending. */
    predicate Idle()
      reads this
    {
      !state.inTransaction && state.pending == []
    }

    /** The server accepts every request from the next one on. */
    ghost predicate Accepting()
      reads this
    {
      forall k: nat :: served <= k ==> Reply(replies, k).Pass?
    }

    /** The outcome the next fallible request will get. */
    function NextReply(): Outcome
      reads this
    {
      Reply(replies, served)
    }

    /** Sends a fallible command and waits for its outcome. */
    method Request(c: Command) returns (o: Outcome)
      requires !c.Release?
      modifies this
      ensures o == old(NextReply())
      ensures log == old(log) + [c] && served == old(served) + 1
      ensures state == Effect(old(state), c, o)
    {
      o := Reply(replies, served);
      log := log + [c];
      served := served + 1;
      state := Effect(state, c, o);
    }

    /** Hands the connection back to the pool; this never fails. */
    method ReleaseClient()
      modifies this
      ensures log == old(log) + [Release]
      ensures served == old(served) && state == old(state)
    {
      log := log + [Release];
    }
  }

  /** An insert of the rows `params` decodes to, inside an open transaction, adds them to the pending rows. */
  lemma InsertInTransaction(s: StoreState, text: string, params: seq<Param>, rows: seq<Row>)
    requires s.inTransaction && DecodeRows(params) == Some(rows)
    ensures Effect(s, Insert(text, params), Pass) == s.(pending := s.pending + rows)
  {
  }

  /** Inside an open transaction, an insert laid out by FlatParams adds exactly its rows to the pending ones. */
  lemma InsertRowsInTransaction(s: StoreState, text: string, rows: seq<Row>)
    requires s.inTransaction
    ensures Effect(s, Insert(text, FlatParams(rows)), Pass) == s.(pending := s.pending + rows)
  {
    DecodeFlatParams(rows);
    InsertInTransaction(s, text, FlatParams(rows), rows);
  }

  /** A transaction that begins, inserts and commits adds exactly the inserted rows to the table. */
  lemma CommittedInsertAppends(s: StoreState, text: string, rows: seq<Row>)
    ensures Effect(Effect(Effect(s, Begin, Pass), Insert(text, FlatParams(rows)), Pass), Commit, Pass)
         == StoreState(s.table + rows, [], false)
  {
    var t := Effect(s, Begin, Pass);
    assert t == StoreState(s.table, [], true);
    InsertRowsInTransaction(t, text, rows);
    assert [] + rows == rows;
  }
}
