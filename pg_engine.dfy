/**
 * The PostgreSQL engine (PostgresqlProtobufPersistence): statements built and bound per
 * operation, executed on a connection that is acquired lazily and kept as the current one,
 * and the small transaction state machine over that connection.
 */
module PgEngine {
  import opened Wrappers
  import opened Proto
  import opened Text
  import opened Naming
  import opened PgSql
  import opened PgMarshal

  const ROLLBACK := "ROLLBACK"
  const COMMIT := "COMMIT"

  /** The engine's view of a JDBC connection: its auto-commit flag and whether it was closed. */
  datatype Conn = Conn(autoCommit: bool, closed: bool)

  /** A connection as the data source hands it out: open, auto-commit on (the JDBC default). */
  const FRESH := Conn(true, false)

  /** A prepared statement as executed: its text and its parameters by position. */
  datatype Statement = Statement(sql: string, params: map<int, SqlValue>)

  /** What reaches the database, in order. */
  datatype Event = Executed(statement: Statement) | Committed | RolledBack

  /** The engine's state: `currentConnection`, and what it has sent to the database. */
  datatype Session = Session(current: Option<Conn>, log: seq<Event>)

  // ----- the state machine as functions -----

  /** `getNewOrExistingConnection`: the current connection, or a fresh one. */
  function Acquired(current: Option<Conn>): Conn
  {
    if current.None? then FRESH else current.value
  }

  /**
   * `closeIfNecessary`: closes the connection when auto-commit is off, and keeps it as the
   * current connection; asking a closed connection for its auto-commit flag throws.
   */
  function Released(s: Session): (Outcome<Error>, Session)
  {
    match s.current
    case None => (Pass, s)
    case Some(c) =>
      if c.closed then (Fail(ConnectionClosed), s)
      else if !c.autoCommit then (Pass, s.(current := Some(c.(closed := true))))
      else (Pass, s)
  }

  /**
   * One statement: acquire the connection, prepare on it (a closed one throws), bind (which
   * fails as `statement` does), execute, and, where the source releases in a `finally`, release.
   */
  function Run(s: Session, statement: Result<Statement, Error>, release: bool): (Outcome<Error>, Session)
  {
    var c := Acquired(s.current);
    var acquired := s.(current := Some(c));
    if c.closed then (Fail(ConnectionClosed), acquired)
    else
      var executed := if statement.Ok? then acquired.(log := acquired.log + [Executed(statement.value)]) else acquired;
      var after := if release then Released(executed).1 else executed;
      (if statement.Ok? then Pass else Fail(statement.error), after)
  }

  /** A query: the statement runs and is released as above, then the result rows are decoded. */
  function Query(s: Session, statement: Statement, desc: Descriptor, rows: seq<Row>,
                 decode: (Field, string) -> Option<Value>): (Result<seq<Message>, Error>, Session)
  {
    var (outcome, after) := Run(s, Ok(statement), true);
    (if outcome.Fail? then Err(outcome.error) else RowsToMessages(desc, rows, decode), after)
  }

  /** `startTransaction`: auto-commit goes off on the (possibly fresh) current connection. */
  function Begin(s: Session): (Outcome<Error>, Session)
  {
    var c := Acquired(s.current);
    if c.closed then (Fail(ConnectionClosed), s.(current := Some(c)))
    else (Pass, s.(current := Some(c.(autoCommit := false))))
  }

  /** `throwExceptionIfTransactionNotStarted`. */
  function TransactionCheck(current: Option<Conn>, operation: string): (r: Outcome<Error>)
    ensures r.Pass? <==> current == Some(Conn(false, false))
  {
    if current.None? then Fail(NoConnection(operation))
    else if current.value.closed then Fail(ConnectionClosed)
    else if current.value.autoCommit then Fail(AutoCommitOn(operation))
    else Pass
  }

  /** `commit`/`rollback`: checked, then ended on the database, then the connection is forgotten. */
  function Finish(s: Session, operation: string, event: Event): (Outcome<Error>, Session)
  {
    match TransactionCheck(s.current, operation)
    case Fail(e) => (Fail(e), s)
    case Pass => (Pass, Session(None, s.log + [event]))
  }

  // ----- the statements -----

  /** The SELECT's identity parameter: the identity as text, or SQL NULL. */
  function IdParam(id: Option<string>): SqlValue
  {
    if id.Some? then SqlText(id.value) else SqlNull
  }

  /** `getResultSet`: one parameter, at 1, exactly when there is an identity column. */
  function SelectStatement(tableName: string, idName: Option<string>, id: Option<string>): Statement
  {
    Statement(SelectSql(tableName, idName), if idName.Some? then map[1 := IdParam(id)] else map[])
  }

  /** `innerInsert`: the fields' parameters from 1 on. */
  function InsertStatement(m: Message, tableName: string, encode: Value -> string): Result<Statement, Error>
  {
    match Bindings(m, m.desc.fields, 1, encode)
    case Err(e) => Err(e)
    case Ok(params) => Ok(Statement(InsertSql(tableName, m.desc.fields), params))
  }

  /** `innerUpdate`: the fields' parameters from 1 on, then the identity the WHERE clause matches. */
  function UpdateStatement(m: Message, f: Field, tableName: string, previousId: Option<Value>,
                           encode: Value -> string): Result<Statement, Error>
  {
    match Bindings(m, m.desc.fields, 1, encode)
    case Err(e) => Err(e)
    case Ok(params) =>
      match ObjectParam(if previousId.Some? then previousId.value else GetField(m, f))
      case Err(e) => Err(e)
      case Ok(key) => Ok(Statement(UpdateSql(tableName, m.desc.fields, f.name), params[|m.desc.fields| + 1 := key]))
  }

  /** `innerDelete`: the message's identity at 1. */
  function DeleteStatement(m: Message, f: Field, tableName: string): Result<Statement, Error>
  {
    match ObjectParam(GetField(m, f))
    case Err(e) => Err(e)
    case Ok(key) => Ok(Statement(DeleteSql(tableName, f.name), map[1 := key]))
  }

  /** `innerDeleteAll`: no parameters. */
  function DeleteAllStatement(tableName: string): Statement
  {
    Statement(DeleteAllSql(tableName), map[])
  }

  /** Every placeholder of the text is bound, and nothing else is. */
  ghost predicate WellFormed(st: Statement)
  {
    forall p :: p in st.params <==> 1 <= p <= Count(st.sql, '?')
  }

  // ----- the engine -----

  class Engine {
    var current: Option<Conn>
    var log: seq<Event>
    /** The JSON printer and parser that embedded messages go through. */
    const encode: Value -> string
    const decode: (Field, string) -> Option<Value>

    function State(): Session
      reads this
    {
      Session(current, log)
    }

    constructor(encode: Value -> string, decode: (Field, string) -> Option<Value>)
      ensures State() == Session(None, [])
      ensures this.encode == encode && this.decode == decode
    {
      current := None;
      log := [];
      this.encode := encode;
      this.decode := decode;
    }

    /** `getNewOrExistingConnection`: a connection is acquired lazily and then reused. */
    method GetNewOrExistingConnection() returns (connection: Conn)
      modifies this
      ensures connection == Acquired(old(current))
      ensures State() == old(State()).(current := Some(connection))
    {
      if current.None? {
        current := Some(FRESH);
      }
      connection := current.value;
    }

    /** `closeIfNecessary`, on the current connection. */
    method CloseIfNecessary() returns (r: Outcome<Error>)
      modifies this
      ensures (r, State()) == Released(old(State()))
    {
      if current.None? {
        return Pass;
      }
      var connection := current.value;
      if connection.closed {
        return Fail(ConnectionClosed);
      }
      if !connection.autoCommit {
        current := Some(connection.(closed := true));
      }
      return Pass;
    }

    /** Executing a prepared statement: it reaches the database. */
    method Execute(statement: Statement)
      modifies this
      ensures State() == old(State()).(log := old(log) + [Executed(statement)])
    {
      log := log + [Executed(statement)];
    }

    /** `innerSelect`: the query's rows, decoded in order, with the connection released afterwards. */
    method InnerSelect(idName: Option<string>, id: Option<string>, desc: Descriptor, tableName: string, rows: seq<Row>)
      returns (r: Result<seq<Message>, Error>)
      modifies this
      ensures (r, State()) == Query(old(State()), SelectStatement(tableName, idName, id), desc, rows, decode)
    {
      var connection := GetNewOrExistingConnection();
      if connection.closed {
        return Err(ConnectionClosed);
      }
      var sql := BuildSelect(tableName, idName);
      var params: map<int, SqlValue> := map[];
      if idName.Some? {
        params := params[1 := IdParam(id)];
      }
      Execute(Statement(sql, params));
      r := DecodeRows(desc, rows, decode);
      var _ := CloseIfNecessary();
    }

    /** `innerInsert`: built, bound from 1, executed, released. */
    method InnerInsert(m: Message, f: Field, tableName: string) returns (r: Outcome<Error>)
      modifies this
      ensures (r, State()) == Run(old(State()), InsertStatement(m, tableName, encode), true)
    {
      var sql := BuildInsert(m.desc.fields, tableName);
      var connection := GetNewOrExistingConnection();
      if connection.closed {
        return Fail(ConnectionClosed);
      }
      var bound := BindParameters(m, m.desc.fields, 1, encode);
      if bound.Err? {
        var _ := CloseIfNecessary();
        return Fail(bound.error);
      }
      Execute(Statement(sql, bound.value.0));
      r := CloseIfNecessary();
    }

    /** `innerUpdate` without a previous identity. */
    method InnerUpdate(m: Message, f: Field, tableName: string) returns (r: Outcome<Error>)
      modifies this
      ensures (r, State()) == Run(old(State()), UpdateStatement(m, f, tableName, None, encode), true)
    {
      r := InnerUpdateFrom(m, f, tableName, None);
    }

    /** `innerUpdate`: built, bound from 1, the identity bound last, executed, released. */
    method InnerUpdateFrom(m: Message, f: Field, tableName: string, previousId: Option<Value>) returns (r: Outcome<Error>)
      modifies this
      ensures (r, State()) == Run(old(State()), UpdateStatement(m, f, tableName, previousId, encode), true)
    {
      var sql := BuildUpdate(m.desc.fields, tableName, f.name);
      var connection := GetNewOrExistingConnection();
      if connection.closed {
        return Fail(ConnectionClosed);
      }
      var bound := BindParameters(m, m.desc.fields, 1, encode);
      if bound.Err? {
        var _ := CloseIfNecessary();
        return Fail(bound.error);
      }
      var (params, counter) := bound.value;
      var key := ObjectParam(if previousId.Some? then previousId.value else GetField(m, f));
      if key.Err? {
        var _ := CloseIfNecessary();
        return Fail(key.error);
      }
      Execute(Statement(sql, params[counter := key.value]));
      r := CloseIfNecessary();
    }

    /** `innerDelete`: executed with the identity at 1; the connection is not released. */
    method InnerDelete(m: Message, f: Field, tableName: string) returns (r: Outcome<Error>)
      modifies this
      ensures (r, State()) == Run(old(State()), DeleteStatement(m, f, tableName), false)
    {
      var sql := BuildDelete(tableName, f.name);
      var connection := GetNewOrExistingConnection();
      if connection.closed {
        return Fail(ConnectionClosed);
      }
      var key := ObjectParam(GetField(m, f));
      if key.Err? {
        return Fail(key.error);
      }
      Execute(Statement(sql, map[1 := key.value]));
      return Pass;
    }

    /** `innerDeleteAll`: executed without parameters; the connection is not released. */
    method InnerDeleteAll(desc: Descriptor, tableName: string) returns (r: Outcome<Error>)
      modifies this
      ensures (r, State()) == Run(old(State()), Ok(DeleteAllStatement(tableName)), false)
    {
      var sql := BuildDeleteAll(tableName);
      var connection := GetNewOrExistingConnection();
      if connection.closed {
        return Fail(ConnectionClosed);
      }
      Execute(Statement(sql, map[]));
      return Pass;
    }

    /** `startTransaction`. */
    method StartTransaction() returns (r: Outcome<Error>)
      modifies this
      ensures (r, State()) == Begin(old(State()))
    {
      var connection := GetNewOrExistingConnection();
      if connection.closed {
        return Fail(ConnectionClosed);
      }
      current := Some(connection.(autoCommit := false));
      return Pass;
    }

    /** `throwExceptionIfTransactionNotStarted`: changes nothing. */
    method ThrowExceptionIfTransactionNotStarted(operation: string) returns (r: Outcome<Error>)
      ensures r == TransactionCheck(current, operation)
      ensures r.Pass? ==> current == Some(Conn(false, false))
      ensures current.None? ==> r == Fail(NoConnection(operation))
    {
      if current.None? {
        return Fail(NoConnection(operation));
      }
      if current.value.closed {
        return Fail(ConnectionClosed);
      }
      if current.value.autoCommit {
        return Fail(AutoCommitOn(operation));
      }
      return Pass;
    }

    /** `rollback`. */
    method Rollback() returns (r: Outcome<Error>)
      modifies this
      ensures (r, State()) == Finish(old(State()), ROLLBACK, RolledBack)
    {
      r := ThrowExceptionIfTransactionNotStarted(ROLLBACK);
      if r.Fail? {
        return;
      }
      log := log + [RolledBack];
      current := None;
    }

    /** `commit`. */
    method Commit() returns (r: Outcome<Error>)
      modifies this
      ensures (r, State()) == Finish(old(State()), COMMIT, Committed)
    {
      r := ThrowExceptionIfTransactionNotStarted(COMMIT);
      if r.Fail? {
        return;
      }
      log := log + [Committed];
      current := None;
    }

    // ----- the public operations -----

    /** `select`: on the table named after the type, the identity column defaulted only with an identity value. */
    method Select(idName: Option<string>, id: Option<string>, desc: Descriptor, rows: seq<Row>)
      returns (r: Result<seq<Message>, Error>)
      modifies this
      ensures (r, State()) ==
        Query(old(State()), SelectStatement(TableName(desc.fullName), SelectIdName(idName, id), id), desc, rows, decode)
    {
      var tableName := TableName(desc.fullName);
      r := InnerSelect(SelectIdName(idName, id), id, desc, tableName, rows);
    }

    /** `insert`: into the table named after the message's type. */
    method Insert(m: Message, f: Field) returns (r: Outcome<Error>)
      modifies this
      ensures (r, State()) == Run(old(State()), InsertStatement(m, TableName(m.desc.fullName), encode), true)
    {
      r := InnerInsert(m, f, TableName(m.desc.fullName));
    }

    /** `update`: in the table named after the message's type. */
    method Update(m: Message, f: Field) returns (r: Outcome<Error>)
      modifies this
      ensures (r, State()) == Run(old(State()), UpdateStatement(m, f, TableName(m.desc.fullName), None, encode), true)
    {
      r := InnerUpdate(m, f, TableName(m.desc.fullName));
    }

    /** `update` with a previous identity. */
    method UpdateFrom(m: Message, f: Field, previousId: Option<Value>) returns (r: Outcome<Error>)
      modifies this
      ensures (r, State()) == Run(old(State()), UpdateStatement(m, f, TableName(m.desc.fullName), previousId, encode), true)
    {
      r := InnerUpdateFrom(m, f, TableName(m.desc.fullName), previousId);
    }

    /** `delete`: from the table named after the message's type. */
    method Delete(m: Message, f: Field) returns (r: Outcome<Error>)
      modifies this
      ensures (r, State()) == Run(old(State()), DeleteStatement(m, f, TableName(m.desc.fullName)), false)
    {
      r := InnerDelete(m, f, TableName(m.desc.fullName));
    }

    /** `deleteAll`: empties the table named after the type. */
    method DeleteAll(desc: Descriptor) returns (r: Outcome<Error>)
      modifies this
      ensures (r, State()) == Run(old(State()), Ok(DeleteAllStatement(TableName(desc.fullName))), false)
    {
      r := InnerDeleteAll(desc, TableName(desc.fullName));
    }
  }

  // ----- properties of the state machine -----

  /** Outside a transaction the connection is reused as it is: never closed, never replaced. */
  lemma AutoCommitKeepsConnection(s: Session, statement: Result<Statement, Error>, release: bool)
    requires s.current.None? || s.current == Some(FRESH)
    ensures Run(s, statement, release).1.current == Some(FRESH)
    ensures Run(s, statement, release).0.Pass? <==> statement.Ok?
    ensures statement.Ok? ==> Run(s, statement, release).1.log == s.log + [Executed(statement.value)]
  {
  }

  /** `startTransaction` on an open (or no) connection turns auto-commit off and nothing else. */
  lemma BeginOpensTransaction(s: Session)
    requires s.current.None? || !s.current.value.closed
    ensures Begin(s) == (Pass, s.(current := Some(Conn(false, false))))
  {
  }

  /** `commit`/`rollback` succeed exactly inside a transaction; without one they throw and change nothing. */
  lemma FinishNeedsTransaction(s: Session, operation: string, event: Event)
    ensures Finish(s, operation, event).0.Pass? <==> s.current == Some(Conn(false, false))
    ensures Finish(s, operation, event).0.Pass? ==> Finish(s, operation, event).1 == Session(None, s.log + [event])
    ensures s.current.None? ==> Finish(s, operation, event) == (Fail(NoConnection(operation)), s)
    ensures s.current == Some(FRESH) ==> Finish(s, operation, event) == (Fail(AutoCommitOn(operation)), s)
  {
  }

  /**
   * A statement that releases its connection (select, insert, update) inside a transaction
   * closes the connection but keeps it as the current one.
   */
  lemma ReleaseInTransactionCloses(s: Session, statement: Statement)
    requires s.current == Some(Conn(false, false))
    ensures Run(s, Ok(statement), true) == (Pass, Session(Some(Conn(false, true)), s.log + [Executed(statement)]))
  {
  }

  /** Deletes do not release: inside a transaction they leave it open for the commit. */
  lemma DeleteInTransactionKeepsOpen(s: Session, statement: Result<Statement, Error>)
    requires s.current == Some(Conn(false, false))
    ensures Run(s, statement, false).1.current == Some(Conn(false, false))
  {
  }

  /** Once the current connection is closed, every operation throws and nothing changes any more. */
  lemma ClosedIsStuck(s: Session, statement: Result<Statement, Error>, release: bool, operation: string, event: Event)
    requires s.current.Some? && s.current.value.closed
    ensures Run(s, statement, release) == (Fail(ConnectionClosed), s)
    ensures Begin(s) == (Fail(ConnectionClosed), s)
    ensures Finish(s, operation, event) == (Fail(ConnectionClosed), s)
    ensures Released(s) == (Fail(ConnectionClosed), s)
  {
  }

  /**
   * The consequence for callers: start a transaction, insert (or select, or update) once, and
   * the commit throws; the connection stays closed and current, and nothing is committed.
   */
  lemma InsertThenCommitFails(s: Session, statement: Statement)
    requires s.current.None? || !s.current.value.closed
    ensures var (_, inTransaction) := Begin(s);
            var (_, afterInsert) := Run(inTransaction, Ok(statement), true);
            Finish(afterInsert, COMMIT, Committed) == (Fail(ConnectionClosed), afterInsert) &&
            afterInsert.current == Some(Conn(false, true)) &&
            Committed !in afterInsert.log[|s.log|..]
  {
    BeginOpensTransaction(s);
    var inTransaction := s.(current := Some(Conn(false, false)));
    ReleaseInTransactionCloses(inTransaction, statement);
    var afterInsert := Session(Some(Conn(false, true)), s.log + [Executed(statement)]);
    ClosedIsStuck(afterInsert, Ok(statement), true, COMMIT, Committed);
    assert afterInsert.log[|s.log|..] == [Executed(statement)];
  }

  /** A transaction of deletes only does commit, with every delete before the commit. */
  lemma DeletesThenCommit(s: Session, first: Statement, second: Statement)
    requires s.current.None? || !s.current.value.closed
    ensures var (_, inTransaction) := Begin(s);
            var (o1, afterFirst) := Run(inTransaction, Ok(first), false);
            var (o2, afterSecond) := Run(afterFirst, Ok(second), false);
            o1.Pass? && o2.Pass? &&
            Finish(afterSecond, COMMIT, Committed) ==
              (Pass, Session(None, s.log + [Executed(first), Executed(second), Committed]))
  {
    BeginOpensTransaction(s);
    var inTransaction := s.(current := Some(Conn(false, false)));
    var afterFirst := inTransaction.(log := s.log + [Executed(first)]);
    assert Run(inTransaction, Ok(first), false) == (Pass, afterFirst);
    var afterSecond := afterFirst.(log := afterFirst.log + [Executed(second)]);
    assert Run(afterFirst, Ok(second), false) == (Pass, afterSecond);
    FinishNeedsTransaction(afterSecond, COMMIT, Committed);
    assert afterSecond.log + [Committed] == s.log + [Executed(first), Executed(second), Committed];
  }

  // ----- placeholders and parameters agree -----

  /** A SELECT binds exactly its placeholders: position 1 with an identity column, none without. */
  lemma SelectWellFormed(tableName: string, idName: Option<string>, id: Option<string>)
    requires '?' !in tableName
    requires idName.Some? ==> '?' !in idName.value
    ensures WellFormed(SelectStatement(tableName, idName, id))
    ensures idName.Some? ==> SelectStatement(tableName, idName, id).params[1] == IdParam(id)
  {
    SelectMarks(tableName, idName);
  }

  /** An INSERT binds exactly its placeholders, field `i` at position `1 + i`. */
  lemma InsertWellFormed(m: Message, tableName: string, encode: Value -> string)
    requires '?' !in tableName && NoMark(m.desc.fields)
    requires InsertStatement(m, tableName, encode).Ok?
    ensures WellFormed(InsertStatement(m, tableName, encode).value)
    ensures forall i :: 0 <= i < |m.desc.fields| ==>
      Ok(InsertStatement(m, tableName, encode).value.params[1 + i]) ==
        BindValue(m.desc.fields[i], GetField(m, m.desc.fields[i]), encode)
  {
    InsertMarks(tableName, m.desc.fields);
    forall i | 0 <= i < |m.desc.fields|
      ensures Ok(InsertStatement(m, tableName, encode).value.params[1 + i]) ==
        BindValue(m.desc.fields[i], GetField(m, m.desc.fields[i]), encode)
    {
      BindingsAt(m, m.desc.fields, 1, encode, i);
    }
  }

  /**
   * An UPDATE binds exactly its placeholders: the fields from 1 on, and last the previous
   * identity if given, else the message's own.
   */
  lemma UpdateWellFormed(m: Message, f: Field, tableName: string, previousId: Option<Value>, encode: Value -> string)
    requires '?' !in tableName && '?' !in f.name && NoMark(m.desc.fields)
    requires UpdateStatement(m, f, tableName, previousId, encode).Ok?
    ensures WellFormed(UpdateStatement(m, f, tableName, previousId, encode).value)
    ensures Ok(UpdateStatement(m, f, tableName, previousId, encode).value.params[|m.desc.fields| + 1]) ==
      ObjectParam(if previousId.Some? then previousId.value else GetField(m, f))
  {
    var n := |m.desc.fields|;
    var params := Bindings(m, m.desc.fields, 1, encode).value;
    var key := ObjectParam(if previousId.Some? then previousId.value else GetField(m, f)).value;
    var st := UpdateStatement(m, f, tableName, previousId, encode).value;
    assert st == Statement(UpdateSql(tableName, m.desc.fields, f.name), params[n + 1 := key]);
    UpdateMarks(tableName, m.desc.fields, f.name);
    forall p ensures p in st.params <==> 1 <= p <= n + 1 {
      assert p in st.params <==> p in params || p == n + 1;
    }
  }

  /** A DELETE binds its one placeholder to the message's identity; a delete-all binds nothing. */
  lemma DeleteWellFormed(m: Message, f: Field, tableName: string)
    requires '?' !in tableName && '?' !in f.name
    requires DeleteStatement(m, f, tableName).Ok?
    ensures WellFormed(DeleteStatement(m, f, tableName).value)
    ensures Ok(DeleteStatement(m, f, tableName).value.params[1]) == ObjectParam(GetField(m, f))
    ensures WellFormed(DeleteAllStatement(tableName))
  {
    DeleteMarks(tableName, f.name);
  }
}
