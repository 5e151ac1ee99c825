/** `PgConnection`: reconnecting, the cache of prepared statements, and draining results. The server and
    the client library appear as outcomes: each send either succeeds or fails with some message. */
module Connections {
  import opened Options
  import opened Texts

  type Rows = seq<seq<Option<string>>>

  /** An exception has a message and is, or is not, the DbError of a failed statement. */
  datatype Result<+T> = Ok(value: T) | Err(message: string, sql: bool)

  /** A libpq connection object: whether its status is OK, and the statements prepared on its server
      session. */
  datatype Session = Session(ok: bool, statements: set<string>)

  datatype Connection = Connection(conn: Option<Session>, prepared: set<string>)

  datatype ConnectOutcome = Connected | NoObject | HandshakeFailed(message: string)

  /** What is sent: a statement to prepare, the execution of a prepared one, or plain SQL. */
  datatype Request = Prepare(name: string) | Execute(name: string) | Plain

  const NO_CONNECTION: string := "PQsend* failed: No connection"
  const BAD_CONNECTION: string := "PQsend* failed: no connection to the server\n"

  function Fresh(): Connection {
    Connection(None, {})
  }

  predicate Healthy(c: Connection) {
    c.conn.Some? && c.conn.value.ok
  }

  /** SQLSTATE 42P05. */
  predicate IsAlreadyExists(message: string) {
    Contains(message, "42P05") || Contains(message, "duplicate_prepared_statement")
        || Contains(message, "already exists")
  }

  /** SQLSTATE 26000. */
  predicate IsInvalidStatement(message: string) {
    Contains(message, "26000") || Contains(message, "invalid prepared statement")
        || Contains(message, "invalid_sql_statement_name")
  }

  function Connect(c: Connection, o: ConnectOutcome): (Connection, Result<()>) {
    if Healthy(c) then (c, Ok(()))
    else
      match o
      case Connected => (Connection(Some(Session(true, {})), {}), Ok(()))
      case NoObject => (c.(conn := None), Err("PQconnectStart returned nullptr", false))
      case HandshakeFailed(message) => (c.(conn := Some(Session(false, {}))), Err(message, false))
  }

  /** One round trip: any failure closes the connection. */
  function RunQuery(c: Connection, r: Request, o: Result<Rows>): (Connection, Result<Rows>) {
    if c.conn.None? then (c, Err(NO_CONNECTION, false))
    else if !c.conn.value.ok then (c.(conn := None), Err(BAD_CONNECTION, false))
    else
      match o
      case Err(_, _) => (c.(conn := None), o)
      case Ok(rows) =>
        var s := c.conn.value;
        (if r.Prepare? then c.(conn := Some(s.(statements := s.statements + {r.name}))) else c, o)
  }

  function DoPrepare(c: Connection, name: string, o: Result<Rows>): (Connection, Result<()>) {
    if name in c.prepared then (c, Ok(()))
    else
      var (c1, r) := RunQuery(c, Prepare(name), o);
      match r
      case Ok(_) => (c1.(prepared := c1.prepared + {name}), Ok(()))
      case Err(message, sql) =>
        if IsAlreadyExists(message) then (c1.(prepared := c1.prepared + {name}), Ok(())) else (c1, Err(message, sql))
  }

  /** The outcomes one `execPrepared` may meet: connecting, then up to two prepares and executions. */
  datatype Attempt = Attempt(connect: ConnectOutcome, prepare: Result<Rows>, execute: Result<Rows>,
                             prepareAgain: Result<Rows>, executeAgain: Result<Rows>)

  function Retry(c: Connection, name: string, a: Attempt): (Connection, Result<Rows>) {
    var (c1, prepared) := DoPrepare(c.(prepared := c.prepared - {name}), name, a.prepareAgain);
    if prepared.Err? then (c1, Err(prepared.message, prepared.sql)) else RunQuery(c1, Execute(name), a.executeAgain)
  }

  function ExecPreparedOn(c: Connection, name: string, a: Attempt): (Connection, Result<Rows>) {
    var (c1, connected) := Connect(c, a.connect);
    if connected.Err? then (c1, Err(connected.message, connected.sql))
    else
      var (c2, prepared) := DoPrepare(c1, name, a.prepare);
      if prepared.Err? then (c2, Err(prepared.message, prepared.sql))
      else
        var (c3, r) := RunQuery(c2, Execute(name), a.execute);
        if r.Err? && IsInvalidStatement(r.message) then Retry(c3, name, a) else (c3, r)
  }

  function ExecParamsOn(c: Connection, connect: ConnectOutcome, o: Result<Rows>): (Connection, Result<Rows>) {
    var (c1, connected) := Connect(c, connect);
    if connected.Err? then (c1, Err(connected.message, connected.sql)) else RunQuery(c1, Plain, o)
  }

  // The mutable connection

  class PgConnection {
    var conn: Option<Session>
    var prepared: set<string>

    ghost function View(): Connection
      reads this
    {
      Connection(conn, prepared)
    }

    constructor ()
      ensures View() == Fresh()
    {
      conn, prepared := None, {};
    }

    method Close()
      modifies this`conn
      ensures conn == None
    {
      conn := None;
    }

    method EnsureConnected(o: ConnectOutcome) returns (r: Result<()>)
      modifies this
      ensures (View(), r) == Connect(old(View()), o)
    {
      if conn.Some? && conn.value.ok {
        return Ok(());
      }
      Close();
      match o {
        case NoObject =>
          return Err("PQconnectStart returned nullptr", false);
        case HandshakeFailed(message) =>
          conn := Some(Session(false, {}));
          return Err(message, false);
        case Connected =>
          conn := Some(Session(true, {}));
          prepared := {};
          return Ok(());
      }
    }

    method RunQueryWithTimeout(q: Request, o: Result<Rows>) returns (r: Result<Rows>)
      modifies this
      ensures (View(), r) == RunQuery(old(View()), q, o)
    {
      if conn.None? {
        return Err(NO_CONNECTION, false);
      }
      if !conn.value.ok {
        Close();
        return Err(BAD_CONNECTION, false);
      }
      if o.Err? {
        Close();
        return o;
      }
      if q.Prepare? {
        conn := Some(conn.value.(statements := conn.value.statements + {q.name}));
      }
      return o;
    }

    method PrepareOnce(name: string, o: Result<Rows>) returns (r: Result<()>)
      modifies this
      ensures (View(), r) == DoPrepare(old(View()), name, o)
    {
      if name in prepared {
        return Ok(());
      }
      var sent := RunQueryWithTimeout(Prepare(name), o);
      if sent.Ok? {
        prepared := prepared + {name};
        return Ok(());
      }
      if IsAlreadyExists(sent.message) {
        prepared := prepared + {name};
        return Ok(());
      }
      return Err(sent.message, sent.sql);
    }

    method ExecPrepared(name: string, a: Attempt) returns (r: Result<Rows>)
      modifies this
      ensures (View(), r) == ExecPreparedOn(old(View()), name, a)
    {
      var connected := EnsureConnected(a.connect);
      if connected.Err? {
        return Err(connected.message, connected.sql);
      }
      var ready := PrepareOnce(name, a.prepare);
      if ready.Err? {
        return Err(ready.message, ready.sql);
      }
      r := RunQueryWithTimeout(Execute(name), a.execute);
      if r.Err? && IsInvalidStatement(r.message) {
        prepared := prepared - {name};
        ready := PrepareOnce(name, a.prepareAgain);
        if ready.Err? {
          return Err(ready.message, ready.sql);
        }
        r := RunQueryWithTimeout(Execute(name), a.executeAgain);
      }
    }

    method ExecParams(connect: ConnectOutcome, o: Result<Rows>) returns (r: Result<Rows>)
      modifies this
      ensures (View(), r) == ExecParamsOn(old(View()), connect, o)
    {
      var connected := EnsureConnected(connect);
      if connected.Err? {
        return Err(connected.message, connected.sql);
      }
      r := RunQueryWithTimeout(Plain, o);
    }
  }

  // Which messages mean what

  lemma ContainsAny(message: string, a: string, b: string, c: string)
    ensures Contains(message, a) || Contains(message, b) || Contains(message, c)
            <==> exists before: string, code: string, after: string ::
                   code in [a, b, c] && message == before + code + after
  {
    ContainsIff(message, a);
    ContainsIff(message, b);
    ContainsIff(message, c);
    if x: string, y: string :| message == x + a + y {
      assert a in [a, b, c] && message == x + a + y;
    }
    if x: string, y: string :| message == x + b + y {
      assert b in [a, b, c] && message == x + b + y;
    }
    if x: string, y: string :| message == x + c + y {
      assert c in [a, b, c] && message == x + c + y;
    }
  }

  /** A failed prepare counts as done, and a failed execution is tried again, when the message holds the
      code or a name of its condition anywhere. */
  lemma MessagesAreSearched(message: string)
    ensures IsAlreadyExists(message)
            <==> exists before: string, code: string, after: string ::
                   && code in ["42P05", "duplicate_prepared_statement", "already exists"]
                   && message == before + code + after
    ensures IsInvalidStatement(message)
            <==> exists before: string, code: string, after: string ::
                   && code in ["26000", "invalid prepared statement", "invalid_sql_statement_name"]
                   && message == before + code + after
  {
    ContainsAny(message, "42P05", "duplicate_prepared_statement", "already exists");
    ContainsAny(message, "26000", "invalid prepared statement", "invalid_sql_statement_name");
  }

  // The cache of prepared statements

  /** While connected, every cached statement is prepared on this very server session. */
  ghost predicate CacheIsSound(c: Connection) {
    Healthy(c) ==> c.prepared <= c.conn.value.statements
  }

  datatype Use =
    | Prepared(name: string, attempt: Attempt)
    | Params(connect: ConnectOutcome, outcome: Result<Rows>)
    | LinkBreaks

  function AfterUse(c: Connection, u: Use): Connection {
    match u
    case Prepared(name, a) => ExecPreparedOn(c, name, a).0
    case Params(connect, o) => ExecParamsOn(c, connect, o).0
    case LinkBreaks => if c.conn.Some? then c.(conn := Some(c.conn.value.(ok := false))) else c
  }

  function AfterUses(c: Connection, uses: seq<Use>): Connection {
    if uses == [] then c else AfterUse(AfterUses(c, uses[..|uses| - 1]), uses[|uses| - 1])
  }

  lemma QueryKeepsSound(c: Connection, r: Request, o: Result<Rows>)
    requires CacheIsSound(c)
    ensures CacheIsSound(RunQuery(c, r, o).0)
    ensures RunQuery(c, r, o).1.Err? ==> !Healthy(RunQuery(c, r, o).0)
  {
  }

  lemma PrepareKeepsSound(c: Connection, name: string, o: Result<Rows>)
    requires CacheIsSound(c)
    ensures CacheIsSound(DoPrepare(c, name, o).0)
  {
    QueryKeepsSound(c, Prepare(name), o);
  }

  lemma UseKeepsSound(c: Connection, u: Use)
    requires CacheIsSound(c)
    ensures CacheIsSound(AfterUse(c, u))
  {
    match u
    case Prepared(name, a) =>
      var (c1, connected) := Connect(c, a.connect);
      assert CacheIsSound(c1);
      var (c2, prepared) := DoPrepare(c1, name, a.prepare);
      PrepareKeepsSound(c1, name, a.prepare);
      var (c3, r) := RunQuery(c2, Execute(name), a.execute);
      QueryKeepsSound(c2, Execute(name), a.execute);
      var c4 := c3.(prepared := c3.prepared - {name});
      PrepareKeepsSound(c4, name, a.prepareAgain);
      QueryKeepsSound(DoPrepare(c4, name, a.prepareAgain).0, Execute(name), a.executeAgain);
    case Params(connect, o) =>
      QueryKeepsSound(Connect(c, connect).0, Plain, o);
    case LinkBreaks =>
  }

  /** Over every sequence of uses, reconnects and failures included, the cache is sound. */
  lemma {:induction false} CacheStaysSound(uses: seq<Use>)
    ensures CacheIsSound(AfterUses(Fresh(), uses))
  {
    if uses != [] {
      CacheStaysSound(uses[..|uses| - 1]);
      UseKeepsSound(AfterUses(Fresh(), uses[..|uses| - 1]), uses[|uses| - 1]);
    }
  }

  lemma Absent(c: char)
    requires c == '4' || c == '_' || c == 'x' || c == '2' || c == 'v'
    ensures c !in NO_CONNECTION
  {
  }

  lemma NotAlreadyExists()
    ensures !IsAlreadyExists(NO_CONNECTION)
  {
    Absent('4');
    Absent('_');
    Absent('x');
    LacksCharacter(NO_CONNECTION, "42P05", 0);
    LacksCharacter(NO_CONNECTION, "duplicate_prepared_statement", 9);
    LacksCharacter(NO_CONNECTION, "already exists", 9);
  }

  lemma NotInvalidStatement()
    ensures !IsInvalidStatement(NO_CONNECTION)
  {
    Absent('2');
    Absent('v');
    Absent('_');
    LacksCharacter(NO_CONNECTION, "26000", 0);
    LacksCharacter(NO_CONNECTION, "invalid prepared statement", 2);
    LacksCharacter(NO_CONNECTION, "invalid_sql_statement_name", 7);
  }

  /** The message of a send without a connection is neither of the two special ones. */
  lemma NoConnectionIsPlain()
    ensures !IsAlreadyExists(NO_CONNECTION) && !IsInvalidStatement(NO_CONNECTION)
  {
    NotAlreadyExists();
    NotInvalidStatement();
  }

  lemma LacksCharacter(hay: string, needle: string, k: nat)
    requires k < |needle| && needle[k] !in hay
    ensures !Contains(hay, needle)
  {
    if Contains(hay, needle) {
      CharacterOccurs(hay, needle, needle[k]);
    }
  }

  /** A retry after an invalid-statement error never succeeds: the failed query closed the connection. */
  lemma RetryFails(c: Connection, name: string, a: Attempt)
    requires c.conn.None?
    ensures Retry(c, name, a).1 == Err(NO_CONNECTION, false) && Retry(c, name, a).0.conn.None?
  {
    NoConnectionIsPlain();
  }

  /** `execPrepared` returns rows exactly when the connection is or gets connected, the statement is cached
      or is prepared at the first try, and the first execution succeeds; the rows are that execution's.
      After every other outcome the connection is closed or broken. */
  lemma ReturnsOnlyOnFirstExecution(c: Connection, name: string, a: Attempt)
    ensures var (c', r) := ExecPreparedOn(c, name, a);
            && (r.Ok? <==>
                  && (Healthy(c) || a.connect.Connected?)
                  && ((Healthy(c) && name in c.prepared) || a.prepare.Ok?)
                  && a.execute.Ok?)
            && (r.Ok? ==> r == a.execute && Healthy(c') && name in c'.prepared)
            && (r.Err? ==> !Healthy(c'))
  {
    NoConnectionIsPlain();
    var (c1, connected) := Connect(c, a.connect);
    if connected.Ok? {
      var (c2, prepared) := DoPrepare(c1, name, a.prepare);
      if prepared.Ok? {
        var (c3, r) := RunQuery(c2, Execute(name), a.execute);
        if r.Err? {
          RetryFails(c3, name, a);
        }
      }
    }
  }

  /** After an execution that succeeded the next one of the same statement sends no prepare: whatever that
      would give, the outcome is that of the execution. */
  lemma NextExecutionSkipsPrepare(c: Connection, name: string, a: Attempt, next: Attempt)
    requires ExecPreparedOn(c, name, a).1.Ok?
    ensures ExecPreparedOn(ExecPreparedOn(c, name, a).0, name, next).1
            == if next.execute.Err? && IsInvalidStatement(next.execute.message) then Err(NO_CONNECTION, false)
               else next.execute
  {
    ReturnsOnlyOnFirstExecution(c, name, a);
    NoConnectionIsPlain();
  }

  /** A statement the server does not know leaves a closed connection whose cache has all it had but this
      statement, or nothing when the call had connected anew. */
  lemma UnknownStatementIsForgotten(c: Connection, name: string, a: Attempt)
    requires Healthy(c) || a.connect.Connected?
    requires (Healthy(c) && name in c.prepared) || a.prepare.Ok?
    requires a.execute.Err? && IsInvalidStatement(a.execute.message)
    ensures ExecPreparedOn(c, name, a).0 == Connection(None, if Healthy(c) then c.prepared - {name} else {})
  {
    NoConnectionIsPlain();
    var c1 := Connect(c, a.connect).0;
    var c2 := DoPrepare(c1, name, a.prepare).0;
    assert c2.prepared - {name} == c1.prepared - {name};
    assert c1.prepared - {name} == if Healthy(c) then c.prepared - {name} else {};
  }

  /** What is sent after a failed connect, without connecting again, tells whether there is a connection
      object; then there is none. */
  lemma SentAfterFailedConnect(c: Connection, connect: ConnectOutcome, q: Request, o: Result<Rows>)
    requires !Healthy(c) && !connect.Connected?
    ensures RunQuery(Connect(c, connect).0, q, o)
            == (c.(conn := None), Err(if connect.NoObject? then NO_CONNECTION else BAD_CONNECTION, false))
  {
  }

  /** The exception of a connect that fails; it is never a DbError. */
  function ConnectError(o: ConnectOutcome): Option<string> {
    match o
    case Connected => None
    case NoObject => Some("PQconnectStart returned nullptr")
    case HandshakeFailed(message) => Some(message)
  }

  /** What `execParams` returns or raises: the statement's own rows or error, of its own class, when the
      connection is healthy or connecting succeeds; else the connect's error. */
  lemma ExecParamsGives(c: Connection, connect: ConnectOutcome, o: Result<Rows>)
    ensures ExecParamsOn(c, connect, o).1
            == if Healthy(c) || connect.Connected? then o else Err(ConnectError(connect).value, false)
  {
  }

  /** What `execPrepared` raises: the connect's error; or that of preparing, unless it says that the statement
      exists, in which case the closed connection is the error; or that of the execution, unless it says that
      the statement is unknown, in which case again the closed connection is. */
  lemma ExecPreparedRaises(c: Connection, name: string, a: Attempt)
    ensures var r := ExecPreparedOn(c, name, a).1;
            var cached := Healthy(c) && name in c.prepared;
            && (!Healthy(c) && !a.connect.Connected? ==> r == Err(ConnectError(a.connect).value, false))
            && (Healthy(c) || a.connect.Connected? ==>
                  && (!cached && a.prepare.Err? ==>
                        r == if IsAlreadyExists(a.prepare.message) then Err(NO_CONNECTION, false) else a.prepare)
                  && (cached || a.prepare.Ok? ==>
                        r == if a.execute.Err? && IsInvalidStatement(a.execute.message) then Err(NO_CONNECTION, false)
                             else a.execute))
  {
    NoConnectionIsPlain();
  }

  /** So in every reachable state a successful execution ran a statement prepared on its own session. */
  lemma ExecutesPreparedStatement(uses: seq<Use>, name: string, a: Attempt)
    ensures var (c', r) := ExecPreparedOn(AfterUses(Fresh(), uses), name, a);
            r.Ok? ==> Healthy(c') && name in c'.conn.value.statements
  {
    var c := AfterUses(Fresh(), uses);
    CacheStaysSound(uses);
    UseKeepsSound(c, Prepared(name, a));
    ReturnsOnlyOnFirstExecution(c, name, a);
  }

  // Draining results

  datatype DbErrorCode = UniqueViolation | ForeignKeyViolation | NotNullViolation | Unknown

  datatype DbError = DbError(code: DbErrorCode, message: string)

  datatype PgResult =
    | TuplesOk(rows: Rows)
    | CommandOk
    | Failed(sqlstate: Option<string>, message: Option<string>)
    | OtherStatus

  datatype Drained = Drained(rows: Rows) | Raised(error: DbError)

  function MapSqlstate(state: string): (code: DbErrorCode)
    ensures code.UniqueViolation? <==> state == "23505"
    ensures code.ForeignKeyViolation? <==> state == "23503"
    ensures code.NotNullViolation? <==> state == "23502"
  {
    if state == "23505" then UniqueViolation
    else if state == "23503" then ForeignKeyViolation
    else if state == "23502" then NotNullViolation
    else Unknown
  }

  function ErrorOf(r: PgResult): DbError
    requires r.Failed?
  {
    DbError(MapSqlstate(if r.sqlstate.Some? then r.sqlstate.value else "XXXXX"),
            if r.message.Some? then r.message.value else "query error")
  }

  /** The drain loop: the first failed result is raised; without one the rows of the last row-returning
      result are kept, whatever command results come before or after, and none means no rows. */
  method Drain(results: seq<PgResult>) returns (d: Drained)
    ensures d.Raised? <==> exists i :: 0 <= i < |results| && results[i].Failed?
    ensures d.Raised? ==> exists i :: 0 <= i < |results| && results[i].Failed? && d.error == ErrorOf(results[i])
                                      && forall j :: 0 <= j < i ==> !results[j].Failed?
    ensures d.Drained? && (exists i :: 0 <= i < |results| && results[i].TuplesOk?) ==>
              exists i :: 0 <= i < |results| && results[i].TuplesOk? && d.rows == results[i].rows
                          && forall j :: i < j < |results| ==> !results[j].TuplesOk?
    ensures d.Drained? && (forall i :: 0 <= i < |results| ==> !results[i].TuplesOk?) ==> d.rows == []
  {
    var out: Rows := [];
    var haveResult := false;
    ghost var last := -1;
    for i := 0 to |results|
      invariant forall j :: 0 <= j < i ==> !results[j].Failed?
      invariant -1 <= last < i
      invariant forall j :: last < j < i ==> !results[j].TuplesOk?
      invariant if last >= 0 then haveResult && results[last].TuplesOk? && out == results[last].rows else out == []
    {
      var r := results[i];
      if r.TuplesOk? {
        out := r.rows;
        haveResult := true;
        last := i;
      } else if r.CommandOk? {
        if !haveResult {
          out := [];
          haveResult := true;
        }
      } else if r.Failed? {
        return Raised(ErrorOf(r));
      }
    }
    if !haveResult {
      return Drained([]);
    }
    return Drained(out);
  }
}
