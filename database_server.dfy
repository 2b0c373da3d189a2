/** The database service: it classifies each request's SQL by its leading
    keyword, runs it on the SQLite provider and writes back either the rows
    as JSON or an error line; it also tracks a client counter and whether it
    is started and listening. SQLite is an executor whose answer depends on
    the statements run before; JSON is a parameter. */
module DatabaseServer {
  import opened Wrappers
  import opened JsString

  // ----- getQueryType -------------------------------------------------------

  /** The characters `.` does not match and before which `$` matches in
      multiline mode. */
  predicate IsLineTerminator(c: char) {
    c == '\n' || c == '\r' || c == '\U{2028}' || c == '\U{2029}'
  }

  /** `\w` */
  predicate IsWordChar(c: char) {
    ('a' <= c <= 'z') || ('A' <= c <= 'Z') || ('0' <= c <= '9') || c == '_'
  }

  // The global lazy block-comment replace: each comment opener up to the
  // nearest later closer is removed, scanning left to right; an opener
  // without a closer stays.
  function StripBlockComments(s: string): (r: string)
    ensures |r| <= |s|
    decreases |s|
  {
    var i := IndexOf(s, "/*");
    if i < 0 then s
    else
      var j := IndexFrom(s, "*/", i + 2);
      if j < 0 then s else s[..i] + StripBlockComments(s[j + 2..])
  }

  /** Index of the first line terminator at or after `from`, or `|s|`. */
  function LineEnd(s: string, from: nat): (e: nat)
    requires from <= |s|
    ensures from <= e <= |s|
    ensures e < |s| ==> IsLineTerminator(s[e])
    ensures forall k :: from <= k < e ==> !IsLineTerminator(s[k])
    decreases |s| - from
  {
    if from == |s| || IsLineTerminator(s[from]) then from else LineEnd(s, from + 1)
  }

  // The global multiline line-comment replace: each double dash up to the
  // end of its line is removed; the line terminator stays.
  function StripLineComments(s: string): (r: string)
    ensures |r| <= |s|
    decreases |s|
  {
    var i := IndexOf(s, "--");
    if i < 0 then s
    else
      var e := LineEnd(s, i + 2);
      s[..i] + StripLineComments(s[e..])
  }

  /** The longest prefix of word characters. */
  function LeadingWord(s: string): (w: string)
    ensures StartsWith(s, w)
    ensures forall k :: 0 <= k < |w| ==> IsWordChar(w[k])
    ensures |w| < |s| ==> !IsWordChar(s[|w|])
  {
    if |s| > 0 && IsWordChar(s[0]) then
      var w := LeadingWord(s[1..]);
      assert s[..1 + |w|] == [s[0]] + s[1..][..|w|];
      [s[0]] + w
    else ""
  }

  /** `getQueryType(sql)`: the upper-cased first word once comments are gone
      and the text is trimmed, or null. */
  function QueryType(sql: string): Option<string> {
    var text := Trim(StripLineComments(StripBlockComments(sql)));
    var w := LeadingWord(text);
    if w == "" then None else Some(UpperAscii(w))
  }

  predicate IsUpperWordChar(c: char) {
    ('A' <= c <= 'Z') || ('0' <= c <= '9') || c == '_'
  }

  /** The keyword is non-empty, made of upper-case word characters, and is
      the leading word of the comment-free trimmed text; null exactly when
      that text does not start with a word character. */
  lemma QueryTypeShape(sql: string)
    ensures var text := Trim(StripLineComments(StripBlockComments(sql)));
      && (QueryType(sql).None? <==> (|text| == 0 || !IsWordChar(text[0])))
      && (QueryType(sql).Some? ==>
            var w := QueryType(sql).value;
            && |w| > 0
            && (forall k :: 0 <= k < |w| ==> IsUpperWordChar(w[k]))
            && |w| <= |text|
            && w == UpperAscii(text[..|w|]))
  {
    var text := Trim(StripLineComments(StripBlockComments(sql)));
    var w := LeadingWord(text);
    if |text| > 0 && IsWordChar(text[0]) {
      assert text[..|w|][0] == w[0];
    }
  }

  lemma CommentWindow(body: string, sql: string, k: int)
    requires 2 <= k < |body| + 2
    ensures ("/*" + body + "*/" + sql)[k..k + 2] == (body + "*/")[k - 2..k]
  {
    var s := "/*" + body + "*/" + sql;
    var t := body + "*/";
    assert s[k] == t[k - 2];
    assert s[k + 1] == t[k - 1];
  }

  /** The comment opener at the front is found at index 0 and its closer is
      the one after `body`; what follows is `sql`. */
  lemma StripLeadingComment(body: string, sql: string)
    requires IndexOf(body + "*/", "*/") == |body|
    ensures StripBlockComments("/*" + body + "*/" + sql) == StripBlockComments(sql)
  {
    var s := "/*" + body + "*/" + sql;
    assert s[0..2] == "/*";
    assert IndexOf(s, "/*") == 0;
    assert OccursAt(s, "*/", |body| + 2) by {
      assert s[|body| + 2] == '*' && s[|body| + 3] == '/';
    }
    forall k | 2 <= k < |body| + 2
      ensures !OccursAt(s, "*/", k)
    {
      CommentWindow(body, sql, k);
      assert !OccursAt(body + "*/", "*/", k - 2);
    }
    var j := IndexFrom(s, "*/", 2);
    assert j == |body| + 2;
    assert s[j + 2..] == sql;
  }

  /** A leading block comment does not change the kind of a statement. */
  lemma LeadingBlockCommentIgnored(body: string, sql: string)
    requires IndexOf(body + "*/", "*/") == |body|
    ensures QueryType("/*" + body + "*/" + sql) == QueryType(sql)
  {
    StripLeadingComment(body, sql);
  }

  // ----- handleConnection ---------------------------------------------------

  /** A row of `queryEntries`, column name to its JSON-encoded value. */
  datatype Row = Row(cells: map<string, string>)

  /** One `queryEntries(sql, params)` call. */
  datatype Statement = Statement(sql: string, params: seq<string>)

  /** The request object `JSON.parse(message)` yields: `sql` is absent when
      the parsed value has no string `sql` property. */
  datatype Query = Query(sql: Option<string>, params: seq<string>)

  /** The foreign pieces: `JSON.parse` of a request (a SyntaxError message on
      failure), `JSON.stringify` of rows and of a string, the engine's
      TypeError text for a request without string `sql`, and SQLite, which
      answers a statement given every statement run on it before. */
  datatype Env = Env(
    parse: string -> Result<Query>,
    stringifyRows: seq<Row> -> string,
    stringifyString: string -> string,
    missingSqlError: string,
    sqlite: (seq<Statement>, Statement) -> Result<seq<Row>>)

  const StatusRequest := "status"
  const StatusResponse := "WPD db service: OK"
  const ErrorPrefix := "WPD db service: unexpected error: "
  const LastInsertRowId := Statement("SELECT last_insert_rowid() as LAST_INSERT_ROW_ID;", [])

  /** What the handler does with one message. */
  datatype Reply =
    | Silent                          // empty message: nothing is written
    | Write(response: string)         // the response written back
    | ParseThrow(error: string)       // `JSON.parse` threw outside the try

  function ErrorResponse(env: Env, message: string): string {
    ErrorPrefix + env.stringifyString(message)
  }

  /** The response to a parsed request, and the statements it ran. */
  function Answer(env: Env, history: seq<Statement>, q: Query): (out: (string, seq<Statement>))
  {
    match q.sql
    case None => (ErrorResponse(env, env.missingSqlError), [])
    case Some(sql) =>
      var st := Statement(sql, q.params);
      if QueryType(sql) == Some("INSERT") then
        match env.sqlite(history, st)
        case Err(e) => (ErrorResponse(env, e), [st])
        case Ok(_) =>
          match env.sqlite(history + [st], LastInsertRowId)
          case Err(e) => (ErrorResponse(env, e), [st, LastInsertRowId])
          case Ok(rows) => (env.stringifyRows(rows), [st, LastInsertRowId])
      else
        match env.sqlite(history, st)
        case Err(e) => (ErrorResponse(env, e), [st])
        case Ok(rows) => (env.stringifyRows(rows), [st])
  }

  /** The handler's decision for a message, and the statements it ran. */
  function Respond(env: Env, history: seq<Statement>, message: string): (out: (Reply, seq<Statement>))
  {
    if message == "" then (Silent, [])
    else if message == StatusRequest then (Write(StatusResponse), [])
    else match env.parse(message)
      case Err(e) => (ParseThrow(e), [])
      case Ok(q) =>
        var (response, ran) := Answer(env, history, q);
        (Write(response), ran)
  }

  /** "status" gets exactly the OK line and touches no table. */
  lemma StatusReply(env: Env, history: seq<Statement>)
    ensures Respond(env, history, "status") == (Write("WPD db service: OK"), [])
  {
  }

  /** An INSERT that succeeds answers with the rows of the last-insert-rowid
      query, run right after it, not with its own result. */
  lemma InsertRepliesLastRowId(env: Env, history: seq<Statement>, message: string, sql: string, params: seq<string>)
    requires message != "" && message != "status"
    requires env.parse(message) == Ok(Query(Some(sql), params))
    requires QueryType(sql) == Some("INSERT")
    requires env.sqlite(history, Statement(sql, params)).Ok?
    requires env.sqlite(history + [Statement(sql, params)], LastInsertRowId).Ok?
    ensures Respond(env, history, message)
      == (Write(env.stringifyRows(env.sqlite(history + [Statement(sql, params)], LastInsertRowId).value)),
          [Statement(sql, params), LastInsertRowId])
  {
  }

  /** Any other kind, an unknown one included, answers with its own rows. */
  lemma OtherRepliesOwnRows(env: Env, history: seq<Statement>, message: string, sql: string, params: seq<string>)
    requires message != "" && message != "status"
    requires env.parse(message) == Ok(Query(Some(sql), params))
    requires QueryType(sql) != Some("INSERT")
    requires env.sqlite(history, Statement(sql, params)).Ok?
    ensures Respond(env, history, message)
      == (Write(env.stringifyRows(env.sqlite(history, Statement(sql, params)).value)), [Statement(sql, params)])
  {
  }

  /** Every answer to a parsed request is either the rows of one statement
      as JSON or an error line carrying the failure's message. */
  lemma AnswerIsRowsOrError(env: Env, history: seq<Statement>, q: Query)
    ensures || (exists rows :: Answer(env, history, q).0 == env.stringifyRows(rows))
            || (exists e :: Answer(env, history, q).0 == ErrorResponse(env, e))
  {
    match q.sql
    case None =>
      assert Answer(env, history, q).0 == ErrorResponse(env, env.missingSqlError);
    case Some(sql) =>
      if QueryType(sql) == Some("INSERT") {
        InsertAnswerIsRowsOrError(env, history, q, sql);
      } else {
        OtherAnswerIsRowsOrError(env, history, q, sql);
      }
  }

  /** The INSERT case: its own error, the row-id query's error, or the
      row-id query's rows. */
  lemma InsertAnswerIsRowsOrError(env: Env, history: seq<Statement>, q: Query, sql: string)
    requires q.sql == Some(sql) && QueryType(sql) == Some("INSERT")
    ensures || (exists rows :: Answer(env, history, q).0 == env.stringifyRows(rows))
            || (exists e :: Answer(env, history, q).0 == ErrorResponse(env, e))
  {
    var st := Statement(sql, q.params);
    var out := Answer(env, history, q).0;
    match env.sqlite(history, st)
    case Err(e) =>
      assert out == ErrorResponse(env, e);
    case Ok(_) =>
      match env.sqlite(history + [st], LastInsertRowId)
      case Err(e) =>
        assert out == ErrorResponse(env, e);
      case Ok(rows) =>
        assert out == env.stringifyRows(rows);
  }

  /** Any other case: the statement's own error or rows. */
  lemma OtherAnswerIsRowsOrError(env: Env, history: seq<Statement>, q: Query, sql: string)
    requires q.sql == Some(sql) && QueryType(sql) != Some("INSERT")
    ensures || (exists rows :: Answer(env, history, q).0 == env.stringifyRows(rows))
            || (exists e :: Answer(env, history, q).0 == ErrorResponse(env, e))
  {
    var out := Answer(env, history, q).0;
    match env.sqlite(history, Statement(sql, q.params))
    case Err(e) =>
      assert out == ErrorResponse(env, e);
    case Ok(rows) =>
      assert out == env.stringifyRows(rows);
  }

  /** Every failure behind the `try` becomes a written answer; a message
      that is not JSON is the one failure that escapes. */
  lemma OnlyParseFailureEscapes(env: Env, history: seq<Statement>, message: string)
    requires message != "" && message != "status"
    ensures env.parse(message).Err? <==> Respond(env, history, message).0.ParseThrow?
    ensures env.parse(message).Ok? <==> Respond(env, history, message).0.Write?
  {
  }

  /** The reply to a message that is empty: no write at all. */
  lemma EmptyMessageIsSilent(env: Env, history: seq<Statement>)
    ensures Respond(env, history, "") == (Silent, [])
  {
  }

  // ----- server state -------------------------------------------------------

  /** A client connection on the server side. */
  class ServerConnection {
    var written: seq<string>
    var closed: bool

    constructor ()
      ensures written == [] && !closed
    {
      written := [];
      closed := false;
    }
  }

  /** What Deno throws when a closed resource is closed again. */
  const BadResourceError := "BadResource: Bad resource ID"

  class Server {
    /** The socket path, fixed by the constructor. */
    const unixSocket: string
    var totalClients: int
    var hasListener: bool
    var listenerClosed: bool
    var listening: bool
    /** Whether a file exists at `unixSocket`. */
    var socketExists: bool
    var databaseDestroyed: bool
    /** Every statement the provider has run. */
    var history: seq<Statement>

    constructor (unixSocket: string, socketExists: bool)
      ensures this.unixSocket == unixSocket && this.socketExists == socketExists
      ensures totalClients == 0 && !hasListener && !listening && history == []
      ensures !listenerClosed && !databaseDestroyed
    {
      this.unixSocket := unixSocket;
      this.socketExists := socketExists;
      totalClients := 0;
      hasListener := false;
      listenerClosed := false;
      listening := false;
      databaseDestroyed := false;
      history := [];
    }

    /** `start`: a stale socket file is removed, then listening creates it. */
    method Start()
      modifies this
      ensures hasListener && socketExists && !listenerClosed
      ensures totalClients == old(totalClients) && listening == old(listening)
      ensures history == old(history) && databaseDestroyed == old(databaseDestroyed)
    {
      socketExists := false;
      hasListener := true;
      listenerClosed := false;
      socketExists := true;
    }

    /** `stop`: refused before `start`. The listener is never cleared, so a
        second `stop` closes a closed listener, which throws. Otherwise the
        listener is closed, the socket file removed and the database closed. */
    method Stop() returns (r: Result<()>)
      modifies this
      ensures !old(hasListener) ==> r == Err("Server is not started!") && unchanged(this)
      ensures old(hasListener) && old(listenerClosed) ==> r == Err(BadResourceError) && unchanged(this)
      ensures old(hasListener) && !old(listenerClosed) ==>
        && r == Ok(()) && listenerClosed && !socketExists && databaseDestroyed
        && hasListener && totalClients == old(totalClients) && listening == old(listening)
        && history == old(history)
    {
      if !hasListener {
        return Err("Server is not started!");
      }
      if listenerClosed {
        return Err(BadResourceError);
      }
      listenerClosed := true;
      socketExists := false;
      databaseDestroyed := true;
      r := Ok(());
    }

    /** The guards of `listen`: an already listening server returns at once
        (`Ok(false)`); one never started is refused; otherwise it starts
        listening (`Ok(true)`). The accept loop is not part of this model. */
    method Listen() returns (r: Result<bool>)
      modifies this
      ensures old(listening) ==> r == Ok(false) && unchanged(this)
      ensures !old(listening) && !hasListener ==> r == Err("Server is not started!") && unchanged(this)
      ensures !old(listening) && old(hasListener) ==>
        && r == Ok(true) && listening
        && totalClients == old(totalClients) && history == old(history)
        && hasListener == old(hasListener) && listenerClosed == old(listenerClosed)
        && socketExists == old(socketExists) && databaseDestroyed == old(databaseDestroyed)
    {
      if listening {
        return Ok(false);
      }
      if !hasListener {
        return Err("Server is not started!");
      }
      listening := true;
      r := Ok(true);
    }

    /** `handleConnection` as written: the counter goes up, the message is
        answered, the connection closed and the counter goes down, except
        when `JSON.parse` throws, which skips the close and the decrement. */
    method HandleConnection(conn: ServerConnection, message: string, env: Env) returns (r: Result<()>)
      modifies this, conn
      ensures var (reply, ran) := Respond(env, old(history), message);
        && history == old(history) + ran
        && (reply.ParseThrow? ==>
              && r == Err(reply.error) && totalClients == old(totalClients) + 1
              && conn.written == old(conn.written) && conn.closed == old(conn.closed))
        && (!reply.ParseThrow? ==>
              && r == Ok(()) && totalClients == old(totalClients) && conn.closed
              && conn.written == old(conn.written) + (if reply.Write? then [reply.response] else []))
      ensures hasListener == old(hasListener) && listening == old(listening)
      ensures listenerClosed == old(listenerClosed) && socketExists == old(socketExists)
      ensures databaseDestroyed == old(databaseDestroyed)
    {
      totalClients := totalClients + 1;
      var (reply, ran) := Respond(env, history, message);
      history := history + ran;
      if reply.ParseThrow? {
        return Err(reply.error);
      }
      if reply.Write? {
        conn.written := conn.written + [reply.response];
      }
      conn.closed := true;
      totalClients := totalClients - 1;
      r := Ok(());
    }

    /** `handleConnection` with the parse inside the `try`: every message is
        answered, every connection closed, and the counter restored. */
    method HandleConnectionFixed(conn: ServerConnection, message: string, env: Env)
      modifies this, conn
      ensures var (reply, ran) := RespondFixed(env, old(history), message);
        && history == old(history) + ran
        && totalClients == old(totalClients) && conn.closed
        && conn.written == old(conn.written) + (if reply.Write? then [reply.response] else [])
      ensures hasListener == old(hasListener) && listening == old(listening)
      ensures listenerClosed == old(listenerClosed) && socketExists == old(socketExists)
      ensures databaseDestroyed == old(databaseDestroyed)
    {
      totalClients := totalClients + 1;
      var (reply, ran) := RespondFixed(env, history, message);
      history := history + ran;
      if reply.Write? {
        conn.written := conn.written + [reply.response];
      }
      conn.closed := true;
      totalClients := totalClients - 1;
    }
  }

  /** The lifecycle of one server: `start` then `stop` succeeds and leaves no
      socket file and a closed database; a second `stop` throws; a new
      `start` makes the server stoppable again. */
  method StartStopCycle(unixSocket: string, socketExists: bool)
    returns (first: Result<()>, second: Result<()>, socketLeft: bool, restarted: Result<()>)
    ensures first == Ok(()) && !socketLeft
    ensures second == Err(BadResourceError)
    ensures restarted == Ok(())
  {
    var server := new Server(unixSocket, socketExists);
    server.Start();
    first := server.Stop();
    socketLeft := server.socketExists;
    second := server.Stop();
    server.Start();
    restarted := server.Stop();
  }

  /** `Respond` with a parse failure answered like any other failure. */
  function RespondFixed(env: Env, history: seq<Statement>, message: string): (out: (Reply, seq<Statement>))
    ensures !out.0.ParseThrow?
  {
    match Respond(env, history, message)
    case (ParseThrow(e), ran) => (Write(ErrorResponse(env, e)), ran)
    case other => other
  }

  /** The client count after one connection, as written. */
  function ClientsAfter(env: Env, history: seq<Statement>, message: string, clients: int): int {
    if Respond(env, history, message).0.ParseThrow? then clients + 1 else clients
  }

  /** A message that is not JSON leaves the counter raised for good: starting
      from an idle server, one such message keeps `totalClients > 0`, which is
      the condition the accept loop waits on before serving the next client. */
  lemma NonJsonMessageWedgesServer(env: Env, history: seq<Statement>, message: string)
    requires message != "" && message != "status" && env.parse(message).Err?
    ensures ClientsAfter(env, history, message, 0) == 1
  {
  }

  /** With the parse inside the try, a malformed message gets the error line
      back and leaves nothing raised; every other message is answered as
      before. */
  lemma FixedAnswersEveryMessage(env: Env, history: seq<Statement>, message: string)
    ensures message != "" ==> RespondFixed(env, history, message).0.Write?
    ensures message != "" && message != "status" && env.parse(message).Err? ==>
      RespondFixed(env, history, message).0 == Write(ErrorPrefix + env.stringifyString(env.parse(message).error))
    ensures !Respond(env, history, message).0.ParseThrow? ==>
      RespondFixed(env, history, message) == Respond(env, history, message)
  {
  }
}
