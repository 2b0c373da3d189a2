/** The database client: it connects to the service's Unix socket, sends one
    JSON request per connection, closes the connection whatever happens, and
    turns the service's error line into a thrown error. The socket's
    existence, the write-then-read exchange and JSON are parameters. */
module DatabaseClient {
  import opened Wrappers
  import opened JsString
  import DatabaseServer

  /** The prefix the client treats as an error; it has no trailing space. */
  const ClientErrorPrefix := "WPD db service: unexpected error:"

  function NoSocketError(unixSocket: string): string {
    "Database client cannot connect to server! Unix socket does not exist: " + unixSocket
  }

  /** What writing the request and reading the reply produced: a thrown
      error, or the reply text. */
  datatype Exchange = Failed(error: string) | Reply(text: string)

  /** The outcome of `request` for one exchange: an error reply is thrown as
      it is, any other reply goes through `JSON.parse`. */
  function Outcome<J>(exchange: Exchange, parse: string -> Result<J>): (r: Result<J>)
    ensures exchange.Failed? ==> r == Err(exchange.error)
    ensures exchange.Reply? && StartsWith(exchange.text, ClientErrorPrefix) ==> r == Err(exchange.text)
    ensures exchange.Reply? && !StartsWith(exchange.text, ClientErrorPrefix) ==> r == parse(exchange.text)
  {
    match exchange
    case Failed(e) => Err(e)
    case Reply(text) => if StartsWith(text, ClientErrorPrefix) then Err(text) else parse(text)
  }

  /** One Unix-socket connection as the client sees it. */
  class Connection {
    var sent: seq<string>
    var closeCount: nat

    constructor ()
      ensures sent == [] && closeCount == 0
    {
      sent := [];
      closeCount := 0;
    }
  }

  class Client {
    const unixSocket: string

    constructor (unixSocket: string)
      ensures this.unixSocket == unixSocket
    {
      this.unixSocket := unixSocket;
    }

    /** `connect`: refused when no file exists at the socket path. */
    method Connect(socketExists: bool) returns (r: Result<Connection>)
      ensures !socketExists <==> r.Err?
      ensures r.Err? ==> r.error == NoSocketError(unixSocket)
      ensures r.Ok? ==> fresh(r.value) && r.value.sent == [] && r.value.closeCount == 0
    {
      if !socketExists {
        return Err(NoSocketError(unixSocket));
      }
      var conn := new Connection();
      r := Ok(conn);
    }

    /** `request`: the query is written unless the exchange failed before,
        the connection is closed exactly once on every path, then the
        outcome is returned. */
    method Request<J>(conn: Connection, query: string, exchange: Exchange, parse: string -> Result<J>)
      returns (r: Result<J>)
      modifies conn
      ensures r == Outcome(exchange, parse)
      ensures conn.closeCount == old(conn.closeCount) + 1
      ensures conn.sent == old(conn.sent) + (if exchange.Reply? then [query] else [])
    {
      var thrown: Option<string> := None;
      var response: Option<string> := None;
      match exchange {
        case Failed(e) =>
          thrown := Some(e);
        case Reply(text) =>
          conn.sent := conn.sent + [query];
          if StartsWith(text, ClientErrorPrefix) {
            thrown := Some(text);
          } else {
            response := Some(text);
          }
      }
      conn.closeCount := conn.closeCount + 1;
      if thrown.Some? {
        return Err(thrown.value);
      }
      if response.None? {
        return Err("Response for query is undefined! Query: " + query);
      }
      r := parse(response.value);
    }

    /** `query`: a fresh connection per request; nothing is sent when the
        socket is missing. */
    method Query<J>(q: DatabaseServer.Query, stringify: DatabaseServer.Query -> string, socketExists: bool,
                    exchange: Exchange, parse: string -> Result<J>)
      returns (r: Result<J>, conn: Option<Connection>)
      ensures !socketExists ==> r == Err(NoSocketError(unixSocket)) && conn.None?
      ensures socketExists ==> r == Outcome(exchange, parse) && conn.Some?
      ensures conn.Some? ==>
        && fresh(conn.value) && conn.value.closeCount == 1
        && conn.value.sent == (if exchange.Reply? then [stringify(q)] else [])
    {
      var c := Connect(socketExists);
      if c.Err? {
        return Err(c.error), None;
      }
      r := Request(c.value, stringify(q), exchange, parse);
      conn := Some(c.value);
    }
  }

  /** Every error line the service writes is recognised by the client. */
  lemma ServiceErrorIsRecognised(e: string)
    ensures StartsWith(DatabaseServer.ErrorPrefix + e, ClientErrorPrefix)
  {
    assert (DatabaseServer.ErrorPrefix + e)[..|ClientErrorPrefix|] == ClientErrorPrefix;
  }

  /** End to end: a request the service fails on reaches the caller as an
      error carrying the service's whole error line. */
  lemma FailedStatementReachesClient<J>(env: DatabaseServer.Env, history: seq<DatabaseServer.Statement>,
                                        q: DatabaseServer.Query, stringify: DatabaseServer.Query -> string,
                                        parse: string -> Result<J>, e: string)
    requires stringify(q) != "" && stringify(q) != "status"
    requires env.parse(stringify(q)) == Ok(q)
    requires q.sql.Some?
    requires DatabaseServer.QueryType(q.sql.value) != Some("INSERT")
    requires env.sqlite(history, DatabaseServer.Statement(q.sql.value, q.params)) == Err(e)
    ensures var reply := DatabaseServer.Respond(env, history, stringify(q)).0;
      && reply.Write?
      && Outcome(Reply(reply.response), parse) == Err(DatabaseServer.ErrorResponse(env, e))
  {
    ServiceErrorIsRecognised(env.stringifyString(e));
  }

  /** End to end: rows the service returns reach the caller as parsed by
      `JSON.parse`, provided the rows' JSON cannot be mistaken for an error
      line. */
  lemma RowsReachClient<J>(env: DatabaseServer.Env, history: seq<DatabaseServer.Statement>,
                           q: DatabaseServer.Query, stringify: DatabaseServer.Query -> string,
                           parse: string -> Result<J>)
    requires stringify(q) != "" && stringify(q) != "status"
    requires env.parse(stringify(q)) == Ok(q)
    requires q.sql.Some?
    requires DatabaseServer.QueryType(q.sql.value) != Some("INSERT")
    requires env.sqlite(history, DatabaseServer.Statement(q.sql.value, q.params)).Ok?
    requires forall rows :: !StartsWith(env.stringifyRows(rows), ClientErrorPrefix)
    ensures var reply := DatabaseServer.Respond(env, history, stringify(q)).0;
      && reply.Write?
      && Outcome(Reply(reply.response), parse)
         == parse(env.stringifyRows(env.sqlite(history, DatabaseServer.Statement(q.sql.value, q.params)).value))
  {
  }
}
