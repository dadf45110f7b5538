/** `MysqliConnection`: the transaction marker, the parse cache and the
    path of a statement from text to the driver. The pure functions below
    say what each operation does to the connection's state; the class
    carries that state in fields and is proved against them. */
module Connection {
  import opened Wrappers
  import opened Values
  import opened Errors
  import opened Classifier
  import opened Ddl
  import opened Statements
  import opened Driver

  /** The state an operation depends on and changes: the parse cache, the
      transaction marker (the origin trace of the open transaction, or
      None) and the calls made on the link so far. */
  datatype Conn = Conn(parsed: Cache, marker: Option<string>, log: seq<Call>)

  /** A state change that succeeds or throws. */
  datatype Moved = Moved(after: Conn, outcome: Outcome<Throwable>)

  /** A state change that returns a value or throws. */
  datatype Step<T> = Step(after: Conn, result: Result<T, Throwable>)

  /** What `query` hands back: `true` for a statement without a result set,
      or the result set's rows. */
  datatype QueryResult = Done | Cursor(rows: seq<Record>)

  /** MYSQLI_STORE_RESULT, the mode `query` uses. */
  const StoreResult: int := 0

  /** A control call on the link whose return value is ignored: it fails
      only when the link throws. */
  function Control(respond: Script, k: Conn, c: Call): (m: Moved)
    ensures m.after == k.(log := k.log + [c])
    ensures m.outcome.Fail? <==> respond(k.log, c).Raise?
  {
    var k1 := k.(log := k.log + [c]);
    match respond(k.log, c)
    case Raise(msg, code) => Moved(k1, Fail(DriverError(msg, code)))
    case _ => Moved(k1, Pass)
  }

  /** `begin()`: refused while a transaction is open; otherwise the
      marker is set first and autocommit is then switched off. */
  function BeginStep(respond: Script, k: Conn, trace: string): Moved
  {
    if k.marker.Some? then Moved(k, Fail(AlreadyStarted(k.marker.value)))
    else Control(respond, k.(marker := Some(trace)), Autocommit(false))
  }

  /** `commit()` and `rollback()`: refused without an open transaction;
      otherwise the driver call, then autocommit back on, then the marker
      is cleared. A throw from the link stops the sequence where it is. */
  function FinishStep(respond: Script, k: Conn, c: Call, idle: Throwable): Moved
  {
    if k.marker.None? then Moved(k, Fail(idle))
    else
      var m1 := Control(respond, k, c);
      if m1.outcome.Fail? then m1
      else
        var m2 := Control(respond, m1.after, Autocommit(true));
        if m2.outcome.Fail? then m2
        else Moved(m2.after.(marker := None), Pass)
  }

  function CommitStep(respond: Script, k: Conn): Moved
  {
    FinishStep(respond, k, Commit, NoTransactionToCommit)
  }

  function RollbackStep(respond: Script, k: Conn): Moved
  {
    FinishStep(respond, k, Rollback, NoTransactionToRollback)
  }

  /** `queryOpt($statement, $options, ...$params)`: the SQL text is made, the
      DDL guard runs on it, and only then is the query sent; a `false` from
      the driver becomes `createException(error, errno)`. */
  function QueryStep(respond: Script, parser: Parser, formatter: Formatter, k: Conn,
                     st: Statement, options: int, params: seq<Value>): Step<QueryResult>
  {
    var s := StatementSql(parser, formatter, k.parsed, st, params);
    var k0 := k.(parsed := s.cache);
    match s.result
    case Failure(e) => Step(k0, Failure(e))
    case Success(sql) =>
      match PreventDdlInTransaction(k.marker, sql)
      case Fail(e) => Step(k0, Failure(e))
      case Pass =>
        var k1 := k0.(log := k.log + [Query(sql, options)]);
        match respond(k.log, Query(sql, options))
        case Refused(error, errno) => Step(k1, Failure(Mysql(CreateException(error, errno))))
        case Raise(msg, code) => Step(k1, Failure(DriverError(msg, code)))
        case Rows(rs) => Step(k1, Success(Cursor(rs)))
        case Ack => Step(k1, Success(Done))
  }

  // ----- the transaction marker -----

  /** `begin` while a transaction is open throws with the open
      transaction's trace and changes nothing. */
  lemma BeginWhileOpen(respond: Script, k: Conn, trace: string)
    requires k.marker.Some?
    ensures BeginStep(respond, k, trace) == Moved(k, Fail(AlreadyStarted(k.marker.value)))
  {
  }

  /** `begin` from Idle sets the marker and switches autocommit off; the
      marker is set before the driver call, so it stays set even when the
      driver throws. */
  lemma BeginFromIdle(respond: Script, k: Conn, trace: string)
    requires k.marker.None?
    ensures BeginStep(respond, k, trace).after ==
            k.(marker := Some(trace), log := k.log + [Autocommit(false)])
    ensures BeginStep(respond, k, trace).outcome.Fail? <==> respond(k.log, Autocommit(false)).Raise?
  {
  }

  /** `commit` and `rollback` without an open transaction throw "No active
      transaction to …" and change nothing. */
  lemma FinishWhenIdle(respond: Script, k: Conn)
    requires k.marker.None?
    ensures CommitStep(respond, k) == Moved(k, Fail(NoTransactionToCommit))
    ensures RollbackStep(respond, k) == Moved(k, Fail(NoTransactionToRollback))
  {
  }

  /** With an open transaction: the driver call `c`, then autocommit on,
      then the marker is cleared. The marker is cleared exactly when both
      calls went through; a throw keeps it and stops the sequence. */
  lemma FinishWhenOpen(respond: Script, k: Conn, c: Call, idle: Throwable)
    requires k.marker.Some?
    ensures var m := FinishStep(respond, k, c, idle);
            var first := respond(k.log, c);
            var second := respond(k.log + [c], Autocommit(true));
            && m.after.parsed == k.parsed
            && (m.outcome.Pass? <==> !first.Raise? && !second.Raise?)
            && (m.outcome.Pass? ==> m.after == k.(marker := None, log := k.log + [c, Autocommit(true)]))
            && (first.Raise? ==> m == Moved(k.(log := k.log + [c]), Fail(DriverError(first.message, first.code))))
            && (!first.Raise? && second.Raise? ==>
                  m == Moved(k.(log := k.log + [c, Autocommit(true)]), Fail(DriverError(second.message, second.code))))
  {
    assert k.log + [c] + [Autocommit(true)] == k.log + [c, Autocommit(true)];
  }

  /** The marker is a two-state machine: after a `begin` that made it
      through, a second `begin` throws and changes nothing. */
  lemma BeginTwice(respond: Script, k: Conn, trace: string, trace2: string)
    requires k.marker.None?
    ensures var b := BeginStep(respond, k, trace);
            BeginStep(respond, b.after, trace2) == Moved(b.after, Fail(AlreadyStarted(trace)))
  {
  }

  /** On a link that never throws, `begin` then `commit` (or `rollback`)
      from Idle succeed, return to Idle and make exactly the three calls
      autocommit off, commit (rollback), autocommit on. */
  lemma TransactionRoundTrip(respond: Script, k: Conn, trace: string)
    requires Reliable(respond)
    requires k.marker.None?
    ensures var b := BeginStep(respond, k, trace);
            && b.outcome.Pass?
            && CommitStep(respond, b.after) == Moved(k.(log := k.log + [Autocommit(false), Commit, Autocommit(true)]), Pass)
            && RollbackStep(respond, b.after) == Moved(k.(log := k.log + [Autocommit(false), Rollback, Autocommit(true)]), Pass)
  {
    var b := BeginStep(respond, k, trace);
    assert !respond(k.log, Autocommit(false)).Raise?;
    assert b.after.log == k.log + [Autocommit(false)];
    FinishWhenOpen(respond, b.after, Commit, NoTransactionToCommit);
    FinishWhenOpen(respond, b.after, Rollback, NoTransactionToRollback);
    assert !respond(b.after.log, Commit).Raise?;
    assert !respond(b.after.log + [Commit], Autocommit(true)).Raise?;
    assert !respond(b.after.log, Rollback).Raise?;
    assert !respond(b.after.log + [Rollback], Autocommit(true)).Raise?;
    assert b.after.log + [Commit, Autocommit(true)] == k.log + [Autocommit(false), Commit, Autocommit(true)];
    assert b.after.log + [Rollback, Autocommit(true)] == k.log + [Autocommit(false), Rollback, Autocommit(true)];
  }

  // ----- queries -----

  /** Inside a transaction a DDL statement is refused with "DDL inside
      transaction" before anything is sent: the link's log is unchanged. */
  lemma GuardBlocksQuery(respond: Script, parser: Parser, formatter: Formatter, k: Conn,
                         st: Statement, options: int, params: seq<Value>)
    requires var s := StatementSql(parser, formatter, k.parsed, st, params);
             s.result.Success? && k.marker.Some? && IsDdl(s.result.value)
    ensures QueryStep(respond, parser, formatter, k, st, options, params) ==
            Step(k.(parsed := StatementSql(parser, formatter, k.parsed, st, params).cache), Failure(DdlInsideTransaction))
  {
  }

  /** Once the guard lets a statement through, exactly one query with that
      text is sent, and its reply decides the result: `false` becomes
      `createException(error, errno)`. */
  lemma QuerySent(respond: Script, parser: Parser, formatter: Formatter, k: Conn,
                  st: Statement, options: int, params: seq<Value>)
    requires var s := StatementSql(parser, formatter, k.parsed, st, params);
             s.result.Success? && PreventDdlInTransaction(k.marker, s.result.value).Pass?
    ensures var s := StatementSql(parser, formatter, k.parsed, st, params);
            var q := QueryStep(respond, parser, formatter, k, st, options, params);
            var reply := respond(k.log, Query(s.result.value, options));
            && q.after == Conn(s.cache, k.marker, k.log + [Query(s.result.value, options)])
            && (reply.Refused? ==> q.result == Failure(Mysql(CreateException(reply.error, reply.errno))))
            && (reply.Raise? ==> q.result == Failure(DriverError(reply.message, reply.code)))
            && (reply.Rows? ==> q.result == Success(Cursor(reply.records)))
            && (reply.Ack? ==> q.result == Success(Done))
  {
  }

  /** A PlainNode is sent as it is: the parameters and the formatter play
      no part and the cache is untouched. */
  lemma PlainNodeQuery(respond: Script, parser: Parser, formatter: Formatter, formatter2: Formatter,
                       k: Conn, sql: string, options: int, params: seq<Value>, params2: seq<Value>)
    ensures QueryStep(respond, parser, formatter, k, Given(PlainNode(sql)), options, params) ==
            QueryStep(respond, parser, formatter2, k, Given(PlainNode(sql)), options, params2)
    ensures QueryStep(respond, parser, formatter, k, Given(PlainNode(sql)), options, params).after.parsed == k.parsed
  {
  }

  /** A query never touches the marker and keeps the cache valid. */
  lemma QueryKeepsState(respond: Script, parser: Parser, formatter: Formatter, k: Conn,
                        st: Statement, options: int, params: seq<Value>)
    requires CacheValid(k.parsed)
    ensures QueryStep(respond, parser, formatter, k, st, options, params).after.marker == k.marker
    ensures CacheValid(QueryStep(respond, parser, formatter, k, st, options, params).after.parsed)
  {
    StatementSqlKeepsValid(parser, formatter, k.parsed, st, params);
  }

  class MysqliConnection {
    const link: Link
    const parser: Parser
    const formatter: Formatter
    var parsed: Cache
    var inTransaction: Option<string>

    /** The connection's state as the pure functions see it. */
    ghost function State(): Conn
      reads this, link
    {
      Conn(parsed, inTransaction, link.log)
    }

    constructor(link: Link, parser: Parser, formatter: Formatter)
      ensures this.link == link && this.parser == parser && this.formatter == formatter
      ensures parsed == [] && inTransaction == None
    {
      this.link := link;
      this.parser := parser;
      this.formatter := formatter;
      parsed := [];
      inTransaction := None;
    }

    method Begin(trace: string) returns (o: Outcome<Throwable>)
      modifies this, link
      ensures Moved(State(), o) == BeginStep(link.respond, old(State()), trace)
    {
      if inTransaction.Some? {
        return Fail(AlreadyStarted(inTransaction.value));
      }
      inTransaction := Some(trace);
      var r := link.Send(Autocommit(false));
      if r.Raise? {
        return Fail(DriverError(r.message, r.code));
      }
      return Pass;
    }

    /** The driver call of `commit`/`rollback` and the autocommit that
      follows it; the marker is cleared only when both went through. */
    method Finish(c: Call, idle: Throwable) returns (o: Outcome<Throwable>)
      modifies this, link
      ensures Moved(State(), o) == FinishStep(link.respond, old(State()), c, idle)
    {
      if inTransaction.None? {
        return Fail(idle);
      }
      var r := link.Send(c);
      if r.Raise? {
        return Fail(DriverError(r.message, r.code));
      }
      r := link.Send(Autocommit(true));
      if r.Raise? {
        return Fail(DriverError(r.message, r.code));
      }
      inTransaction := None;
      return Pass;
    }

    method Commit() returns (o: Outcome<Throwable>)
      modifies this, link
      ensures Moved(State(), o) == CommitStep(link.respond, old(State()))
    {
      o := Finish(Driver.Commit, NoTransactionToCommit);
    }

    method Rollback() returns (o: Outcome<Throwable>)
      modifies this, link
      ensures Moved(State(), o) == RollbackStep(link.respond, old(State()))
    {
      o := Finish(Driver.Rollback, NoTransactionToRollback);
    }

    /** The cache lookup and update of `parse`. */
    method Parse(text: string) returns (r: Result<Node, Throwable>)
      modifies this
      ensures Cached(parsed, r) == Statements.Parse(parser, old(parsed), text)
      ensures inTransaction == old(inTransaction)
    {
      var hit := Find(parsed, text);
      if hit.Some? {
        return Success(hit.value);
      }
      if |parsed| > Threshold {
        parsed := parsed[1..];
      }
      var p := parser(text);
      if p.Failure? {
        return Failure(ParserError(p.error));
      }
      parsed := parsed + [(text, p.value)];
      return Success(p.value);
    }

    method Prepare(text: string) returns (r: Result<Node, Throwable>)
      modifies this
      ensures Cached(parsed, r) == Statements.Prepare(parser, old(parsed), text)
      ensures inTransaction == old(inTransaction)
    {
      if HasPlaceholder(text) {
        r := Parse(text);
        return;
      }
      return Success(PlainNode(text));
    }

    method Build(st: Statement, params: seq<Value>) returns (r: Result<Node, Throwable>)
      modifies this
      ensures Cached(parsed, r) == Statements.Build(parser, formatter, old(parsed), st, params)
      ensures inTransaction == old(inTransaction)
    {
      var node: Node;
      match st {
        case Given(n) =>
          node := n;
        case Text(t) =>
          if HasPlaceholder(t) {
            var p := Prepare(t);
            if p.Failure? {
              return Failure(p.error);
            }
            node := p.value;
          } else {
            node := PlainNode(t);
          }
      }
      var f := formatter(node, params);
      if f.Failure? {
        return Failure(FormatterError(f.error));
      }
      return Success(PlainNode(f.value));
    }

    method QueryOpt(st: Statement, options: int, params: seq<Value>) returns (r: Result<QueryResult, Throwable>)
      modifies this, link
      ensures Step(State(), r) == QueryStep(link.respond, parser, formatter, old(State()), st, options, params)
    {
      var sql: string;
      if st.Given? && st.node.PlainNode? {
        sql := st.node.sql;
      } else {
        var b := Build(st, params);
        if b.Failure? {
          return Failure(b.error);
        }
        sql := b.value.sql;
      }
      var guard := PreventDdlInTransaction(inTransaction, sql);
      if guard.Fail? {
        return Failure(guard.error);
      }
      var reply := link.Send(Driver.Query(sql, options));
      match reply {
        case Refused(error, errno) =>
          r := Failure(Mysql(CreateException(error, errno)));
        case Raise(msg, code) =>
          r := Failure(DriverError(msg, code));
        case Rows(rs) =>
          r := Success(Cursor(rs));
        case Ack =>
          r := Success(Done);
      }
    }

    method Query(st: Statement, params: seq<Value>) returns (r: Result<QueryResult, Throwable>)
      modifies this, link
      ensures Step(State(), r) == QueryStep(link.respond, parser, formatter, old(State()), st, StoreResult, params)
    {
      r := QueryOpt(st, StoreResult, params);
    }
  }
}
