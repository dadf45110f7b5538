/** `MyTransaction`: a unit of work run between `begin` and `commit`, with
    `rollback` and rethrow when anything in between throws, and a counted
    retry loop around that. The unit of work is a script of outcomes: the
    n-th call (counted from 0) returns or throws as the script says. */
module Transaction {
  import opened Wrappers
  import opened Values
  import opened Errors
  import opened Driver
  import opened Connection

  datatype WorkOutcome = Returns(value: Value) | Throws(error: Throwable)

  /** The outcome of each call of the callable, by call number. */
  type Work = nat -> WorkOutcome

  /** How one bracketed attempt ended. */
  datatype AttemptEnd =
    | BeginFailed(error: Throwable)     // `begin` threw: no work, no rollback
    | Committed(value: Value)           // the work returned and `commit` went through
    | RolledBack(error: Throwable)      // the work or `commit` threw, `rollback` went through
    | RollbackFailed(error: Throwable)  // `rollback` threw as well

  datatype Attempted = Attempted(after: Conn, end: AttemptEnd)

  /** The `catch` block: roll back, then rethrow `e`; a throw from
      `rollback` replaces it. */
  function RollbackAfter(respond: Script, k: Conn, e: Throwable): Attempted
  {
    var r := RollbackStep(respond, k);
    Attempted(r.after, if r.outcome.Fail? then RollbackFailed(r.outcome.error) else RolledBack(e))
  }

  /** One run of the body of `run`: `begin` outside the `try`; the work and
      `commit` inside it. */
  function AttemptStep(respond: Script, k: Conn, outcome: WorkOutcome, trace: string): Attempted
  {
    var b := BeginStep(respond, k, trace);
    if b.outcome.Fail? then Attempted(b.after, BeginFailed(b.outcome.error))
    else
      match outcome
      case Throws(e) => RollbackAfter(respond, b.after, e)
      case Returns(v) =>
        var c := CommitStep(respond, b.after);
        if c.outcome.Pass? then Attempted(c.after, Committed(v))
        else RollbackAfter(respond, c.after, c.outcome.error)
  }

  /** What `run` returns or throws. */
  function RunResult(end: AttemptEnd): Result<Value, Throwable>
  {
    match end
    case Committed(v) => Success(v)
    case BeginFailed(e) => Failure(e)
    case RolledBack(e) => Failure(e)
    case RollbackFailed(e) => Failure(e)
  }

  /** The connection, the counts of work calls and of sleeps, and the
      result when `runRetry` is done. */
  datatype Trial = Trial(after: Conn, calls: nat, sleeps: nat, result: Result<Value, Throwable>)

  /** `runRetry($n, $d)` from loop index `i` (the loop starts at -1 and
      runs while `i < n`): a commit ends the loop, a throw from `begin` or
      `rollback` escapes it, a rolled-back attempt sleeps (when `d > 0`)
      and goes round again unless it was the last one, which rethrows. */
  function RetryFrom(respond: Script, work: Work, trace: string, n: int, d: int,
                     i: int, k: Conn, calls: nat, sleeps: nat): Trial
    decreases n - i
  {
    if i >= n then Trial(k, calls, sleeps, Success(Null))
    else
      var a := AttemptStep(respond, k, work(calls), trace);
      match a.end
      case BeginFailed(e) => Trial(a.after, calls, sleeps, Failure(e))
      case Committed(v) => Trial(a.after, calls + 1, sleeps, Success(v))
      case RollbackFailed(e) => Trial(a.after, calls + 1, sleeps, Failure(e))
      case RolledBack(e) =>
        if i < n - 1 then
          RetryFrom(respond, work, trace, n, d, i + 1, a.after, calls + 1, if d > 0 then sleeps + 1 else sleeps)
        else Trial(a.after, calls + 1, sleeps, Failure(e))
  }

  function Retry(respond: Script, work: Work, trace: string, n: int, d: int, k: Conn, calls: nat, sleeps: nat): Trial
  {
    RetryFrom(respond, work, trace, n, d, -1, k, calls, sleeps)
  }

  /** The calls a committed attempt makes on the link. */
  const CommittedCalls: seq<Call> := [Autocommit(false), Commit, Autocommit(true)]

  /** The calls a rolled-back attempt makes on the link. */
  const RolledBackCalls: seq<Call> := [Autocommit(false), Rollback, Autocommit(true)]

  function Repeat(s: seq<Call>, n: nat): seq<Call>
  {
    if n == 0 then [] else s + Repeat(s, n - 1)
  }

  function Min(a: int, b: int): int
  {
    if a < b then a else b
  }

  // ----- run -----

  /** When `begin` throws, the work is not called and no rollback is
      tried: the state is the one `begin` left. From Idle that means the
      marker stays set, because `begin` sets it before the driver call. */
  lemma BeginFailureSkipsWork(respond: Script, k: Conn, outcome: WorkOutcome, trace: string)
    requires BeginStep(respond, k, trace).outcome.Fail?
    ensures AttemptStep(respond, k, outcome, trace) ==
            Attempted(BeginStep(respond, k, trace).after, BeginFailed(BeginStep(respond, k, trace).outcome.error))
    ensures k.marker.None? ==> AttemptStep(respond, k, outcome, trace).after.marker == Some(trace)
  {
  }

  /** Whatever throws inside the `try` is rethrown after a rollback: the
      work's exception, or the commit's; a failing rollback's own
      exception takes its place. A rollback that goes through leaves no
      transaction open, so a second one would throw. */
  lemma FailureRollsBack(respond: Script, k: Conn, outcome: WorkOutcome, trace: string)
    requires BeginStep(respond, k, trace).outcome.Pass?
    ensures var b := BeginStep(respond, k, trace);
            var a := AttemptStep(respond, k, outcome, trace);
            && (outcome.Throws? ==> a == RollbackAfter(respond, b.after, outcome.error))
            && (outcome.Returns? && CommitStep(respond, b.after).outcome.Fail? ==>
                  a == RollbackAfter(respond, CommitStep(respond, b.after).after, CommitStep(respond, b.after).outcome.error))
            && (a.end.RolledBack? ==> a.after.marker.None?)
            && (a.end.RolledBack? ==> RollbackStep(respond, a.after).outcome.Fail?)
  {
  }

  /** From Idle, an attempt that commits or rolls back leaves the
      connection Idle again, and its calls on the link are bracketed by
      autocommit off and on. */
  lemma AttemptReturnsToIdle(respond: Script, k: Conn, outcome: WorkOutcome, trace: string)
    requires k.marker.None?
    ensures var a := AttemptStep(respond, k, outcome, trace);
            (a.end.Committed? || a.end.RolledBack?) ==>
              a.after.marker.None? && a.after.parsed == k.parsed &&
              |a.after.log| >= |k.log| + 3 &&
              a.after.log[..|k.log| + 1] == k.log + [Autocommit(false)] &&
              a.after.log[|a.after.log| - 1] == Autocommit(true)
  {
    var b := BeginStep(respond, k, trace);
    var a := AttemptStep(respond, k, outcome, trace);
    if a.end.Committed? || a.end.RolledBack? {
      assert b.after.log == k.log + [Autocommit(false)];
      var c := CommitStep(respond, b.after);
      if outcome.Returns? {
        FinishWhenOpen(respond, b.after, Commit, NoTransactionToCommit);
        if c.outcome.Fail? {
          FinishWhenOpen(respond, c.after, Rollback, NoTransactionToRollback);
        }
      } else {
        FinishWhenOpen(respond, b.after, Rollback, NoTransactionToRollback);
      }
      assert a.after.log[..|k.log| + 1] == k.log + [Autocommit(false)];
    }
  }

  /** On a link that never throws, from Idle: a returning work is
      committed and its value returned, a throwing one rolled back and its
      exception rethrown; either way the connection is Idle again. */
  lemma ReliableAttempt(respond: Script, k: Conn, outcome: WorkOutcome, trace: string)
    requires Reliable(respond)
    requires k.marker.None?
    ensures AttemptStep(respond, k, outcome, trace) ==
            match outcome
            case Returns(v) => Attempted(k.(log := k.log + CommittedCalls), Committed(v))
            case Throws(e) => Attempted(k.(log := k.log + RolledBackCalls), RolledBack(e))
  {
    TransactionRoundTrip(respond, k, trace);
  }

  // ----- runRetry -----

  /** With a negative count the loop never runs: no work, no calls on the
      link, and null is returned. */
  lemma NegativeCountDoesNothing(respond: Script, work: Work, trace: string, n: int, d: int,
                                 k: Conn, calls: nat, sleeps: nat)
    requires n < 0
    ensures Retry(respond, work, trace, n, d, k, calls, sleeps) == Trial(k, calls, sleeps, Success(Null))
  {
  }

  /** `runRetry(0)` is `run`. */
  lemma RetryZeroIsRun(respond: Script, work: Work, trace: string, d: int, k: Conn, calls: nat, sleeps: nat)
    ensures var a := AttemptStep(respond, k, work(calls), trace);
            var t := Retry(respond, work, trace, 0, d, k, calls, sleeps);
            && t.after == a.after
            && t.result == RunResult(a.end)
            && t.sleeps == sleeps
            && t.calls == if a.end.BeginFailed? then calls else calls + 1
  {
  }

  /** The work is called at most n + 1 times, and there are at most n
      sleeps, never more than the failed calls before them, and none when
      the delay is not positive. */
  lemma {:induction false} RetryBounds(respond: Script, work: Work, trace: string, n: int, d: int,
                                       i: int, k: Conn, calls: nat, sleeps: nat)
    requires -1 <= i
    ensures var t := RetryFrom(respond, work, trace, n, d, i, k, calls, sleeps);
            && calls <= t.calls <= calls + Max0(n - i)
            && sleeps <= t.sleeps <= sleeps + Max0(n - i - 1)
            && t.sleeps - sleeps <= t.calls - calls
            && (d <= 0 ==> t.sleeps == sleeps)
    decreases n - i
  {
    if i < n {
      var a := AttemptStep(respond, k, work(calls), trace);
      if a.end.RolledBack? && i < n - 1 {
        RetryBounds(respond, work, trace, n, d, i + 1, a.after, calls + 1, if d > 0 then sleeps + 1 else sleeps);
      }
    }
  }

  function Max0(a: int): nat
  {
    if a < 0 then 0 else a
  }

  /** A commit ends the loop at once: the value is returned. */
  lemma RetryStopsAtSuccess(respond: Script, work: Work, trace: string, n: int, d: int,
                            i: int, k: Conn, calls: nat, sleeps: nat)
    requires i < n
    requires AttemptStep(respond, k, work(calls), trace).end.Committed?
    ensures RetryFrom(respond, work, trace, n, d, i, k, calls, sleeps) ==
            Trial(AttemptStep(respond, k, work(calls), trace).after, calls + 1, sleeps,
                  Success(AttemptStep(respond, k, work(calls), trace).end.value))
  {
  }

  /** On a link that never throws and from Idle, with work that throws
      `m` times and then returns: `runRetry(n, d)` returns the value
      exactly when m <= n, and otherwise rethrows the (n+1)-th exception.
      The work is called min(m, n) + 1 times, every failed attempt but the
      last allowed one is followed by a sleep (when d > 0), and each
      attempt is one begin/commit or begin/rollback bracket that leaves the
      connection Idle. Stated from loop index `i`, `a = i + 1` attempts
      having failed already. */
  lemma {:induction false} FailThenSucceed(respond: Script, work: Work, trace: string, n: int, d: int,
                                           i: int, k: Conn, c0: nat, sleeps: nat, m: nat)
    requires Reliable(respond)
    requires k.marker.None?
    requires -1 <= i < n
    requires i + 1 <= m
    requires forall j: nat :: c0 <= j < c0 + m ==> work(j).Throws?
    requires m <= n ==> work(c0 + m).Returns?
    ensures var a := i + 1;
            var total := Min(m, n);
            var t := RetryFrom(respond, work, trace, n, d, i, k, c0 + a, sleeps);
            && t.result == (if m <= n then Success(work(c0 + m).value) else Failure(work(c0 + n).error))
            && t.calls == c0 + total + 1
            && t.sleeps == sleeps + (if d > 0 then total - a else 0)
            && t.after == k.(log := k.log + Repeat(RolledBackCalls, total - a) +
                                    (if m <= n then CommittedCalls else RolledBackCalls))
    decreases n - i
  {
    var a := i + 1;
    var total := Min(m, n);
    var at := AttemptStep(respond, k, work(c0 + a), trace);
    ReliableAttempt(respond, k, work(c0 + a), trace);
    if a < m {
      assert work(c0 + a).Throws?;
      if i < n - 1 {
        var k1 := k.(log := k.log + RolledBackCalls);
        FailThenSucceed(respond, work, trace, n, d, i + 1, k1, c0, if d > 0 then sleeps + 1 else sleeps, m);
        assert Repeat(RolledBackCalls, total - a) == RolledBackCalls + Repeat(RolledBackCalls, total - a - 1);
        assert k1.log + Repeat(RolledBackCalls, total - a - 1) ==
               k.log + Repeat(RolledBackCalls, total - a);
      } else {
        assert total == a;
      }
    } else {
      assert a == m && total == m;
    }
  }

  /** The whole loop, from its start: the case above with no attempt made. */
  lemma FailThenSucceedFromStart(respond: Script, work: Work, trace: string, n: int, d: int,
                                 k: Conn, calls: nat, sleeps: nat, m: nat)
    requires Reliable(respond)
    requires k.marker.None?
    requires n >= 0
    requires forall j: nat :: calls <= j < calls + m ==> work(j).Throws?
    requires m <= n ==> work(calls + m).Returns?
    ensures var t := Retry(respond, work, trace, n, d, k, calls, sleeps);
            && (t.result.Success? <==> m <= n)
            && t.result == (if m <= n then Success(work(calls + m).value) else Failure(work(calls + n).error))
            && t.calls == calls + Min(m, n) + 1
            && t.sleeps == sleeps + (if d > 0 then Min(m, n) else 0)
            && t.after.marker.None? && t.after.parsed == k.parsed
            && t.after.log == k.log + Repeat(RolledBackCalls, Min(m, n)) +
                             (if m <= n then CommittedCalls else RolledBackCalls)
  {
    FailThenSucceed(respond, work, trace, n, d, -1, k, calls, sleeps, m);
  }

  class MyTransaction {
    const dbi: MysqliConnection
    const callable: Work
    var calls: nat
    var sleeps: nat

    constructor(dbi: MysqliConnection, callable: Work)
      ensures this.dbi == dbi && this.callable == callable && calls == 0 && sleeps == 0
    {
      this.dbi := dbi;
      this.callable := callable;
      calls := 0;
      sleeps := 0;
    }

    /** `begin`, then inside the `try` the work and `commit`, and in the
      `catch` `rollback` before the rethrow. */
    method Attempt(trace: string) returns (end: AttemptEnd)
      modifies this, dbi, dbi.link
      ensures var a := AttemptStep(dbi.link.respond, old(dbi.State()), callable(old(calls)), trace);
              && dbi.State() == a.after && end == a.end
              && calls == (if end.BeginFailed? then old(calls) else old(calls) + 1)
              && sleeps == old(sleeps)
    {
      var b := dbi.Begin(trace);
      if b.Fail? {
        return BeginFailed(b.error);
      }
      var outcome := callable(calls);
      calls := calls + 1;
      var thrown: Throwable;
      match outcome {
        case Returns(v) =>
          var c := dbi.Commit();
          if c.Pass? {
            return Committed(v);
          }
          thrown := c.error;
        case Throws(e) =>
          thrown := e;
      }
      var r := dbi.Rollback();
      if r.Fail? {
        return RollbackFailed(r.error);
      }
      return RolledBack(thrown);
    }

    method Run(trace: string) returns (r: Result<Value, Throwable>)
      modifies this, dbi, dbi.link
      ensures var a := AttemptStep(dbi.link.respond, old(dbi.State()), callable(old(calls)), trace);
              && dbi.State() == a.after && r == RunResult(a.end)
              && calls == (if a.end.BeginFailed? then old(calls) else old(calls) + 1)
              && sleeps == old(sleeps)
    {
      var end := Attempt(trace);
      r := RunResult(end);
    }

    /** `runRetry($retry_count, $retry_delay)`; a sleep is counted, not
      timed. */
    method RunRetry(retryCount: int, retryDelay: int, trace: string) returns (r: Result<Value, Throwable>)
      modifies this, dbi, dbi.link
      ensures Trial(dbi.State(), calls, sleeps, r) ==
              Retry(dbi.link.respond, callable, trace, retryCount, retryDelay, old(dbi.State()), old(calls), old(sleeps))
    {
      var result := Null;
      var i := -1;
      while i < retryCount
        invariant -1 <= i
        invariant RetryFrom(dbi.link.respond, callable, trace, retryCount, retryDelay, i, dbi.State(), calls, sleeps) ==
                  Retry(dbi.link.respond, callable, trace, retryCount, retryDelay, old(dbi.State()), old(calls), old(sleeps))
        invariant result == Null
        decreases retryCount - i
      {
        var end := Attempt(trace);
        match end {
          case BeginFailed(e) =>
            return Failure(e);
          case Committed(v) =>
            result := v;
            return Success(result);
          case RollbackFailed(e) =>
            return Failure(e);
          case RolledBack(e) =>
            if i < retryCount - 1 {
              if retryDelay > 0 {
                sleeps := sleeps + 1;
              }
            } else {
              return Failure(e);
            }
        }
        i := i + 1;
      }
      return Success(result);
    }
  }
}
