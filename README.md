# dface/mysql: a Dafny model of the connection layer

This project models the core of the PHP library `dface/mysql`, a thin layer over `mysqli`. It covers four classes:

- **`MysqliConnection`**:
  - the transaction marker that `begin`, `commit` and `rollback` keep;
  - the parse cache of `prepare` (at most 101 parsed statements, with the oldest evicted first);
  - how `build`, `query` and `queryOpt` route a statement through the placeholder parser, the formatter and the driver;
  - the guard that refuses data-definition statements inside a transaction;
  - `createException`, which turns a driver error into a `DuplicateEntryException` when the message reports a unique-key violation.
- **`IteratorResult`**: the views over the rows of a result set (`getValue`, `getRecord`, `asRecords`, `asRecordsValues`, `walk`, `asMap`, `asKeyValue`, `asColumn`, `jsonSerialize`). They are modelled over a forward-only PHP generator: rewinding one that has passed its first row, or traversing one that has finished, throws.
- **`MyTransaction`**:
  - `run`: the unit of work between `begin` and `commit`, with `rollback` and a rethrow when it throws;
  - `runRetry`: the counted retry loop around `run`.
- **`DuplicateEntryException`**: the exception that carries the violated key and the duplicate entry.

Modules, one per file:

| file | module | what it holds |
|---|---|---|
| wrappers.dfy | Wrappers | `Option`, `Result`, `Outcome` |
| values.dfy | Values | PHP scalars, records (`fetch_assoc` rows), `$record[$name]` |
| errors.dfy | Errors | `MysqlException`, `DuplicateEntryException` and the other throwables |
| classifier.dfy | Classifier | `createException` and its PCRE pattern, with leftmost and greedy semantics |
| ddl.dfy | Ddl | `preventDdlInTransaction` and its pattern `^\s*(create\|drop\|alter)`, case-insensitive |
| statements.dfy | Statements | the parse cache, `prepare`, `build` and the SQL text for `queryOpt`, as functions |
| driver.dfy | Driver | the `mysqli` link as a class that logs calls and answers from a script |
| connection.dfy | Connection | the state steps of the connection, and class `MysqliConnection` proved against them |
| results.dfy | Results | the view functions and their lemmas, and class `IteratorResult` with loop methods proved against them |
| transaction.dfy | Transaction | `run`/`runRetry` as functions with lemmas, and class `MyTransaction` proved against them |

External parts are parameters:

- **The placeholder parser and the formatter** (another package) are functions that either succeed or return an error message.
- **The driver** is a `Link` object. It records every call it receives. Its answers come from a script that may depend on every earlier call.
- **The unit of work** of a transaction is a script of outcomes, numbered by call: the n-th call either returns or throws.
- **The callback of `walk`** is a function of the call number and the record. It returns a value or throws.
- **The trace string** recorded by `begin` is a parameter.
- **A sleep** is counted, not timed.

Where the code and its documentation disagree, the model follows the code:

- The cache is trimmed only once it holds more than 100 entries (`count > 100`). So 101 distinct statements all stay, and the 102nd evicts the first (`Statements.EvictionStartsAtTheHundredAndSecond`). Eviction happens before the parser is called, so a failing parse on a full cache still evicts.
- A second full traversal of an `IteratorResult` does not yield an empty result; the generator throws:
  - "Cannot traverse an already closed generator" once it has finished;
  - "Cannot rewind a generator that was already run" once it has passed its first row.
- `asColumn`, `asKeyValue` and `asMap()` (no key fields) first read `current()`. On a finished generator that is null, so they return an empty array without throwing.
- `begin` sets the marker before it calls `autocommit(false)`. If that call throws, the connection stays marked as in a transaction (`Connection.BeginFromIdle`, `Transaction.BeginFailureSkipsWork`).

## Model

| member | source | states |
|---|---|---|
| Errors.NewDuplicateEntryException | src/dface/Mysql/DuplicateEntryException.php:11-26 | the getters return exactly the key and entry given to the constructor; message and code reach the parent unchanged |
| Errors.MysqlException.GetKey | src/dface/Mysql/DuplicateEntryException.php:18-21 | the key given to the constructor (stated by NewDuplicateEntryException: `GetKey() == key`) |
| Errors.MysqlException.GetEntry | src/dface/Mysql/DuplicateEntryException.php:23-26 | the entry given to the constructor (stated by NewDuplicateEntryException: `GetEntry() == entry`) |
| Errors.NewMysqlException | src/dface/Mysql/MysqliConnection.php:276 | a plain MysqlException, not a duplicate entry, that keeps message and code |
| Values.Field | src/dface/Mysql/IteratorResult.php:101-102 | `$record[$name]` is a value stored under that name, and null when the record has no such column |
| Values.FieldIsFirst | src/dface/Mysql/IteratorResult.php:101-102 | when several columns share a name, `$record[$name]` is the value of the first of them |
| Values.ValuesOf | src/dface/Mysql/IteratorResult.php:43 | `array_values` keeps the number and order of the values |
| Classifier.CreateException | src/dface/Mysql/MysqliConnection.php:271-277 | the exception built always keeps the driver's message and code |
| Classifier.CreateExceptionDetects | src/dface/Mysql/MysqliConnection.php:273-276 | a DuplicateEntryException is built if and only if `Duplicate entry '(.+)' for key '(.+)'` matches somewhere in the message |
| Classifier.CreateExceptionGroups | src/dface/Mysql/MysqliConnection.php:273-274 | the entry is the first group and the key the second group of the match PCRE reports: leftmost start, then longest first group, then longest second group |
| Classifier.FoundIsPcreChoice | src/dface/Mysql/MysqliConnection.php:273 | the match the matcher finds is a match, no match starts earlier, and no match at that start has a longer first group, or a longer second group after that first group |
| Classifier.CanonicalDuplicateEntry | src/dface/Mysql/MysqliConnection.php:273-274 | MySQL's canonical message built from a quote-free entry and key classifies to a DuplicateEntryException with exactly that key and entry |
| Classifier.EmailDuplicate | src/dface/Mysql/MysqliConnection.php:273-274 | worked example of CreateExceptionDetects and CreateExceptionGroups: a concrete e-mail violation with code 1062 gives key `users.email_unique` and entry `bob@example.com` |
| Classifier.MatchFrom | src/dface/Mysql/MysqliConnection.php:273 | a match found starts at or after the search position, and its groups are non-empty and lie inside the message |
| Classifier.MatchFromLeftmost | src/dface/Mysql/MysqliConnection.php:273 | a search from i finds a match, and it starts no later than any position at or after i where the pattern matches |
| Classifier.EntryEndGreedy | src/dface/Mysql/MysqliConnection.php:273 | the first group chosen ends no earlier than any end that lets the rest of the pattern match on the same line |
| Classifier.KeyEndGreedy | src/dface/Mysql/MysqliConnection.php:273 | every quote on the same line that can close the second group lies at or before the one the matcher picks |
| Classifier.LastQuoteIsLast | src/dface/Mysql/MysqliConnection.php:273 | no quote in the range lies after the one reported |
| Classifier.WithinLine | src/dface/Mysql/MysqliConnection.php:273 | `.` does not match a line feed: a stretch is free of line feeds exactly when it ends at or before the end of its line |
| Classifier.AtIsSlice | src/dface/Mysql/MysqliConnection.php:273 | a literal stands at a position exactly when the slice there equals it |
| Ddl.SkipSpace | src/dface/Mysql/MysqliConnection.php:286 | what is left after the leading `\s` run is a suffix; everything skipped is white space; the suffix does not start with white space |
| Ddl.IsDdl | src/dface/Mysql/MysqliConnection.php:286 | the pattern test; IsDdlMeansPattern states it is true exactly when white space and then create, drop or alter, in any case, begin the text |
| Ddl.PreventDdlInTransaction | src/dface/Mysql/MysqliConnection.php:284-289 | the guard; GuardThrowsIff states it throws "DDL inside transaction" exactly when a transaction is open and the text is DDL, and passes otherwise |
| Ddl.IsDdlMeansPattern | src/dface/Mysql/MysqliConnection.php:286 | a statement counts as DDL exactly when some run of white space is followed by create, drop or alter in any letter case |
| Ddl.GuardThrowsIff | src/dface/Mysql/MysqliConnection.php:284-289 | the guard throws exactly inside a transaction and on a DDL statement, and what it throws is "DDL inside transaction" |
| Ddl.DdlAfterSpaces | src/dface/Mysql/MysqliConnection.php:286 | white space and then one of the three words, in any case, is DDL |
| Ddl.NoWordBoundary | src/dface/Mysql/MysqliConnection.php:286 | worked example of IsDdlMeansPattern: the test is on a prefix, not a word: " \tDropbox" counts as DDL |
| Ddl.SelectIsNotDdl | src/dface/Mysql/MysqliConnection.php:286 | worked example of IsDdlMeansPattern: "select 1" is not DDL |
| Statements.Find | src/dface/Mysql/MysqliConnection.php:118 | `isset($parsed[$text])` fails exactly when no entry has that text; a hit is the node stored with it |
| Statements.Parse | src/dface/Mysql/MysqliConnection.php:116-125 | the cached parse; ParseHit, ParseMissAppends, ParseMissEvicts and ParseFailure state its four cases, ParseKeepsValid and ParseTransparent what it preserves |
| Statements.Prepare | src/dface/Mysql/MysqliConnection.php:102-108 | PrepareWithoutPlaceholder and PrepareWithPlaceholder state its two branches |
| Statements.Build | src/dface/Mysql/MysqliConnection.php:135-145 | BuildGiven, BuildPlainText and BuildTemplateText state its three branches, BuildGivesPlainNode that success is always a PlainNode |
| Statements.StatementSql | src/dface/Mysql/MysqliConnection.php:169-172 | PlainNodeSkipsBuild and StatementSqlBuilds state its two branches, StatementSqlKeepsValid that the cache stays valid |
| Statements.ParseAll | src/dface/Mysql/MysqliConnection.php:116-125 | parsing texts one after another; ParseAllKeepsNewest and EvictionStartsAtTheHundredAndSecond state what it keeps |
| Statements.ParseHit | src/dface/Mysql/MysqliConnection.php:118-124 | a hit returns the stored node, leaves the cache and its order as they were, and does not use the parser |
| Statements.ParseMissAppends | src/dface/Mysql/MysqliConnection.php:118-124 | a miss on a cache of at most 100 entries appends the new entry and evicts nothing |
| Statements.ParseMissEvicts | src/dface/Mysql/MysqliConnection.php:119-122 | a miss on a cache of more than 100 entries drops exactly the oldest entry, then appends |
| Statements.ParseFailure | src/dface/Mysql/MysqliConnection.php:119-122 | a parser failure is passed on as a ParserException, and the eviction before it has still happened |
| Statements.ParseKeepsValid | src/dface/Mysql/MysqliConnection.php:116-125 | the cache never holds a text twice or more than 101 entries, and a successful parse leaves the text with its node in the cache |
| Statements.ParseTransparent | src/dface/Mysql/MysqliConnection.php:116-125 | starting from a cache that agrees with the parser, `parse` returns what the parser returns (a failure as a ParserException), and the cache keeps agreeing |
| Statements.ParseAllKeepsNewest | src/dface/Mysql/MysqliConnection.php:119-122 | first in, first out: after parsing distinct accepted texts, the cache holds exactly the last 101 texts, oldest first |
| Statements.EvictionStartsAtTheHundredAndSecond | src/dface/Mysql/MysqliConnection.php:119-122 | from an empty cache, up to 101 texts all stay, and the 102nd evicts exactly the first |
| Statements.PrepareWithoutPlaceholder | src/dface/Mysql/MysqliConnection.php:104-107 | text without `{` becomes a PlainNode of the same text, the cache is untouched, and the parser is not used |
| Statements.PrepareWithPlaceholder | src/dface/Mysql/MysqliConnection.php:104-105 | text with `{` goes through the cached parse |
| Statements.BuildGiven | src/dface/Mysql/MysqliConnection.php:137-144 | a node is formatted as given, and the cache is untouched |
| Statements.BuildPlainText | src/dface/Mysql/MysqliConnection.php:140-144 | text without `{` is formatted as a PlainNode of that text, and the cache is untouched |
| Statements.BuildTemplateText | src/dface/Mysql/MysqliConnection.php:138-144 | text with `{` goes through the cached parse; a parser failure is passed on without formatting |
| Statements.BuildGivesPlainNode | src/dface/Mysql/MysqliConnection.php:135-145 | whatever `build` is given, a successful build is a PlainNode |
| Statements.PlainNodeSkipsBuild | src/dface/Mysql/MysqliConnection.php:169-172 | a PlainNode is sent as it is: parameters and formatter play no part, and the cache is untouched |
| Statements.StatementSqlBuilds | src/dface/Mysql/MysqliConnection.php:169-172 | any other statement is the SQL text of what `build` makes of it, or its failure |
| Statements.StatementSqlKeepsValid | src/dface/Mysql/MysqliConnection.php:167-172 | every path from a statement to SQL text keeps the cache valid |
| Connection.Control | src/dface/Mysql/MysqliConnection.php:72-73 | a control call whose return value is ignored is logged, and fails exactly when the link throws |
| Connection.BeginStep | src/dface/Mysql/MysqliConnection.php:51-59 | `begin` on the state; BeginWhileOpen, BeginFromIdle and BeginTwice state its cases |
| Connection.FinishStep | src/dface/Mysql/MysqliConnection.php:67-93 | the shared body of `commit` and `rollback`; FinishWhenIdle and FinishWhenOpen state its cases |
| Connection.CommitStep | src/dface/Mysql/MysqliConnection.php:67-76 | `commit` on the state: FinishStep with the driver's commit and "No active transaction to commit"; TransactionRoundTrip states the round trip from `begin` |
| Connection.RollbackStep | src/dface/Mysql/MysqliConnection.php:84-93 | `rollback` on the state: FinishStep with the driver's rollback and "No active transaction to rollback"; TransactionRoundTrip states the round trip from `begin` |
| Connection.QueryStep | src/dface/Mysql/MysqliConnection.php:167-179 | `queryOpt` on the state; GuardBlocksQuery, QuerySent, PlainNodeQuery and QueryKeepsState state what it sends, throws and keeps |
| Connection.BeginWhileOpen | src/dface/Mysql/MysqliConnection.php:53-55 | `begin` inside a transaction throws "Transaction is already started at: " followed by the open transaction's trace, and changes nothing |
| Connection.BeginFromIdle | src/dface/Mysql/MysqliConnection.php:56-58 | from Idle, `begin` sets the marker and sends `autocommit(false)`; it fails exactly when that call throws, and the marker stays set then |
| Connection.FinishWhenIdle | src/dface/Mysql/MysqliConnection.php:69-71 | without a transaction, `commit` and `rollback` throw "No active transaction to commit" (or "to rollback") and change nothing |
| Connection.FinishWhenOpen | src/dface/Mysql/MysqliConnection.php:72-75 | with a transaction: the driver call, then `autocommit(true)`, then the marker is cleared; it is cleared exactly when both calls went through, and a throw stops the sequence where it is |
| Connection.BeginTwice | src/dface/Mysql/MysqliConnection.php:51-59 | after a `begin` from Idle, a second `begin` throws with the first one's trace and changes nothing |
| Connection.TransactionRoundTrip | src/dface/Mysql/MysqliConnection.php:51-93 | on a link that never throws, `begin` then `commit` (or `rollback`) return to Idle after exactly three calls: autocommit off, commit (or rollback), autocommit on |
| Connection.GuardBlocksQuery | src/dface/Mysql/MysqliConnection.php:173 | inside a transaction, a DDL statement is refused before anything is sent: the link's log is unchanged |
| Connection.QuerySent | src/dface/Mysql/MysqliConnection.php:174-178 | once the guard passes, exactly one query with that text and those options is sent; a `false` reply becomes `createException(error, errno)` |
| Connection.PlainNodeQuery | src/dface/Mysql/MysqliConnection.php:169-172 | a PlainNode query does not depend on the formatter or the parameters, and leaves the cache untouched |
| Connection.QueryKeepsState | src/dface/Mysql/MysqliConnection.php:167-179 | a query never changes the transaction marker, and keeps the cache valid |
| Connection.MysqliConnection.constructor | src/dface/Mysql/MysqliConnection.php:21-26 | the connection starts with an empty cache and no transaction |
| Connection.MysqliConnection.Begin | src/dface/Mysql/MysqliConnection.php:51-59 | the new state and outcome are those of BeginStep |
| Connection.MysqliConnection.Finish | src/dface/Mysql/MysqliConnection.php:69-75 | the new state and outcome are those of FinishStep |
| Connection.MysqliConnection.Commit | src/dface/Mysql/MysqliConnection.php:67-76 | the new state and outcome are those of CommitStep |
| Connection.MysqliConnection.Rollback | src/dface/Mysql/MysqliConnection.php:84-93 | the new state and outcome are those of RollbackStep |
| Connection.MysqliConnection.Parse | src/dface/Mysql/MysqliConnection.php:116-125 | the new cache and result are those of Statements.Parse, and the marker is unchanged |
| Connection.MysqliConnection.Prepare | src/dface/Mysql/MysqliConnection.php:102-108 | the new cache and result are those of Statements.Prepare |
| Connection.MysqliConnection.Build | src/dface/Mysql/MysqliConnection.php:135-145 | the new cache and result are those of Statements.Build |
| Connection.MysqliConnection.QueryOpt | src/dface/Mysql/MysqliConnection.php:167-179 | the new state and result are those of QueryStep |
| Connection.MysqliConnection.Query | src/dface/Mysql/MysqliConnection.php:154-157 | `queryOpt` with MYSQLI_STORE_RESULT |
| Transaction.AttemptStep | src/dface/Mysql/MyTransaction.php:24-33 | one bracketed attempt; BeginFailureSkipsWork, FailureRollsBack, AttemptReturnsToIdle and ReliableAttempt state its cases |
| Transaction.RollbackAfter | src/dface/Mysql/MyTransaction.php:29-32 | the `catch` block; FailureRollsBack states that it rethrows the caught exception after a rollback, or the rollback's own |
| Transaction.RunResult | src/dface/Mysql/MyTransaction.php:23-34 | what `run` returns or throws for each way an attempt ends; ReliableAttempt states it on a reliable link |
| Transaction.RetryFrom | src/dface/Mysql/MyTransaction.php:46-63 | the retry loop from a loop index; RetryBounds, RetryStopsAtSuccess and FailThenSucceed state its counts and results |
| Transaction.Retry | src/dface/Mysql/MyTransaction.php:43-64 | `runRetry` from loop index -1; NegativeCountDoesNothing, RetryZeroIsRun and FailThenSucceedFromStart state it |
| Transaction.BeginFailureSkipsWork | src/dface/Mysql/MyTransaction.php:24 | when `begin` throws, the work is not called and no rollback is tried; from Idle the marker stays set |
| Transaction.FailureRollsBack | src/dface/Mysql/MyTransaction.php:25-33 | a throw from the work or from `commit` is rethrown after a rollback; a failing rollback's own exception takes its place |
| Transaction.AttemptReturnsToIdle | src/dface/Mysql/MyTransaction.php:23-34 | from Idle, an attempt that commits or rolls back leaves the connection Idle, with its calls bracketed by autocommit off and on |
| Transaction.ReliableAttempt | src/dface/Mysql/MyTransaction.php:23-34 | on a reliable link from Idle, returning work is committed and its value returned; throwing work is rolled back and its exception rethrown |
| Transaction.NegativeCountDoesNothing | src/dface/Mysql/MyTransaction.php:46-63 | with a negative count the loop body never runs: no work, no calls on the link, and null is returned |
| Transaction.RetryZeroIsRun | src/dface/Mysql/MyTransaction.php:43-64 | `runRetry(0)` behaves as `run` |
| Transaction.RetryBounds | src/dface/Mysql/MyTransaction.php:46-62 | the work is called at most n + 1 times; there are at most n sleeps, never more than the failed calls, and none when the delay is not positive |
| Transaction.RetryStopsAtSuccess | src/dface/Mysql/MyTransaction.php:49-51 | a commit ends the loop at once, with the work's value |
| Transaction.FailThenSucceed | src/dface/Mysql/MyTransaction.php:46-62 | work that throws m times and then returns: from any loop index, the count of calls, the count of sleeps, the log and the result are as stated in closed form |
| Transaction.FailThenSucceedFromStart | src/dface/Mysql/MyTransaction.php:43-64 | with work that throws m times and then returns: success exactly when m <= n; min(m, n) + 1 calls; min(m, n) sleeps when the delay is positive; the log is that many rolled-back brackets, then a committed or rolled-back one |
| Transaction.MyTransaction.constructor | src/dface/Mysql/MyTransaction.php:13-16 | the runner keeps the connection and the callable, with no calls or sleeps counted yet |
| Transaction.MyTransaction.Attempt | src/dface/Mysql/MyTransaction.php:24-33 | the new connection state and the way the attempt ended are those of AttemptStep; the work is called once unless `begin` failed |
| Transaction.MyTransaction.Run | src/dface/Mysql/MyTransaction.php:23-34 | `run` returns or throws RunResult of AttemptStep, and leaves its state |
| Transaction.MyTransaction.RunRetry | src/dface/Mysql/MyTransaction.php:43-64 | the state, the call and sleep counts and the result are those of Retry |
| Results.StopFrom | src/dface/Mysql/IteratorResult.php:50-54 | from the given position, the callback neither throws nor returns exactly `false` before the reported position, and does one of the two at it if it is in range |
| Results.FirstStop | src/dface/Mysql/IteratorResult.php:50-54 | the same from the first record |
| Results.WalkEnd | src/dface/Mysql/IteratorResult.php:50-54 | `walk` ends with the callback's exception when a throw stopped it; WalkSeesAllUnlessStopped and WalkThrows state its cases |
| Results.WalkSeesAllUnlessStopped | src/dface/Mysql/IteratorResult.php:50-54 | the callback is shown every record exactly when it never throws and never returns exactly `false` (null, 0 and "" do not stop it), and then the walk ends without an exception |
| Results.WalkThrows | src/dface/Mysql/IteratorResult.php:50-54 | a throw on a record after records that did not stop the walk ends it there, with that exception |
| Results.RecordsValues | src/dface/Mysql/IteratorResult.php:41-45 | `array_values` of every row in order; AsRecordsValues states that the loop builds it |
| Results.Column | src/dface/Mysql/IteratorResult.php:114-117 | one field of every row in order; AsColumn states that the loop builds it |
| Results.KeyValue | src/dface/Mysql/IteratorResult.php:100-104 | key field to value field over the rows; KeyValueKeys and KeyValueLastWins state its keys and values |
| Results.Insert | src/dface/Mysql/IteratorResult.php:79-87 | storing a record under a key path; LookupInsert states that only that path changes |
| Results.MapOf | src/dface/Mysql/IteratorResult.php:71-88 | `asMap` over the rows; MapOfIsLastWithPath, MapOfTopKeys, SingleKeyMap and MapOfLeaves state its contents |
| Results.LastWithPath | src/dface/Mysql/IteratorResult.php:71-88 | the reference for `asMap`; LastWithPathNone and LastWithPathIsLast state which record it finds |
| Results.ValueOf | src/dface/Mysql/IteratorResult.php:20-27 | `getValue` on a record; GetValue states that the method returns it |
| Results.KeyValueKeys | src/dface/Mysql/IteratorResult.php:100-104 | the keys of `asKeyValue` are exactly the key values of the records |
| Results.KeyValueLastWins | src/dface/Mysql/IteratorResult.php:100-104 | each key maps to the value field of the last record with that key value |
| Results.LookupInsert | src/dface/Mysql/IteratorResult.php:79-87 | storing under one path leaves every other path of the same length unchanged, and the stored path gives back the record |
| Results.MapOfIsLastWithPath | src/dface/Mysql/IteratorResult.php:76-88 | under every key path `asMap` holds the last record with that path, and nothing where no record has the path |
| Results.LastWithPathNone | src/dface/Mysql/IteratorResult.php:76-88 | the reference finds nothing exactly when no record has the path |
| Results.LastWithPathIsLast | src/dface/Mysql/IteratorResult.php:76-88 | the reference finds a record with the path, and no later record has it |
| Results.DistinctPathsSurvive | src/dface/Mysql/IteratorResult.php:76-88 | a record survives under its own path unless a later record has the same path |
| Results.MapOfTopKeys | src/dface/Mysql/IteratorResult.php:76-88 | the top-level keys of `asMap` are exactly the values of the first key field |
| Results.SingleKeyMap | src/dface/Mysql/IteratorResult.php:70-74 | with one key field, each key maps straight to the last record with that key value |
| Results.MapOfLeaves | src/dface/Mysql/IteratorResult.php:70-74 | with one key field the map holds records only |
| Results.IteratorResult.constructor | src/dface/Mysql/IteratorResult.php:10-13 | a new result wraps a generator that has not started |
| Results.IteratorResult.Current | src/dface/Mysql/IteratorResult.php:31 | `current()` starts the generator, does not move it, and gives the row at the cursor |
| Results.IteratorResult.Enter | src/dface/Mysql/IteratorResult.php:42 | entering a `foreach` throws on a finished or advanced generator, and otherwise starts it at the first row |
| Results.IteratorResult.GetRecord | src/dface/Mysql/IteratorResult.php:29-32 | the row at the cursor, or null after the last row; nothing moves |
| Results.IteratorResult.GetValue | src/dface/Mysql/IteratorResult.php:20-27 | null for no or an empty record; otherwise the named field, or the first value when no name is given |
| Results.IteratorResult.AsRecords | src/dface/Mysql/IteratorResult.php:34-37 | all rows in order, and the generator is finished; a used generator throws and stays as it was |
| Results.IteratorResult.JsonSerialize | src/dface/Mysql/IteratorResult.php:122-125 | the same as `asRecords`: all rows and a finished generator, or the generator's exception with the generator left as it was |
| Results.IteratorResult.AsRecordsValues | src/dface/Mysql/IteratorResult.php:39-46 | the `array_values` of every row, in order |
| Results.IteratorResult.Walk | src/dface/Mysql/IteratorResult.php:48-55 | on an unused generator the callback is shown the rows up to and including the first on which it throws or returns exactly `false`, the generator is left on that row, and a throw comes out of `walk`; a used generator throws and stays as it was |
| Results.IteratorResult.AsColumn | src/dface/Mysql/IteratorResult.php:109-120 | empty without a current record, the generator started but not moved; otherwise the field of every row, named or falling back to the first column, and the generator finished; a moved generator throws and stays as it was |
| Results.IteratorResult.AsKeyValue | src/dface/Mysql/IteratorResult.php:93-107 | empty without a current record, the generator started but not moved; otherwise KeyValue over all rows, the names falling back to the first and second columns, and the generator finished; a moved generator throws and stays as it was |
| Results.IteratorResult.IndexBy | src/dface/Mysql/IteratorResult.php:70-75 | the loop with one key field builds MapOf under that field and finishes the generator; a used generator throws and stays as it was |
| Results.IteratorResult.IndexByPath | src/dface/Mysql/IteratorResult.php:76-88 | the loop with several key fields builds MapOf under those fields and finishes the generator; a used generator throws and stays as it was |
| Results.IteratorResult.AsMap | src/dface/Mysql/IteratorResult.php:57-91 | with no key field, the first column of the current record is the key (and the result is empty, the generator not moved, without a current record); with key fields, MapOf under them; whenever rows were traversed the generator is finished, and a throw leaves it as it was |
| Results.StoreByPath | src/dface/Mysql/IteratorResult.php:79-87 | walking down by reference, creating each missing level, then storing under the last key, is Insert along the record's key path |
| Results.Descend | src/dface/Mysql/IteratorResult.php:80-86 | one step of the reference walk keeps what the levels passed will make of the store once it is assigned back |

## Left out

- `close`, `setIsolationLevel`, `multiUpdate`, `select`, `selectOpt`, `gen`, `update`, `insert` and `getIterator` are not modelled. They forward to the driver (result-set draining, `affected_rows`, `insert_id`) or wrap `query` in a generator. An `IteratorResult` is built directly from the rows a result set would yield.
- The escaping callback `real_escape_string` handed to the formatter is not modelled. The formatter is an opaque function of the node and the parameters.
- The placeholder parser and formatter belong to another package. They are not part of this model beyond success or failure with a message.
- `getTraceAsString` is not modelled. The trace of `begin` is a string parameter.
- `sleep` is not modelled as time. `Transaction.MyTransaction.RunRetry` counts sleeps only.
- The parameters `...$params` of `run` and `runRetry` are not modelled. The work is a script of outcomes by call number.
- Work that itself calls the connection (for instance a nested `begin`) is not modelled; the work does not touch the connection.
- PHP array-key coercion is not modelled. Keys of `asMap` and `asKeyValue` are values compared as they are: `"1"` is not merged with `1`, and `null` or `true` keys are not turned into `""` or `1`.
- Results.Insert: it treats a record found where a level is expected as an empty level. With one key path length per call, as in `asMap`, that never happens.
- Results.IteratorResult.AsKeyValue: when the current record has a single column and the value field is missing or falsy, the missing second name is read as the key `""`. Every value is then null unless some column is named `""`, as in PHP. The notice PHP emits for the missing name is not modelled.
- Classifier.CreateException: characters are Unicode code points, not bytes. The pattern is matched outside PCRE's UTF mode; the two agree for ASCII messages.
- Values.Field: the warning PHP emits for a missing column is not modelled; only the null result is.
- Values.Field: a record is a list of columns and may repeat a name. The model then reads the first such column (Values.FieldIsFirst). `fetch_assoc` keeps one entry per name, holding the last such column's value. The two agree on records with distinct names.
- Results.IteratorResult.Walk: the callback's extra arguments `...$params` are bound into the callback. Its answers depend on the record and on the number of the call within the walk, which counts from 0 in each walk. State that a callback carries from one `walk` call to the next is not modelled.
- Results.KeyValue: the result is a map, so the order of its keys is not modelled. PHP's array keeps keys in the order they were first stored, and an overwrite keeps a key's place.
- Results.Insert: a level is a map, so the position of a new key in its PHP array level is not modelled.
- Results.MapOf: the levels are maps, so the key order of the nested PHP arrays is not modelled.
- Results.IteratorResult.AsKeyValue: the key order of the returned array is not modelled (see Results.KeyValue).
- Results.IteratorResult.IndexBy: the key order of the returned array is not modelled (see Results.MapOf).
- Results.IteratorResult.IndexByPath: the key order of the returned nested arrays is not modelled (see Results.MapOf).
- Results.IteratorResult.AsMap: the key order of the returned arrays is not modelled (see Results.MapOf). A caller that iterates the result or encodes it as JSON, for instance after an `ORDER BY`, can observe that order.
- Driver warnings, notices and error reporting modes other than "returns false" and "throws" are not modelled.
- MysqlException.php is not part of this model beyond its message and code.
