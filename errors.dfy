/** The exceptions of the layer: MysqlException, its subclass
    DuplicateEntryException, and the other throwables that cross it. */
module Errors {

  /** A MysqlException. DuplicateEntry is the DuplicateEntryException
      subclass: it keeps the parent's message and code and adds the violated
      key's name and the duplicate entry. */
  datatype MysqlException =
    | Generic(message: string, code: int)
    | DuplicateEntry(key: string, entry: string, message: string, code: int)
  {
    function GetMessage(): string { message }

    function GetCode(): int { code }

    function GetKey(): string
      requires DuplicateEntry?
    {
      key
    }

    function GetEntry(): string
      requires DuplicateEntry?
    {
      entry
    }
  }

  /** `new MysqlException($message, $code)`. */
  function NewMysqlException(message: string, code: int): (e: MysqlException)
    ensures !e.DuplicateEntry?
    ensures e.GetMessage() == message && e.GetCode() == code
  {
    Generic(message, code)
  }

  /** `new DuplicateEntryException($key, $entry, $message, $code)`: the
      getters give back exactly what the constructor was given, and the
      message and code reach the parent unchanged. */
  function NewDuplicateEntryException(key: string, entry: string, message: string, code: int): (e: MysqlException)
    ensures e.DuplicateEntry?
    ensures e.GetKey() == key && e.GetEntry() == entry
    ensures e.GetMessage() == message && e.GetCode() == code
  {
    DuplicateEntry(key, entry, message, code)
  }

  /** Everything that can be thrown through the layer. */
  datatype Throwable =
    | Mysql(ex: MysqlException)                // MysqlException or a subclass
    | ParserError(message: string)             // ParserException of the placeholder parser
    | FormatterError(message: string)          // FormatterException of the placeholder formatter
    | DriverError(message: string, code: int)  // mysqli_sql_exception thrown by the driver itself
    | GeneratorError(message: string)          // the \Exception a used-up generator throws
    | Other(message: string)                   // whatever else a unit of work throws

  /** The exception `begin` throws while a transaction is open; `trace` is
      the origin trace recorded by the open transaction. */
  function AlreadyStarted(trace: string): Throwable
  {
    Mysql(NewMysqlException("Transaction is already started at: " + trace, 0))
  }

  const NoTransactionToCommit: Throwable := Mysql(NewMysqlException("No active transaction to commit", 0))

  const NoTransactionToRollback: Throwable := Mysql(NewMysqlException("No active transaction to rollback", 0))

  const DdlInsideTransaction: Throwable := Mysql(NewMysqlException("DDL inside transaction", 0))
}
