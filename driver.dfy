/** The `mysqli` link, seen from the connection: it records every call it
    is given and answers from a script that may depend on everything that
    came before. */
module Driver {
  import opened Values

  /** The calls the connection makes on the link. */
  datatype Call =
    | Autocommit(on: bool)
    | Commit
    | Rollback
    | Query(sql: string, options: int)

  /** What the link does with a call: acknowledge it, hand back a result
      set, answer `false` with its `error`/`errno`, or throw a
      mysqli_sql_exception. */
  datatype Reply =
    | Ack
    | Rows(records: seq<Record>)
    | Refused(error: string, errno: int)
    | Raise(message: string, code: int)

  /** The script: the reply to a call given the calls made before it. */
  type Script = (seq<Call>, Call) -> Reply

  /** A script under which the link never throws. */
  ghost predicate Reliable(respond: Script)
  {
    forall h, c :: !respond(h, c).Raise?
  }

  class Link {
    const respond: Script
    var log: seq<Call>

    constructor(respond: Script)
      ensures this.respond == respond && log == []
    {
      this.respond := respond;
      log := [];
    }

    /** One round trip: the call is recorded and answered. */
    method Send(c: Call) returns (r: Reply)
      modifies this
      ensures log == old(log) + [c]
      ensures r == respond(old(log), c)
    {
      r := respond(log, c);
      log := log + [c];
    }
  }
}
