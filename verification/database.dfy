/**
 * The Oracle database as the console sees it through its JDBC templates: queries answer with
 * rows or fail, and DDL statements are sent as text and either complete or throw.
 * What Oracle does with a statement is not modelled; its verdict is an input.
 */
module Database {
  import opened Wrappers

  /**
   * The answer to one query: the rows, or a failure (missing privilege on a dictionary view,
   * lost connection, ...). `delivered` holds the rows that reached a row callback before the
   * failure; a query that returns a list hands back nothing when it fails.
   */
  datatype Reply<T> = Rows(rows: seq<T>) | Failed(delivered: seq<T>)

  /** The rows a query handed to its row callback: all of them, or those before the failure. */
  function Handed<T>(reply: Reply<T>): seq<T> {
    if reply.Rows? then reply.rows else reply.delivered
  }

  /** How a read that lets query failures through ends: with its value, or with the exception. */
  datatype Call<T> = Returned(value: T) | Raised

  /** How a call ended: normally, or with an exception carrying `message`. */
  datatype Outcome = Completed | Threw(message: string)

  /** `results != null && !results.isEmpty() ? results.get(0) : <nothing>` */
  function FirstRow<T>(reply: Reply<T>): (first: Option<T>)
    ensures first.Some? <==> reply.Rows? && |reply.rows| > 0
    ensures first.Some? ==> first.value == reply.rows[0]
  {
    if reply.Rows? && |reply.rows| > 0 then Some(reply.rows[0]) else None
  }

  /**
   * The privileged connection (`adminJdbcTemplate`). Every statement handed to `execute` is
   * appended to `log`; whether Oracle accepts it is decided by `verdict`, a function of the
   * statements issued before it and of its text.
   */
  class AdminConnection {
    var log: seq<string>
    const verdict: (seq<string>, string) -> Outcome

    constructor (verdict: (seq<string>, string) -> Outcome)
      ensures log == [] && this.verdict == verdict
    {
      log := [];
      this.verdict := verdict;
    }

    /** JdbcTemplate.execute(sql). */
    method Execute(sql: string) returns (outcome: Outcome)
      modifies this
      ensures log == old(log) + [sql]
      ensures outcome == verdict(old(log), sql)
    {
      outcome := verdict(log, sql);
      log := log + [sql];
    }
  }
}
