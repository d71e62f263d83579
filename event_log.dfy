/** The event logger: an append-only table of status rows. The timestamp of each
    row and the storage engine are abstracted away; a row is its status label. */
module EventLog {

  class Manager {
    var rows: seq<string>

    /** Opening the logger keeps whatever rows the table already holds: the table
        is created only when it is missing and is never emptied. */
    constructor (existing: seq<string>)
      ensures rows == existing
    {
      rows := existing;
    }

    /** Appends exactly one row with the given status and leaves the earlier rows as they were. */
    method SaveEvent(status: string)
      modifies this
      ensures rows == old(rows) + [status]
    {
      rows := rows + [status];
    }
  }
}
