/** The `Report` entity and the table that holds it. */
module Reports {
  import opened Wrappers

  /** Timestamps are opaque values handed in by the caller (the database
      clock for `created_at`, the worker's clock for `completed_at`). */
  type Time = int

  /** The four values the backend ever writes into the `status` column. */
  datatype Status = Pending | Processing | Completed | Failed

  /** The string stored in the `status` column. */
  function StatusName(st: Status): string
  {
    match st
    case Pending => "pending"
    case Processing => "processing"
    case Completed => "completed"
    case Failed => "failed"
  }

  /** One row of the `reports` table. `title` is any string, the empty one
      included; `retry_count` is never null and starts at zero. */
  datatype Report = Report(
    id: int,
    title: string,
    status: Status,
    resultUrl: Option<string>,
    retryCount: nat,
    createdAt: Time,
    completedAt: Option<Time>)

  /** The table, keyed by its primary key. */
  type Store = map<int, Report>

  /** Every row sits under its own id: one row per primary key value. */
  predicate WellFormed(s: Store)
  {
    forall id :: id in s ==> s[id].id == id
  }

  /** The row a fresh insert produces: the column defaults plus the given
      title and the database's clock reading. */
  function NewReport(id: int, title: string, now: Time): Report
  {
    Report(id, title, Pending, None, 0, now, None)
  }
}
