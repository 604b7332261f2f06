/** The rows of the two tables of the context store, and the result types of
    the module's operations. */
module Records {

  datatype Option<T> = None | Some(value: T)

  datatype Result<T, E> = Success(value: T) | Failure(error: E)

  /** The classifier's verdict; stored in the `intent` column as "task" or "chat". */
  datatype Intent = Task | Chat

  /** The `status` column of a task row: "pending" on insertion, "completed"
      once a callback has delivered its result. */
  datatype Status = Pending | Completed

  /** One row of the `conversations` table. The auto-assigned `id` is the
      row's position in the table; the timestamp column is not modelled. */
  datatype ConversationRecord = ConversationRecord(userInput: string, intent: Intent, response: string)

  /** One row of the `tasks` table. The auto-assigned `id` is the row's
      position in the table; `created_at` is not modelled. A NULL `result`
      column is `None`. */
  datatype TaskRecord = TaskRecord(taskId: string, description: string, status: Status, result: Option<string>)

  /** Why a callback could not produce a summary: no task row carries the id
      (the source fails reading a field of the missing row), or the database
      refuses the LIKE pattern built from the task's description as too long
      ("LIKE or GLOB pattern too complex"). */
  datatype CallbackError = UnknownTask(taskId: string) | PatternTooLong(taskId: string)
}
