/** The two tables of the context store as sequences of rows: what the
    callback's UPDATE does to the `tasks` table, and the invariant that links
    the tables to each other and to the router's replies. */
module Tables {
  import opened Strings
  import opened Records
  import opened Routing

  /** `UPDATE ... SET status = 'completed', result = ? WHERE task_id = ?` on one row. */
  function CompleteRow(row: TaskRecord, taskId: string, result: string): (r: TaskRecord)
  {
    if row.taskId == taskId then row.(status := Completed, result := Some(result)) else row
  }

  /** The UPDATE on the whole table: every row carrying the id, whatever its status. */
  function CompleteMatching(tasks: seq<TaskRecord>, taskId: string, result: string): (r: seq<TaskRecord>)
  {
    seq(|tasks|, i requires 0 <= i < |tasks| => CompleteRow(tasks[i], taskId, result))
  }

  /** The update completes every matching row with the result, keeps its id
      and description, and leaves every other row as it was. */
  lemma CompleteMatchingEffect(tasks: seq<TaskRecord>, taskId: string, result: string, i: nat)
    requires i < |tasks|
    ensures |CompleteMatching(tasks, taskId, result)| == |tasks|
    ensures tasks[i].taskId == taskId ==>
      CompleteMatching(tasks, taskId, result)[i] == TaskRecord(taskId, tasks[i].description, Completed, Some(result))
    ensures tasks[i].taskId != taskId ==> CompleteMatching(tasks, taskId, result)[i] == tasks[i]
  {
  }

  /** An id that no row carries leaves the table unchanged. */
  lemma CompleteMatchingNoMatch(tasks: seq<TaskRecord>, taskId: string, result: string)
    requires forall i :: 0 <= i < |tasks| ==> tasks[i].taskId != taskId
    ensures CompleteMatching(tasks, taskId, result) == tasks
  {
  }

  /** Nothing stops a second callback for the same id: it overwrites the
      first one's result, so the last callback wins. */
  lemma CompleteMatchingLastWins(tasks: seq<TaskRecord>, taskId: string, first: string, second: string)
    ensures CompleteMatching(CompleteMatching(tasks, taskId, first), taskId, second)
         == CompleteMatching(tasks, taskId, second)
  {
  }

  /** The descriptions column, in row order. */
  function Descriptions(tasks: seq<TaskRecord>): (r: seq<string>)
  {
    seq(|tasks|, i requires 0 <= i < |tasks| => tasks[i].description)
  }

  /** The inputs of the logged turns classified as tasks, in log order. */
  function TaskTurns(log: seq<ConversationRecord>): (r: seq<string>)
    ensures |r| <= |log|
    ensures forall x :: x in r ==>
      exists j :: 0 <= j < |log| && log[j].userInput == x && log[j].intent == Task
  {
    if |log| == 0 then
      []
    else
      var last := log[|log| - 1];
      TaskTurns(log[..|log| - 1]) + (if last.intent == Task then [last.userInput] else [])
  }

  /** A logged turn agrees with the router: its intent is the classifier's
      verdict on its input, and its response is what the router logs on
      that path. */
  predicate TurnWellFormed(hash: string -> int, turn: ConversationRecord)
  {
    && turn.intent == DetectIntent(turn.userInput)
    && turn.response == (if turn.intent == Task then TaskCreatedText(TaskId(hash, turn.userInput))
                         else ChatResponse(turn.userInput))
  }

  /** A task row carries the id derived from its description, and it has a
      result exactly when it is completed. */
  predicate RowWellFormed(hash: string -> int, row: TaskRecord)
  {
    && row.taskId == TaskId(hash, row.description)
    && (row.status == Pending <==> row.result == None)
  }

  /** The invariant of the store: every turn and every row is well formed,
      and the task rows correspond one to one, in order, to the turns
      classified as tasks. */
  ghost predicate Consistent(hash: string -> int, log: seq<ConversationRecord>, tasks: seq<TaskRecord>)
  {
    && (forall j :: 0 <= j < |log| ==> TurnWellFormed(hash, log[j]))
    && (forall i :: 0 <= i < |tasks| ==> RowWellFormed(hash, tasks[i]))
    && Descriptions(tasks) == TaskTurns(log)
  }

  /** The turn that routing one input logs. */
  function TurnFor(hash: string -> int, text: string): (r: ConversationRecord)
  {
    if DetectIntent(text) == Task then ConversationRecord(text, Task, TaskCreatedText(TaskId(hash, text)))
    else ConversationRecord(text, Chat, ChatResponse(text))
  }

  /** The task rows that routing one input inserts: one on the task path,
      none on the chat path. */
  function RowsFor(hash: string -> int, text: string): (r: seq<TaskRecord>)
  {
    if DetectIntent(text) == Task then [TaskRecord(TaskId(hash, text), text, Pending, None)] else []
  }

  /** Routing one input keeps the store consistent. */
  lemma RouteKeepsConsistent(hash: string -> int, log: seq<ConversationRecord>, tasks: seq<TaskRecord>, text: string)
    requires Consistent(hash, log, tasks)
    ensures Consistent(hash, log + [TurnFor(hash, text)], tasks + RowsFor(hash, text))
  {
  }

  /** A callback keeps the store consistent. */
  lemma CompleteKeepsConsistent(hash: string -> int, log: seq<ConversationRecord>, tasks: seq<TaskRecord>,
                                taskId: string, result: string)
    requires Consistent(hash, log, tasks)
    ensures Consistent(hash, log, CompleteMatching(tasks, taskId, result))
  {
  }

  /** In a consistent store, every task row's description is the input of a
      logged task turn. */
  lemma RowHasTurn(hash: string -> int, log: seq<ConversationRecord>, tasks: seq<TaskRecord>, i: nat)
    requires Consistent(hash, log, tasks) && i < |tasks|
    ensures exists j :: 0 <= j < |log| && log[j].userInput == tasks[i].description && log[j].intent == Task
  {
    assert Descriptions(tasks)[i] == tasks[i].description;
    assert tasks[i].description in TaskTurns(log);
  }
}
