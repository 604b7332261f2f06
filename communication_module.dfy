/** The conversational router over the context store: each input is logged
    as one turn and, when it asks for something to be done, also inserted as
    a pending task; a callback completes the tasks carrying its id and
    answers with their summary. */
module Communication {
  import opened Strings
  import opened Records
  import opened Routing
  import opened Tables
  import opened Summaries

  class CommunicationModule {
    /** Python's `hash` on strings, fixed for the life of the process. */
    const hash: string -> int
    /** The `conversations` table, oldest row first. */
    var conversations: seq<ConversationRecord>
    /** The `tasks` table, oldest row first. */
    var tasks: seq<TaskRecord>

    ghost predicate Valid()
      reads this
    {
      Consistent(hash, conversations, tasks)
    }

    /** Opens the store with the rows it already holds: none for a new
        database file, or those of earlier runs, whose task ids came from
        those runs' hash functions. A new, empty store is consistent. */
    constructor (hash: string -> int, storedConversations: seq<ConversationRecord>, storedTasks: seq<TaskRecord>)
      ensures this.hash == hash && conversations == storedConversations && tasks == storedTasks
      ensures storedConversations == [] && storedTasks == [] ==> Valid()
    {
      this.hash := hash;
      conversations := storedConversations;
      tasks := storedTasks;
    }

    /** `handle_user_input`: routes one input, logs exactly one turn and, on
        the task path, inserts exactly one pending task. */
    method HandleUserInput(inputText: string) returns (reply: string, taskId: Option<string>)
      modifies this
      ensures old(Valid()) ==> Valid()
      ensures taskId.Some? <==> DetectIntent(inputText) == Task
      ensures DetectIntent(inputText) == Task ==>
        && reply == ACKNOWLEDGEMENT
        && taskId == Some(TaskId(hash, inputText))
        && tasks == old(tasks) + [TaskRecord(TaskId(hash, inputText), inputText, Pending, None)]
        && conversations == old(conversations) + [ConversationRecord(inputText, Task, TaskCreatedText(taskId.value))]
      ensures DetectIntent(inputText) == Chat ==>
        && reply == ChatResponse(inputText)
        && tasks == old(tasks)
        && conversations == old(conversations) + [ConversationRecord(inputText, Chat, reply)]
    {
      if Valid() {
        RouteKeepsConsistent(hash, conversations, tasks, inputText);
      }
      var intent := DetectIntent(inputText);
      if intent == Task {
        var id := CreateTask(inputText);
        LogConversation(inputText, intent, TaskCreatedText(id));
        reply, taskId := ACKNOWLEDGEMENT, Some(id);
      } else {
        reply := ChatResponse(inputText);
        LogConversation(inputText, intent, reply);
        taskId := None;
      }
    }

    /** `_create_camel_task`: inserts a pending row under the id derived from
        the description, and returns that id. */
    method CreateTask(description: string) returns (taskId: string)
      modifies this
      ensures taskId == TaskId(hash, description)
      ensures tasks == old(tasks) + [TaskRecord(taskId, description, Pending, None)]
      ensures conversations == old(conversations)
    {
      taskId := TaskId(hash, description);
      tasks := tasks + [TaskRecord(taskId, description, Pending, None)];
    }

    /** `_log_conversation`: appends one turn. */
    method LogConversation(inputText: string, intent: Intent, response: string)
      modifies this
      ensures conversations == old(conversations) + [ConversationRecord(inputText, intent, response)]
      ensures tasks == old(tasks)
    {
      conversations := conversations + [ConversationRecord(inputText, intent, response)];
    }

    /** `handle_callback`: completes every row carrying the id with the
        result, then answers with the summary of the first such row. When no
        row carries the id nothing changes and the answer is an error; when
        SQLite refuses that row's description as a LIKE pattern, the update
        stays and the answer is an error. */
    method HandleCallback(taskId: string, result: string) returns (r: Result<string, CallbackError>)
      modifies this
      ensures old(Valid()) ==> Valid()
      ensures tasks == CompleteMatching(old(tasks), taskId, result)
      ensures conversations == old(conversations)
      ensures r == Summarize(tasks, conversations, taskId)
      ensures r == Failure(UnknownTask(taskId)) <==> forall i :: 0 <= i < |old(tasks)| ==> old(tasks)[i].taskId != taskId
      ensures r == Failure(UnknownTask(taskId)) ==> tasks == old(tasks)
      ensures FindTask(old(tasks), taskId).Some? ==>
        (r == Failure(PatternTooLong(taskId))
         <==> LikeRefused(old(tasks)[FindTask(old(tasks), taskId).value].description, conversations))
      ensures r.Failure? ==> r.error == UnknownTask(taskId) || r.error == PatternTooLong(taskId)
      ensures r.Success? ==> IsSubstring(taskId, r.value) && IsSubstring(result, r.value)
    {
      ghost var before := tasks;
      var i := 0;
      while i < |tasks|
        invariant 0 <= i <= |tasks| == |before|
        invariant forall k :: 0 <= k < i ==> tasks[k] == CompleteRow(before[k], taskId, result)
        invariant forall k :: i <= k < |tasks| ==> tasks[k] == before[k]
        invariant conversations == old(conversations)
      {
        if tasks[i].taskId == taskId {
          tasks := tasks[i := tasks[i].(status := Completed, result := Some(result))];
        }
        i := i + 1;
      }
      assert tasks == CompleteMatching(before, taskId, result);
      if old(Valid()) {
        CompleteKeepsConsistent(hash, conversations, before, taskId, result);
      }
      CallbackSummary(before, conversations, taskId, result);
      r := Summarize(tasks, conversations, taskId);
    }
  }

  /** The same task text sent twice makes two pending rows that share one id,
      each with its own logged turn. */
  method RepeatedTaskShareId(hash: string -> int, text: string) returns (store: CommunicationModule)
    requires DetectIntent(text) == Task
    ensures |store.tasks| == 2 && |store.conversations| == 2
    ensures store.tasks[0] == store.tasks[1] == TaskRecord(TaskId(hash, text), text, Pending, None)
  {
    store := new CommunicationModule(hash, [], []);
    var _, first := store.HandleUserInput(text);
    var _, second := store.HandleUserInput(text);
    assert first == second;
  }
}
