# HappyAI communication module, modelled in Dafny

This project models `CommunicationModule`, the conversational front end of
the HappyAI backend (`backend/communication_module.py`). Each user input is
classified as a *task* or as *chat* by a keyword test on the lower-cased
text. On the task path the module inserts a pending row into the `tasks`
table under the id `task_<hash of the text>` and answers with a fixed
acknowledgement. On the chat path it echoes the input behind a fixed Swedish
prefix. Either way it logs exactly one row in the `conversations` table.
Later, the external task system calls back with a task id and a result. The
module then marks every row carrying that id as completed and answers with a
summary. The summary holds the task's id, description and result, and one
bullet for every logged input that contains the description. The callback
fails for an id that no row carries. It also fails, after the update, when
SQLite refuses the description as a LIKE pattern longer than its 50000-byte
limit.

Layout:

- `strings.dfy` (module `Strings`): the parts of Python's `str` the module
  relies on. These are the `in` substring test (`IsSubstring` as the
  specification, `Contains` as the scan), `lower()`, `"\n".join` and `str(int)`.
- `records.dfy` (module `Records`): the rows of both tables, the intent and
  status values, and the `Option`/`Result` types.
- `routing.dfy` (module `Routing`): the keyword classifier, the reply texts
  and the task id.
- `tables.dfy` (module `Tables`): the callback's UPDATE as a function on the
  `tasks` sequence, and the store invariant `Consistent`. The invariant says
  every logged turn agrees with the router and every task row carries the id
  of its description. It also says the task rows match the task turns one to
  one and in order.
- `summaries.dfy` (module `Summaries`): the row lookup, the related-turn
  query and the summary text.
- `communication_module.dfy` (module `Communication`): the class
  `CommunicationModule`. The two tables are `seq` fields that its methods
  reassign. `HandleCallback` updates the matching rows in a loop.

The classifier and the summary are pure functions. Everything that writes
to the store is a method of the class. Each method's contract states the new
contents of both tables in terms of the old ones. The two public entry
points, `HandleUserInput` and `HandleCallback`, also keep `Valid()`, the
store invariant, whenever it held before the call. They do not require it,
because a store opened on an existing database file may hold rows that break
it. The helpers `CreateTask` and `LogConversation` each perform only half of
a routed step, so on their own they do not keep the invariant.

## Model

| member | source | states |
|---|---|---|
| `Strings.Contains` | backend/communication_module.py:53 | the scan answers true exactly when the needle occurs at some position of the text (Python's `in` on strings) |
| `Strings.LowerIdempotent` | backend/communication_module.py:53 | lowering an already lowered text changes nothing |
| `Strings.JoinLinesContainsEach` | backend/communication_module.py:97 | `"\n".join` loses no line: each joined line occurs in the result |
| `Strings.Utf8LengthConcat` | backend/communication_module.py:91-93 | the UTF-8 byte length of a concatenation, such as the LIKE pattern `%d%`, is the sum of the parts' byte lengths |
| `Strings.IntTextInjective` | backend/communication_module.py:60 | the decimal text of an integer, as interpolated into the task id, is equal for two integers exactly when they are equal |
| `Routing.AnyKeywordIn` | backend/communication_module.py:53 | `any(keyword in text ...)` is true exactly when some keyword of the list occurs in the text |
| `Routing.DetectIntent` | backend/communication_module.py:50-55 | the intent is task exactly when one of "boka", "schedule", "möte", "meeting", "påminn", "remind" occurs in the lower-cased text, and chat exactly when none does; no third value exists |
| `Routing.DetectIntentIgnoresCase` | backend/communication_module.py:53 | a text and its lower-cased form get the same intent |
| `Routing.BookingExampleIsTask` | backend/communication_module.py:50-55 | "Boka ett möte med Anna imorgon kl 10" is classified as a task |
| `Routing.CapitalisedMeetingIsTask` | backend/communication_module.py:52-54 | "MÖTE" in capitals is classified as a task, through the lowering of Ö |
| `Routing.GreetingIsChat` | backend/communication_module.py:50-55 | "Hur mår du?" contains no trigger phrase and is classified as chat |
| `Routing.ChatResponseRecoversInput` | backend/communication_module.py:67-70 | the chat reply is the prefix "Jag hörde att du sa: " followed by the input, verbatim |
| `Routing.ChatResponseInjective` | backend/communication_module.py:67-70 | two inputs get the same chat reply exactly when they are equal |
| `Routing.TaskIdSharedIffHashEqual` | backend/communication_module.py:60 | the task id depends on the description only: two descriptions share an id exactly when their hashes are equal, so identical descriptions always share one |
| `Tables.CompleteMatchingEffect` | backend/communication_module.py:74-76 | the UPDATE keeps the table's length, sets every row with the id to completed with the given result (keeping id and description), and leaves every other row as it was |
| `Tables.CompleteMatchingNoMatch` | backend/communication_module.py:74-76 | an id that no row carries leaves the table unchanged |
| `Tables.CompleteMatchingLastWins` | backend/communication_module.py:74-76 | the UPDATE does not check the status: a second callback for the same id overwrites the first one's result |
| `Tables.RouteKeepsConsistent` | backend/communication_module.py:37-48 | routing one input (one turn logged, one pending row on the task path) keeps the store invariant |
| `Tables.CompleteKeepsConsistent` | backend/communication_module.py:72-77 | a callback keeps the store invariant |
| `Tables.RowHasTurn` | backend/communication_module.py:41-43 | in a consistent store every task row's description is the input of a logged task turn |
| `Summaries.FindTask` | backend/communication_module.py:89-90 | the lookup yields the first row carrying the id, or nothing exactly when no row carries it |
| `Summaries.RelatedInputs` | backend/communication_module.py:91-93 | every related input is a logged input that contains the description, and every logged input containing it is among them. The list is empty exactly when no logged input contains the description |
| `Summaries.RelatedInputsIsFilter` | backend/communication_module.py:91-93 | the related inputs are exactly the inputs of the matching turns, one per turn and in log order. The matching turns are given by `MatchingPositions`, an increasing list that holds exactly the positions whose input contains the description |
| `Summaries.RelatedInputsAppend` | backend/communication_module.py:91-93 | logging a turn appends its input to the related list of exactly the descriptions it contains |
| `Summaries.SummaryMentions` | backend/communication_module.py:95-97 | the summary holds the id, the description and the result verbatim, and a "- " bullet for every related input |
| `Summaries.LikeRefusedThreshold` | backend/communication_module.py:91-93 | SQLite refuses the related-turn query exactly when the log is not empty and the description takes more than 49998 UTF-8 bytes, because the pattern `%d%` then exceeds the 50000-byte LIKE limit |
| `Summaries.LikeRefusedByLength` | backend/communication_module.py:91-93 | a description of at most 12499 characters is never refused; one of more than 49998 characters always is when the log is not empty |
| `Summaries.SummaryWithoutRelatedTurns` | backend/communication_module.py:87-98 | when no logged input contains the found row's description, the summary is the task's fields followed by an empty conversation section, unless SQLite refuses the pattern |
| `Summaries.SummaryWithoutRelated` | backend/communication_module.py:95-97 | with no related input the summary ends right after "Related Conversations:\n" |
| `Summaries.Summarize` | backend/communication_module.py:87-98 | the summary step fails with the unknown id exactly when no task row carries the id. When a row carries it, the step fails with `PatternTooLong` exactly when SQLite refuses the first such row's description as a LIKE pattern. No other failure exists |
| `Summaries.SummaryListsOwnTurn` | backend/communication_module.py:87-98 | in a consistent store the summary of a task succeeds exactly when its description takes at most 49998 UTF-8 bytes, and then lists the task's own input as a related conversation |
| `Summaries.CallbackSummary` | backend/communication_module.py:72-98 | after the UPDATE the summary fails with the unknown id exactly when no row had the id, and then the table is unchanged. It fails with `PatternTooLong`, after the UPDATE, exactly when SQLite refuses the first matching row's description. Otherwise it is that row's summary and holds the id, the description and the delivered result |
| `Communication.CommunicationModule.constructor` | backend/communication_module.py:9-35 | the store opens with the rows the database file already holds, none for a new file. An empty store satisfies the invariant |
| `Communication.CommunicationModule.HandleUserInput` | backend/communication_module.py:37-48 | a task id is returned exactly when the intent is task. The task path replies "Toppen, jag fixar det", appends one pending row and logs "Task created: " + id. The chat path replies with the echo, leaves the tasks unchanged and logs that reply. Exactly one turn is appended either way. The store invariant is kept whenever it held before |
| `Communication.CommunicationModule.CreateTask` | backend/communication_module.py:57-65 | appends exactly one row: id `task_<hash>`, the description, status pending, no result; the log is unchanged |
| `Communication.CommunicationModule.LogConversation` | backend/communication_module.py:80-85 | appends exactly the given turn; the tasks are unchanged |
| `Communication.CommunicationModule.HandleCallback` | backend/communication_module.py:72-78 | the tasks become the UPDATE of the old ones and the log is unchanged. The answer is the unknown-id error, with nothing changed, exactly when no row had the id. It is the `PatternTooLong` error, with the UPDATE kept, exactly when SQLite refuses the first matching row's description as a LIKE pattern. Otherwise the summary holds the id and the result. The store invariant is kept whenever it held before |
| `Communication.RepeatedTaskShareId` | backend/communication_module.py:57-65 | sending the same task text twice yields two identical pending rows sharing one id |

## Left out

- The SQLite connection, schema creation and `commit` calls are not modelled. The two tables are sequence fields, and every write is complete when the method returns.
- The source opens `context.db` and creates the tables only if they are missing, so a new module sees the rows of earlier runs. The model passes those rows to the constructor. The model does not read them from a file. Rows from earlier runs got their ids from another process's randomised `hash`, so they need not satisfy `Valid()`. For such a store the methods still promise their effect on both tables, but they do not promise the invariant.
- The auto-increment `id` columns are not modelled; a row's position in its sequence stands for its id. The `timestamp` and `created_at` columns are not modelled, because the clock sets them.
- Rows come back in insertion order. SQLite gives that order in practice for queries without `ORDER BY`, although it does not promise it.
- The concrete value of Python's `hash` is not modelled, because it is randomised per process. It is the constructor's parameter `hash`, an arbitrary function from strings to integers. The resulting id text is `task_` followed by the decimal integer, as `str(int)` writes it.
- Strings.Lower: lowers ASCII capitals and the Latin-1 capitals U+00C0..U+00DE except U+00D7 (this covers Å, Ä and Ö). Other characters stay unchanged, whereas Python's full Unicode `lower()` would lower more of them.
- Summaries.RelatedInputs: reads SQLite's `LIKE '%d%'` as plain substring containment. `LIKE` also ignores ASCII letter case and treats `%` and `_` inside the description as wildcards, so SQLite can return rows the model leaves out. SQLite's refusal of a pattern longer than 50000 bytes is modelled, in `Summaries.Summarize`, as the error `PatternTooLong`. That limit is fixed at SQLite's default; a build or connection that changes it is not modelled.
- The `requests` import, the placeholder for the external task service and the placeholder for the language model are not modelled. The chat reply is the echo stand-in, and the id is the hash-based stand-in.
- The `__main__` example is not modelled as a program. Its input is classified in `Routing.BookingExampleIsTask`.
- Unique task ids and a single pending-to-completed transition per task are described as intended for this system, but the code guarantees neither. The model follows the code: identical task texts share an id (`Communication.RepeatedTaskShareId`), and a repeated callback overwrites (`Tables.CompleteMatchingLastWins`).
- A missing id is modelled as the error result `UnknownTask`, not as a summary. In the source the UPDATE then changes nothing and the summary step fails reading a field of the missing row. A refused LIKE pattern is likewise the error result `PatternTooLong`, where the source raises SQLite's "pattern too complex" error after the UPDATE is committed.
