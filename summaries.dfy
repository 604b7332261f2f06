/** The summary a callback returns: the first task row carrying the id, and
    the logged inputs that contain the task's description. */
module Summaries {
  import opened Strings
  import opened Records
  import opened Routing
  import opened Tables

  /** `SELECT * FROM tasks WHERE task_id = ?` followed by `fetchone()`: the
      position of the first row carrying the id, or `None`. */
  function FindTask(tasks: seq<TaskRecord>, taskId: string): (r: Option<nat>)
    ensures r.None? <==> forall i :: 0 <= i < |tasks| ==> tasks[i].taskId != taskId
    ensures r.Some? ==> r.value < |tasks| && tasks[r.value].taskId == taskId
    ensures r.Some? ==> forall i :: 0 <= i < r.value ==> tasks[i].taskId != taskId
  {
    if |tasks| == 0 then
      None
    else if tasks[0].taskId == taskId then
      Some(0)
    else
      match FindTask(tasks[1..], taskId)
      case None => None
      case Some(i) => Some(i + 1)
  }

  /** `SELECT * FROM conversations WHERE user_input LIKE '%d%'`, with LIKE
      read as plain substring containment: the matching inputs in log order. */
  function RelatedInputs(log: seq<ConversationRecord>, description: string): (r: seq<string>)
    ensures |r| <= |log|
    ensures forall x :: x in r ==> IsSubstring(description, x)
    ensures forall x :: x in r ==> exists j :: 0 <= j < |log| && log[j].userInput == x
    ensures forall j :: 0 <= j < |log| && IsSubstring(description, log[j].userInput) ==> log[j].userInput in r
    ensures r == [] <==> forall j :: 0 <= j < |log| ==> !IsSubstring(description, log[j].userInput)
  {
    if |log| == 0 then
      []
    else
      var last := log[|log| - 1];
      var earlier := RelatedInputs(log[..|log| - 1], description);
      assert forall j :: 0 <= j < |log| - 1 ==> log[..|log| - 1][j] == log[j];
      earlier + (if Contains(description, last.userInput) then [last.userInput] else [])
  }

  /** The positions of the logged turns whose input contains the description:
      increasing, and holding exactly the matching positions. */
  function MatchingPositions(log: seq<ConversationRecord>, description: string): (ps: seq<nat>)
    ensures forall k :: 0 <= k < |ps| ==> ps[k] < |log|
    ensures forall k, l :: 0 <= k < l < |ps| ==> ps[k] < ps[l]
    ensures forall j :: 0 <= j < |log| ==> (j in ps <==> IsSubstring(description, log[j].userInput))
  {
    if |log| == 0 then
      []
    else
      var n := |log| - 1;
      var earlier := MatchingPositions(log[..n], description);
      assert forall j :: 0 <= j < n ==> log[..n][j] == log[j];
      earlier + (if Contains(description, log[n].userInput) then [n] else [])
  }

  /** One step of `MatchingPositions`: the last turn's position is added at
      the end exactly when its input contains the description. */
  lemma MatchingPositionsStep(log: seq<ConversationRecord>, description: string)
    requires |log| > 0
    ensures MatchingPositions(log, description)
         == MatchingPositions(log[..|log| - 1], description)
          + (if Contains(description, log[|log| - 1].userInput) then [|log| - 1] else [])
  {
  }

  /** Extending a filter by the last turn: if `earlier` lists the inputs at
      the positions `ps` of the log without its last turn, then adding that
      turn to both, or to neither, keeps the correspondence. */
  lemma FilterStep(log: seq<ConversationRecord>, earlier: seq<string>, ps: seq<nat>, hit: bool,
                   r: seq<string>, m: seq<nat>)
    requires |log| > 0 && |earlier| == |ps|
    requires forall k :: 0 <= k < |ps| ==> ps[k] < |log| - 1
    requires forall k :: 0 <= k < |earlier| ==> earlier[k] == log[..|log| - 1][ps[k]].userInput
    requires r == earlier + (if hit then [log[|log| - 1].userInput] else [])
    requires m == ps + (if hit then [|log| - 1] else [])
    ensures |r| == |m|
    ensures forall k :: 0 <= k < |r| ==> r[k] == log[m[k]].userInput
  {
    forall k | 0 <= k < |r|
      ensures r[k] == log[m[k]].userInput
    {
      if k < |earlier| {
        assert r[k] == earlier[k] && m[k] == ps[k];
        assert log[..|log| - 1][ps[k]] == log[ps[k]];
      }
    }
  }

  /** The related inputs are exactly the filter of the log: one entry per
      matching turn, in log order. */
  lemma {:induction false} RelatedInputsIsFilter(log: seq<ConversationRecord>, description: string)
    ensures |RelatedInputs(log, description)| == |MatchingPositions(log, description)|
    ensures forall k :: 0 <= k < |RelatedInputs(log, description)| ==>
      RelatedInputs(log, description)[k] == log[MatchingPositions(log, description)[k]].userInput
  {
    if |log| > 0 {
      var n := |log| - 1;
      RelatedInputsIsFilter(log[..n], description);
      var hit := Contains(description, log[n].userInput);
      assert RelatedInputs(log, description) == RelatedInputs(log[..n], description) + (if hit then [log[n].userInput] else []);
      MatchingPositionsStep(log, description);
      FilterStep(log, RelatedInputs(log[..n], description), MatchingPositions(log[..n], description), hit,
                 RelatedInputs(log, description), MatchingPositions(log, description));
    }
  }

  /** Logging a turn adds its input to the related list of every description
      it contains, at the end, and to no other. */
  lemma RelatedInputsAppend(log: seq<ConversationRecord>, turn: ConversationRecord, description: string)
    ensures RelatedInputs(log + [turn], description)
         == RelatedInputs(log, description) + (if IsSubstring(description, turn.userInput) then [turn.userInput] else [])
  {
  }

  /** Python's f-string rendering of a nullable column: NULL prints as "None". */
  function ResultText(result: Option<string>): (r: string)
  {
    match result
    case Some(text) => text
    case None => "None"
  }

  /** `f"- {user_input}"` for each related input. */
  function Bullets(inputs: seq<string>): (r: seq<string>)
  {
    seq(|inputs|, i requires 0 <= i < |inputs| => "- " + inputs[i])
  }

  const SUMMARY_HEAD: string := "Task Summary:\nID: "
  const DESCRIPTION_HEAD: string := "\nDescription: "
  const RESULT_HEAD: string := "\nResult: "
  const RELATED_HEAD: string := "\n\nRelated Conversations:\n"

  /** The text of the summary, from the task's fields and the related inputs.
      The pieces are nested to the right, `A + (B + (C + ...))`, so that the
      `SubstringOfSuffix` chains in `AboveResult` and `SummaryMentions` match
      the text term by term. */
  function SummaryText(taskId: string, description: string, result: Option<string>, related: seq<string>): (r: string)
  {
    SUMMARY_HEAD + (taskId + (DESCRIPTION_HEAD + (description + (RESULT_HEAD + (ResultText(result)
      + (RELATED_HEAD + JoinLines(Bullets(related))))))))
  }

  /** What occurs in the part of a summary that starts at the result occurs
      in the whole summary. */
  lemma AboveResult(x: string, taskId: string, description: string, fromResult: string)
    requires IsSubstring(x, fromResult)
    ensures IsSubstring(x, SUMMARY_HEAD + (taskId + (DESCRIPTION_HEAD + (description + (RESULT_HEAD + fromResult)))))
  {
    SubstringOfSuffix(x, RESULT_HEAD, fromResult);
    SubstringOfSuffix(x, description, RESULT_HEAD + fromResult);
    SubstringOfSuffix(x, DESCRIPTION_HEAD, description + (RESULT_HEAD + fromResult));
    SubstringOfSuffix(x, taskId, DESCRIPTION_HEAD + (description + (RESULT_HEAD + fromResult)));
    SubstringOfSuffix(x, SUMMARY_HEAD, taskId + (DESCRIPTION_HEAD + (description + (RESULT_HEAD + fromResult))));
  }

  /** The summary holds the id, the description and the result verbatim, and a
      bullet for every related input. */
  lemma SummaryMentions(taskId: string, description: string, result: Option<string>, related: seq<string>)
    ensures IsSubstring(taskId, SummaryText(taskId, description, result, related))
    ensures IsSubstring(description, SummaryText(taskId, description, result, related))
    ensures IsSubstring(ResultText(result), SummaryText(taskId, description, result, related))
    ensures forall k :: 0 <= k < |related| ==>
      IsSubstring("- " + related[k], SummaryText(taskId, description, result, related))
  {
    // the summary, read from its end
    var joined := JoinLines(Bullets(related));
    var fromRelated := RELATED_HEAD + joined;
    var fromResult := ResultText(result) + fromRelated;
    var fromResultHead := RESULT_HEAD + fromResult;
    var fromDescription := description + fromResultHead;
    var fromDescriptionHead := DESCRIPTION_HEAD + fromDescription;
    var fromId := taskId + fromDescriptionHead;
    var s := SUMMARY_HEAD + fromId;
    assert s == SummaryText(taskId, description, result, related);

    SubstringOfStart(taskId, fromDescriptionHead);
    SubstringOfSuffix(taskId, SUMMARY_HEAD, fromId);

    SubstringOfStart(description, fromResultHead);
    SubstringOfSuffix(description, DESCRIPTION_HEAD, fromDescription);
    SubstringOfSuffix(description, taskId, fromDescriptionHead);
    SubstringOfSuffix(description, SUMMARY_HEAD, fromId);

    SubstringOfStart(ResultText(result), fromRelated);
    AboveResult(ResultText(result), taskId, description, fromResult);

    forall k | 0 <= k < |related|
      ensures IsSubstring("- " + related[k], s)
    {
      JoinLinesContainsEach(Bullets(related), k);
      SubstringOfSuffix("- " + related[k], RELATED_HEAD, joined);
      SubstringOfSuffix("- " + related[k], ResultText(result), fromRelated);
      AboveResult("- " + related[k], taskId, description, fromResult);
    }
  }

  /** With no related input the summary ends right after its last heading. */
  lemma SummaryWithoutRelated(taskId: string, description: string, result: Option<string>)
    ensures SummaryText(taskId, description, result, [])
         == SUMMARY_HEAD + (taskId + (DESCRIPTION_HEAD + (description + (RESULT_HEAD + (ResultText(result) + RELATED_HEAD)))))
  {
  }

  /** SQLite's default limit on the length of a LIKE pattern, in bytes
      (SQLITE_MAX_LIKE_PATTERN_LENGTH in "Limits In SQLite"). */
  const LIKE_PATTERN_LIMIT: nat := 50000

  /** The pattern `f"%{description}%"` bound to the related-turn query. */
  function LikePattern(description: string): (r: string)
    ensures |r| == |description| + 2
  {
    "%" + description + "%"
  }

  /** SQLite refuses the query when the pattern is longer than the limit in
      UTF-8 bytes. The check runs when the first row is compared, so an empty
      `conversations` table is never refused. */
  predicate LikeRefused(description: string, log: seq<ConversationRecord>)
  {
    |log| > 0 && Utf8Length(LikePattern(description)) > LIKE_PATTERN_LIMIT
  }

  /** The query is refused exactly when the log is not empty and the
      description takes more than 49998 bytes. */
  lemma LikeRefusedThreshold(description: string, log: seq<ConversationRecord>)
    ensures LikeRefused(description, log) <==> |log| > 0 && Utf8Length(description) > LIKE_PATTERN_LIMIT - 2
  {
    Utf8LengthConcat("%", description);
    Utf8LengthConcat("%" + description, "%");
  }

  /** A description of at most 12499 characters is never refused, and one of
      more than 49998 characters always is when the log is not empty. */
  lemma LikeRefusedByLength(description: string, log: seq<ConversationRecord>)
    ensures |description| <= (LIKE_PATTERN_LIMIT - 2) / 4 ==> !LikeRefused(description, log)
    ensures |description| > LIKE_PATTERN_LIMIT - 2 && |log| > 0 ==> LikeRefused(description, log)
  {
    LikeRefusedThreshold(description, log);
  }

  /** When no logged input contains the found task's description, the
      summary's conversation section is empty (unless the pattern itself is
      refused). */
  lemma SummaryWithoutRelatedTurns(tasks: seq<TaskRecord>, log: seq<ConversationRecord>, taskId: string)
    requires FindTask(tasks, taskId).Some?
    requires forall j :: 0 <= j < |log| ==>
      !IsSubstring(tasks[FindTask(tasks, taskId).value].description, log[j].userInput)
    ensures var row := tasks[FindTask(tasks, taskId).value];
      Summarize(tasks, log, taskId)
      == if LikeRefused(row.description, log) then Failure(PatternTooLong(taskId))
         else Success(SummaryText(taskId, row.description, row.result, []))
  {
    var i := FindTask(tasks, taskId).value;
    assert RelatedInputs(log, tasks[i].description) == [];
  }

  /** `_generate_summary`: the first row carrying the id and the inputs that
      contain its description. An id that no row carries is an error, and so
      is a description whose LIKE pattern SQLite refuses. */
  function Summarize(tasks: seq<TaskRecord>, log: seq<ConversationRecord>, taskId: string): (r: Result<string, CallbackError>)
    ensures r == Failure(UnknownTask(taskId)) <==> forall i :: 0 <= i < |tasks| ==> tasks[i].taskId != taskId
    ensures FindTask(tasks, taskId).Some? ==>
      (r == Failure(PatternTooLong(taskId)) <==> LikeRefused(tasks[FindTask(tasks, taskId).value].description, log))
    ensures r.Failure? ==> r.error == UnknownTask(taskId) || r.error == PatternTooLong(taskId)
  {
    match FindTask(tasks, taskId)
    case None => Failure(UnknownTask(taskId))
    case Some(i) =>
      var row := tasks[i];
      if LikeRefused(row.description, log) then Failure(PatternTooLong(taskId))
      else Success(SummaryText(taskId, row.description, row.result, RelatedInputs(log, row.description)))
  }

  /** A task's own turn is always among its related conversations: in a
      consistent store the summary of any task succeeds exactly when its
      description fits the LIKE limit, and then lists the description as a
      bullet. */
  lemma SummaryListsOwnTurn(hash: string -> int, log: seq<ConversationRecord>, tasks: seq<TaskRecord>, taskId: string)
    requires Consistent(hash, log, tasks)
    requires FindTask(tasks, taskId).Some?
    ensures Summarize(tasks, log, taskId).Success?
        <==> Utf8Length(tasks[FindTask(tasks, taskId).value].description) <= LIKE_PATTERN_LIMIT - 2
    ensures Summarize(tasks, log, taskId).Success? ==>
      IsSubstring("- " + tasks[FindTask(tasks, taskId).value].description, Summarize(tasks, log, taskId).value)
  {
    var i := FindTask(tasks, taskId).value;
    var d := tasks[i].description;
    RowHasTurn(hash, log, tasks, i);
    var j :| 0 <= j < |log| && log[j].userInput == d && log[j].intent == Task;
    LikeRefusedThreshold(d, log);
    SubstringReflexive(d);
    var related := RelatedInputs(log, d);
    assert d in related;
    var k :| 0 <= k < |related| && related[k] == d;
    SummaryMentions(taskId, d, tasks[i].result, related);
  }

  /** What a callback answers: an error, with the table untouched, exactly when
      no row carries the id; an error after the update when SQLite refuses the
      first such row's description as a LIKE pattern; otherwise a summary of
      that row that holds the id, its description and the delivered result. */
  lemma CallbackSummary(tasks: seq<TaskRecord>, log: seq<ConversationRecord>, taskId: string, result: string)
    ensures var r := Summarize(CompleteMatching(tasks, taskId, result), log, taskId);
      && (r == Failure(UnknownTask(taskId)) <==> forall i :: 0 <= i < |tasks| ==> tasks[i].taskId != taskId)
      && (r == Failure(UnknownTask(taskId)) ==> CompleteMatching(tasks, taskId, result) == tasks)
      && (r.Failure? ==> r.error == UnknownTask(taskId) || r.error == PatternTooLong(taskId))
      && (FindTask(tasks, taskId).Some? ==>
            (r == Failure(PatternTooLong(taskId)) <==> LikeRefused(tasks[FindTask(tasks, taskId).value].description, log)))
      && (r.Success? ==>
            && FindTask(tasks, taskId).Some?
            && var d := tasks[FindTask(tasks, taskId).value].description;
            && r.value == SummaryText(taskId, d, Some(result), RelatedInputs(log, d))
            && IsSubstring(taskId, r.value)
            && IsSubstring(d, r.value)
            && IsSubstring(result, r.value))
  {
    var updated := CompleteMatching(tasks, taskId, result);
    assert forall i :: 0 <= i < |tasks| ==> updated[i].taskId == tasks[i].taskId;
    match FindTask(tasks, taskId)
    case None =>
      CompleteMatchingNoMatch(tasks, taskId, result);
    case Some(i) =>
      var found := FindTask(updated, taskId);
      assert found == Some(i);
      CompleteMatchingEffect(tasks, taskId, result, i);
      var d := tasks[i].description;
      SummaryMentions(taskId, d, Some(result), RelatedInputs(log, d));
  }
}
