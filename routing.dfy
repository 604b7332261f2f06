/** The pure half of the conversational router: the keyword classifier, the
    canned replies and the task identifier derived from a description. */
module Routing {
  import opened Strings
  import opened Records

  /** The trigger phrases: "boka", "schedule", "möte", "meeting", "påminn", "remind". */
  const TASK_KEYWORDS: seq<string> :=
    ["boka", "schedule", "m\U{F6}te", "meeting", "p\U{E5}minn", "remind"]

  /** The fixed acknowledgement returned on the task path. */
  const ACKNOWLEDGEMENT: string := "Toppen, jag fixar det"

  /** What the chat stand-in puts in front of the echoed input. */
  const CHAT_PREFIX: string := "Jag h\U{F6}rde att du sa: "

  /** What the task path logs as its response, in front of the task id. */
  const TASK_CREATED_PREFIX: string := "Task created: "

  /** What every task id starts with, in front of the hash of its description. */
  const TASK_ID_PREFIX: string := "task_"

  /** `any(keyword in text for keyword in keywords)`. */
  function AnyKeywordIn(keywords: seq<string>, text: string): (r: bool)
    ensures r <==> exists k :: k in keywords && IsSubstring(k, text)
  {
    if |keywords| == 0 then
      false
    else
      assert forall k :: k in keywords <==> k == keywords[0] || k in keywords[1..];
      Contains(keywords[0], text) || AnyKeywordIn(keywords[1..], text)
  }

  /** The intent classifier: "task" when a trigger phrase occurs in the
      lower-cased text, "chat" otherwise. */
  function DetectIntent(text: string): (r: Intent)
    ensures r == Task <==> exists k :: k in TASK_KEYWORDS && IsSubstring(k, Lower(text))
    ensures r == Chat <==> forall k :: k in TASK_KEYWORDS ==> !IsSubstring(k, Lower(text))
  {
    if AnyKeywordIn(TASK_KEYWORDS, Lower(text)) then Task else Chat
  }

  /** Classification ignores letter case: a text and its lower-cased form get
      the same intent. */
  lemma DetectIntentIgnoresCase(text: string)
    ensures DetectIntent(Lower(text)) == DetectIntent(text)
  {
    LowerIdempotent(text);
  }

  /** The booking example: "Boka ett möte med Anna imorgon kl 10" is a task,
      found through the capitalised "Boka". */
  lemma BookingExampleIsTask()
    ensures DetectIntent("Boka ett m\U{F6}te med Anna imorgon kl 10") == Task
  {
    var lowered := Lower("Boka ett m\U{F6}te med Anna imorgon kl 10");
    assert lowered[0] == 'b' && lowered[1] == 'o' && lowered[2] == 'k' && lowered[3] == 'a';
    assert "boka" <= lowered[0..];
    assert "boka" in TASK_KEYWORDS;
  }

  /** A trigger phrase written in capitals still makes a task: "MÖTE". */
  lemma CapitalisedMeetingIsTask()
    ensures DetectIntent("M\U{D6}TE") == Task
  {
  }

  /** A question without a trigger phrase, "Hur mår du?", is chat. */
  lemma GreetingIsChat()
    ensures DetectIntent("Hur m\U{E5}r du?") == Chat
  {
    var lowered := Lower("Hur m\U{E5}r du?");
    assert lowered == "hur m\U{E5}r du?";
    // each trigger phrase has a letter that the question lacks
    forall k | k in TASK_KEYWORDS
      ensures !IsSubstring(k, lowered)
    {
      var missing := if k == "m\U{F6}te" then '\U{F6}' else if k in ["meeting", "remind"] then 'e' else k[0];
      assert missing in k && missing !in lowered;
      if IsSubstring(k, lowered) {
        SubstringCharsOccur(k, lowered, missing);
      }
    }
  }

  /** The chat stand-in's reply: the input echoed behind a fixed prefix. */
  function ChatResponse(text: string): (r: string)
    ensures |r| == |CHAT_PREFIX| + |text|
  {
    CHAT_PREFIX + text
  }

  /** The echo can be read back: the reply determines the input. */
  lemma ChatResponseRecoversInput(text: string)
    ensures ChatResponse(text)[..|CHAT_PREFIX|] == CHAT_PREFIX
    ensures ChatResponse(text)[|CHAT_PREFIX|..] == text
  {
  }

  /** Two different inputs never get the same chat reply. */
  lemma ChatResponseInjective(a: string, b: string)
    ensures ChatResponse(a) == ChatResponse(b) <==> a == b
  {
    if ChatResponse(a) == ChatResponse(b) {
      ChatResponseRecoversInput(a);
      ChatResponseRecoversInput(b);
    }
  }

  /** `f"task_{hash(description)}"`, for the hash function of the running process. */
  function TaskId(hash: string -> int, description: string): (r: string)
  {
    TASK_ID_PREFIX + IntText(hash(description))
  }

  /** The task id is a function of the description alone, and two descriptions
      share an id exactly when their hashes are equal: equal descriptions
      always share one. */
  lemma TaskIdSharedIffHashEqual(hash: string -> int, d1: string, d2: string)
    ensures TaskId(hash, d1) == TaskId(hash, d2) <==> hash(d1) == hash(d2)
    ensures d1 == d2 ==> TaskId(hash, d1) == TaskId(hash, d2)
  {
    var t1, t2 := TaskId(hash, d1), TaskId(hash, d2);
    assert t1[|TASK_ID_PREFIX|..] == IntText(hash(d1));
    assert t2[|TASK_ID_PREFIX|..] == IntText(hash(d2));
    IntTextInjective(hash(d1), hash(d2));
  }

  /** The response logged for a created task. */
  function TaskCreatedText(taskId: string): (r: string)
  {
    TASK_CREATED_PREFIX + taskId
  }
}
