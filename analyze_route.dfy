/** The text-building and short-text guard of the `/analyze` and
    `/analyze-batch` request handlers. */
module AnalyzeRoute {
  import opened Wrappers
  import opened Strings
  import opened Json
  import ReplyNormalizer

  /** Texts whose trimmed length is below this are not summarised. */
  const MinTextLength: nat := 20
  const TooShortSummary: string := "Conversation too short or empty."

  /** One entry of a `messages` array: `${m.sender || "Unknown"}: ${m.text || ""}`.
      `None` is the TypeError thrown when the entry is `null`. */
  function MessageLine(m: Json): (r: Option<string>)
    ensures r.None? <==> m.JNull?
  {
    if m.JNull? then None
    else
      var sender := Get(m, "sender");
      var text := Get(m, "text");
      var who := if sender.Some? && Truthy(sender.value) then ToText(sender.value) else "Unknown";
      var what := if text.Some? && Truthy(text.value) then ToText(text.value) else "";
      Some(who + ": " + what)
  }

  /** `messages.map(...)`, failing at the first `null` entry. */
  function MessageLines(ms: seq<Json>): (r: Option<seq<string>>)
    ensures r.None? <==> exists i :: 0 <= i < |ms| && ms[i].JNull?
    ensures r.Some? ==> |r.value| == |ms| && forall i :: 0 <= i < |ms| ==> Some(r.value[i]) == MessageLine(ms[i])
  {
    if ms == [] then Some([])
    else
      var head, tail := MessageLine(ms[0]), MessageLines(ms[1..]);
      if head.Some? && tail.Some? then Some([head.value] + tail.value) else None
  }

  /** `buildConversationText(body)`: the string `conversationText`, else the
      string `conversation`, else the `messages` array rendered one line per
      entry, else "". `None` is the TypeError a `null` entry raises. */
  function BuildConversationText(body: Json): (r: Option<string>)
    ensures !Truthy(body) ==> r == Some("")
    ensures Truthy(body) && GetString(body, "conversationText").Some? ==> r == GetString(body, "conversationText")
    ensures Truthy(body) && GetString(body, "conversationText").None? && GetString(body, "conversation").Some?
      ==> r == GetString(body, "conversation")
    ensures r.None? ==> GetArray(body, "messages").Some?
  {
    if !Truthy(body) then Some("")
    else if GetString(body, "conversationText").Some? then GetString(body, "conversationText")
    else if GetString(body, "conversation").Some? then GetString(body, "conversation")
    else if GetArray(body, "messages").Some? then
      match MessageLines(GetArray(body, "messages").value)
      case Some(lines) => Some(Join(lines, "\n"))
      case None => None
    else Some("")
  }

  /** `isTooShort(text)`: `!text || text.trim().length < 20`. */
  predicate IsTooShort(text: string) {
    text == "" || |Trim(text)| < MinTextLength
  }

  /** The falsy test is subsumed: a text is too short exactly when its
      trimmed length is below 20. */
  lemma TooShortIffTrimmed(text: string)
    ensures IsTooShort(text) <==> |Trim(text)| < MinTextLength
  {
  }

  /** What a handler answers. `NoResponse` is the rejected handler when
      building the text throws before the `try`. */
  datatype Response =
    | Reply(body: Json)
    | ServerError
    | NoResponse

  /** The reply sent for a too-short conversation. */
  const TooShortReply: Json := JObj(map["summary" := JStr(TooShortSummary), "mood" := JStr("neutral")])

  /** The body of both handlers, `/analyze` and `/analyze-batch` (they
      differ only in a configuration argument that the summariser ignores).
      `summarise` is the summariser call: `None` when it throws. */
  function Handle(body: Json, summarise: string -> Option<ReplyNormalizer.Analysis>): (r: Response)
    ensures BuildConversationText(body).Some? && IsTooShort(BuildConversationText(body).value)
      ==> r == Reply(TooShortReply)
    ensures BuildConversationText(body).None? <==> r == NoResponse
  {
    match BuildConversationText(body)
    case None => NoResponse
    case Some(text) =>
      if IsTooShort(text) then Reply(TooShortReply)
      else match summarise(text)
        case Some(a) => Reply(ReplyNormalizer.ToJson(a))
        case None => ServerError
  }

  /** A too-short text is answered without consulting the summariser. */
  lemma TooShortSkipsSummariser(body: Json, s1: string -> Option<ReplyNormalizer.Analysis>,
                                s2: string -> Option<ReplyNormalizer.Analysis>)
    requires BuildConversationText(body).Some? && IsTooShort(BuildConversationText(body).value)
    ensures Handle(body, s1) == Handle(body, s2) == Reply(TooShortReply)
  {
  }

  /** A text that reaches the summariser has at least 20 characters once trimmed. */
  lemma SummarisedTextsAreLongEnough(body: Json, summarise: string -> Option<ReplyNormalizer.Analysis>)
    requires Handle(body, summarise) != Reply(TooShortReply) && Handle(body, summarise) != NoResponse
    ensures BuildConversationText(body).Some? && |Trim(BuildConversationText(body).value)| >= MinTextLength
  {
  }

  /** A message entry with a string sender and text and no line breaks. */
  predicate PlainEntry(m: Json) {
    && GetString(m, "sender").Some? && GetString(m, "sender").value != ""
    && GetString(m, "text").Some?
    && '\n' !in GetString(m, "sender").value
    && '\n' !in GetString(m, "text").value
  }

  /** "sender: text" for a plain entry. */
  function PlainLine(m: Json): string
    requires PlainEntry(m)
  {
    GetString(m, "sender").value + ": " + GetString(m, "text").value
  }

  /** For a `messages` body whose entries have plain string fields, splitting
      the built text at line breaks gives back one "sender: text" line per
      entry, in order. */
  lemma MessagesRoundTrip(body: Json, ms: seq<Json>)
    requires Truthy(body) && GetString(body, "conversationText").None? && GetString(body, "conversation").None?
    requires GetArray(body, "messages") == Some(ms) && |ms| >= 1
    requires forall i :: 0 <= i < |ms| ==> PlainEntry(ms[i])
    ensures BuildConversationText(body).Some?
    ensures |SplitOn(BuildConversationText(body).value, '\n')| == |ms|
    ensures forall i :: 0 <= i < |ms| ==> SplitOn(BuildConversationText(body).value, '\n')[i] == PlainLine(ms[i])
  {
    var lines := MessageLines(ms).value;
    forall i | 0 <= i < |ms|
      ensures lines[i] == PlainLine(ms[i])
      ensures '\n' !in lines[i]
    {
      var se := GetString(ms[i], "sender").value;
      var te := GetString(ms[i], "text").value;
      assert Some(lines[i]) == MessageLine(ms[i]);
      assert '\n' !in ": ";
      if te == "" {
        assert lines[i] == se + ": " + "";
      }
    }
    SplitJoin(lines, '\n');
  }
}
