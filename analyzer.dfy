/** Turning a summariser reply into the fixed analysis shape: clamping an
    arbitrary parsed value (`normalizeResult`) and the three-stage recovery
    from a raw reply text (`extractJsonContent`). */
module ReplyNormalizer {
  import opened Wrappers
  import opened Strings
  import opened Json

  /** The shape every normalised reply has. */
  datatype Analysis = Analysis(summary: string, mood: string, relationshipType: string, topics: seq<string>)

  const DefaultSummary: string := "No summary."
  const Defaults: Analysis := Analysis(DefaultSummary, "neutral", "personal", [])
  const MaxTopics: nat := 5

  /** `ALLOWED_MOODS`. */
  predicate IsAllowedMood(m: string) {
    m == "positive" || m == "neutral" || m == "negative" || m == "mixed"
  }

  predicate IsRelationship(r: string) {
    r == "personal" || r == "professional"
  }

  /** A string with no white space at either end and at least one character. */
  predicate IsTrimmedNonEmpty(s: string) {
    s != [] && !IsSpace(s[0]) && !IsSpace(s[|s| - 1])
  }

  /** The shape `normalizeResult` promises. */
  predicate WellShaped(a: Analysis) {
    && IsTrimmedNonEmpty(a.summary)
    && IsAllowedMood(a.mood)
    && IsRelationship(a.relationshipType)
    && |a.topics| <= MaxTopics
    && (forall i :: 0 <= i < |a.topics| ==> IsTrimmedNonEmpty(a.topics[i]))
  }

  /** `.filter(t => typeof t === "string").map(t => t.trim()).filter(Boolean)`. */
  function CleanTopics(xs: seq<Json>): (r: seq<string>)
    ensures |r| <= |xs|
    ensures forall i :: 0 <= i < |r| ==> IsTrimmedNonEmpty(r[i])
  {
    if xs == [] then []
    else
      var rest := CleanTopics(xs[1..]);
      if xs[0].JStr? && Trim(xs[0].s) != "" then [Trim(xs[0].s)] + rest else rest
  }

  /** The topics of a reply: from `topics` if it is an array, else from
      `topTopics` if that is, else none; at most five are kept. */
  function TopicsOf(data: Json): (r: seq<string>)
    ensures |r| <= MaxTopics
    ensures forall i :: 0 <= i < |r| ==> IsTrimmedNonEmpty(r[i])
  {
    var source :=
      if GetArray(data, "topics").Some? then GetArray(data, "topics").value
      else if GetArray(data, "topTopics").Some? then GetArray(data, "topTopics").value
      else [];
    var cleaned := CleanTopics(source);
    if |cleaned| <= MaxTopics then cleaned else cleaned[..MaxTopics]
  }

  /** The summary: the trimmed `summary` field when it is a non-blank string,
      else "No summary.". */
  function SummaryOf(data: Json): (r: string)
    ensures IsTrimmedNonEmpty(r)
  {
    if GetString(data, "summary").Some? && Trim(GetString(data, "summary").value) != ""
    then Trim(GetString(data, "summary").value) else DefaultSummary
  }

  /** The mood: the `mood` field trimmed and lower-cased when it is one of
      the allowed moods, else "neutral". */
  function MoodOf(data: Json): (r: string)
    ensures IsAllowedMood(r)
  {
    var rawMood := if GetString(data, "mood").Some? then ToLower(Trim(GetString(data, "mood").value)) else "";
    if IsAllowedMood(rawMood) then rawMood else "neutral"
  }

  /** The relationship: `relationshipType` when it is a string, else
      `relationship` when that is, trimmed and lower-cased; anything but
      "professional" becomes "personal". */
  function RelationshipOf(data: Json): (r: string)
    ensures IsRelationship(r)
  {
    var rawRelationship :=
      if GetString(data, "relationshipType").Some? then ToLower(Trim(GetString(data, "relationshipType").value))
      else if GetString(data, "relationship").Some? then ToLower(Trim(GetString(data, "relationship").value))
      else "";
    if rawRelationship == "professional" then "professional"
    else if rawRelationship == "personal" then "personal"
    else "personal"
  }

  /** `normalizeResult(data)`. */
  function NormalizeResult(data: Json): (r: Analysis)
    ensures WellShaped(r)
    ensures !Truthy(data) || !IsObjectType(data) ==> r == Defaults
  {
    if !Truthy(data) || !IsObjectType(data) then Defaults
    else Analysis(SummaryOf(data), MoodOf(data), RelationshipOf(data), TopicsOf(data))
  }

  /** The reply object a normalised analysis is sent back as. */
  function ToJson(a: Analysis): Json {
    JObj(map[
      "summary" := JStr(a.summary),
      "mood" := JStr(a.mood),
      "relationshipType" := JStr(a.relationshipType),
      "topics" := JArr(StringItems(a.topics))])
  }

  /** The topics as an array of JSON strings. */
  function StringItems(ts: seq<string>): (r: seq<Json>)
    ensures |r| == |ts|
    ensures forall i :: 0 <= i < |ts| ==> r[i] == JStr(ts[i])
  {
    if ts == [] then [] else [JStr(ts[0])] + StringItems(ts[1..])
  }

  lemma {:induction false} CleanTopicsKeeps(ts: seq<string>)
    requires forall i :: 0 <= i < |ts| ==> IsTrimmedNonEmpty(ts[i])
    ensures CleanTopics(StringItems(ts)) == ts
  {
    if ts != [] {
      assert StringItems(ts)[1..] == StringItems(ts[1..]);
      CleanTopicsKeeps(ts[1..]);
      TrimFixed(ts[0]);
      assert [ts[0]] + ts[1..] == ts;
    }
  }

  lemma LowerAllowedFixed(m: string)
    requires IsAllowedMood(m) || IsRelationship(m)
    ensures Trim(m) == m && ToLower(m) == m
  {
    if m == "positive" { WordFixed("positive"); }
    else if m == "neutral" { WordFixed("neutral"); }
    else if m == "negative" { WordFixed("negative"); }
    else if m == "mixed" { WordFixed("mixed"); }
    else if m == "personal" { WordFixed("personal"); }
    else { WordFixed("professional"); }
  }

  /** A lower-case word with no white space at either end. */
  lemma WordFixed(w: string)
    requires w != [] && forall i :: 0 <= i < |w| ==> 'a' <= w[i] <= 'z'
    ensures Trim(w) == w && ToLower(w) == w
  {
    TrimFixed(w);
    ToLowerFixed(w);
  }

  lemma SummaryKept(a: Analysis)
    requires WellShaped(a)
    ensures SummaryOf(ToJson(a)) == a.summary
  {
    assert GetString(ToJson(a), "summary") == Some(a.summary);
    TrimFixed(a.summary);
  }

  lemma MoodKept(a: Analysis)
    requires WellShaped(a)
    ensures MoodOf(ToJson(a)) == a.mood
  {
    assert GetString(ToJson(a), "mood") == Some(a.mood);
    LowerAllowedFixed(a.mood);
  }

  lemma RelationshipKept(a: Analysis)
    requires WellShaped(a)
    ensures RelationshipOf(ToJson(a)) == a.relationshipType
  {
    assert GetString(ToJson(a), "relationshipType") == Some(a.relationshipType);
    LowerAllowedFixed(a.relationshipType);
  }

  lemma TopicsKept(a: Analysis)
    requires WellShaped(a)
    ensures TopicsOf(ToJson(a)) == a.topics
  {
    assert GetArray(ToJson(a), "topics") == Some(StringItems(a.topics));
    CleanTopicsKeeps(a.topics);
  }

  /** A reply that already has the normalised shape comes through unchanged. */
  lemma NormalizeKeepsWellShaped(a: Analysis)
    requires WellShaped(a)
    ensures NormalizeResult(ToJson(a)) == a
  {
    var d := ToJson(a);
    assert Truthy(d) && IsObjectType(d);
    assert NormalizeResult(d) == Analysis(SummaryOf(d), MoodOf(d), RelationshipOf(d), TopicsOf(d));
    SummaryKept(a);
    MoodKept(a);
    RelationshipKept(a);
    TopicsKept(a);
  }

  /** `normalizeResult` is idempotent: normalising its own output (sent as a
      reply object) changes nothing. */
  lemma NormalizeIdempotent(data: Json)
    ensures NormalizeResult(ToJson(NormalizeResult(data))) == NormalizeResult(data)
  {
    NormalizeKeepsWellShaped(NormalizeResult(data));
  }

  /** The summary is the trimmed `summary` field when that is a non-blank
      string, and "No summary." otherwise. */
  lemma NormalizeSummary(data: Json)
    ensures GetString(data, "summary").Some? && !IsBlank(GetString(data, "summary").value)
      ==> NormalizeResult(data).summary == Trim(GetString(data, "summary").value)
    ensures GetString(data, "summary").None? || IsBlank(GetString(data, "summary").value)
      ==> NormalizeResult(data).summary == DefaultSummary
  {
  }

  /** `relationshipType` is read whenever it is a string, even an
      unrecognised one; `relationship` is consulted only when it is not. */
  lemma RelationshipPrecedence(data: Json, other: Json)
    requires data.JObj? && GetString(data, "relationshipType").Some?
    ensures NormalizeResult(JObj(data.fields["relationship" := other])).relationshipType
         == NormalizeResult(data).relationshipType
  {
    var d2 := JObj(data.fields["relationship" := other]);
    assert GetString(d2, "relationshipType") == GetString(data, "relationshipType");
  }

  // ---------------------------------------------------------------------
  // extractJsonContent

  /** Position of the last `c` in `s`, or -1. */
  function LastIndexOf(s: string, c: char): (r: int)
    ensures -1 <= r < |s|
    ensures 0 <= r ==> s[r] == c
    ensures forall b :: 0 <= b < |s| && s[b] == c ==> b <= r
  {
    if s == [] then -1
    else if s[|s| - 1] == c then |s| - 1
    else LastIndexOf(s[..|s| - 1], c)
  }

  /** `raw.match(/{[\s\S]*}/)`: the text from the first '{' to the last '}',
      when some '}' comes after the first '{'. */
  function BraceFragment(raw: string): (r: Option<string>)
    ensures r.Some? <==> exists i, j :: 0 <= i < j < |raw| && raw[i] == '{' && raw[j] == '}'
    ensures r.Some? ==> |r.value| >= 2 && r.value[0] == '{' && r.value[|r.value| - 1] == '}'
    ensures r.Some? ==> '{' !in raw[..IndexOf(raw, '{')] && r.value == raw[IndexOf(raw, '{')..LastIndexOf(raw, '}') + 1]
  {
    var i, j := IndexOf(raw, '{'), LastIndexOf(raw, '}');
    if 0 <= i < j then Some(raw[i..j + 1]) else None
  }

  /** The alternatives of `/positive|negative|mixed|neutral/i`, in order. */
  const MoodWords: seq<string> := ["positive", "negative", "mixed", "neutral"]

  /** Whether `w` occurs in `s` at position `p`, ignoring ASCII case. */
  predicate WordAt(s: string, p: nat, w: string) {
    p + |w| <= |s| && ToLower(s[p..p + |w|]) == w
  }

  /** The first alternative of the mood pattern that matches `s` at position `p`. */
  function MoodWordAt(s: string, p: nat): (r: Option<string>)
    ensures r.Some? ==> IsAllowedMood(r.value) && WordAt(s, p, r.value)
    ensures r.None? <==> (!WordAt(s, p, "positive") && !WordAt(s, p, "negative")
                          && !WordAt(s, p, "mixed") && !WordAt(s, p, "neutral"))
  {
    if WordAt(s, p, "positive") then Some("positive")
    else if WordAt(s, p, "negative") then Some("negative")
    else if WordAt(s, p, "mixed") then Some("mixed")
    else if WordAt(s, p, "neutral") then Some("neutral")
    else None
  }

  /** The leftmost position at or after `p` where the mood pattern matches. */
  function ScanMood(s: string, p: nat): (r: Option<nat>)
    requires p <= |s|
    ensures r.Some? ==> p <= r.value < |s| && MoodWordAt(s, r.value).Some?
    ensures r.Some? ==> forall q :: p <= q < r.value ==> MoodWordAt(s, q).None?
    ensures r.None? ==> forall q :: p <= q < |s| ==> MoodWordAt(s, q).None?
    decreases |s| - p
  {
    if p == |s| then None
    else if MoodWordAt(s, p).Some? then Some(p)
    else ScanMood(s, p + 1)
  }

  /** `/positive|negative|mixed|neutral/i.exec(raw)?.[0]?.toLowerCase() || "neutral"`:
      the leftmost mood word of `raw`, lower-cased, or "neutral". */
  function FallbackMood(raw: string): (r: string)
    ensures IsAllowedMood(r)
    ensures (forall q :: 0 <= q < |raw| ==> MoodWordAt(raw, q).None?) ==> r == "neutral"
  {
    match ScanMood(raw, 0)
    case Some(q) => MoodWordAt(raw, q).value
    case None => "neutral"
  }

  /** `extractJsonContent(raw)` with `JSON.parse` as the partial function
      `parse` (`None` is a thrown SyntaxError). */
  function ExtractJsonContent(raw: Option<string>, parse: string -> Option<Json>): (r: Analysis)
    ensures WellShaped(r)
    ensures raw.None? || raw == Some("") ==> r == Defaults
  {
    if raw.None? || raw.value == "" then NormalizeResult(JNull)
    else
      var text := raw.value;
      match parse(text)
      case Some(v) => NormalizeResult(v)
      case None =>
        var fragment := BraceFragment(text);
        if fragment.Some? && parse(fragment.value).Some? then NormalizeResult(parse(fragment.value).value)
        else NormalizeResult(FallbackReply(text))
  }

  /** `{ summary: raw, mood: fallbackMood }`. */
  function FallbackReply(raw: string): Json {
    JObj(map["summary" := JStr(raw), "mood" := JStr(FallbackMood(raw))])
  }

  lemma FallbackFields(raw: string)
    ensures GetString(FallbackReply(raw), "summary") == Some(raw)
    ensures GetString(FallbackReply(raw), "mood") == Some(FallbackMood(raw))
    ensures GetString(FallbackReply(raw), "relationshipType") == None
    ensures GetString(FallbackReply(raw), "relationship") == None
    ensures GetArray(FallbackReply(raw), "topics") == None
    ensures GetArray(FallbackReply(raw), "topTopics") == None
  {
  }

  /** When both parses fail the raw text becomes the summary (trimmed, or
      "No summary." when blank), the mood is the leftmost mood word in it,
      ignoring case, else neutral, and the other fields take their defaults. */
  lemma ExtractFallback(raw: string, parse: string -> Option<Json>)
    requires raw != "" && parse(raw).None?
    requires BraceFragment(raw).None? || parse(BraceFragment(raw).value).None?
    ensures ExtractJsonContent(Some(raw), parse).summary == (if IsBlank(raw) then DefaultSummary else Trim(raw))
    ensures ExtractJsonContent(Some(raw), parse).mood == FallbackMood(raw)
    ensures ExtractJsonContent(Some(raw), parse).relationshipType == "personal"
    ensures ExtractJsonContent(Some(raw), parse).topics == []
  {
    var m := FallbackMood(raw);
    var d := FallbackReply(raw);
    assert ExtractJsonContent(Some(raw), parse) == NormalizeResult(d);
    assert Truthy(d) && IsObjectType(d);
    assert NormalizeResult(d) == Analysis(SummaryOf(d), MoodOf(d), RelationshipOf(d), TopicsOf(d));
    FallbackFields(raw);
    LowerAllowedFixed(m);
  }

  /** A reply that parses as a whole is normalised as it is; the fragment is
      looked at only when the whole text does not parse. */
  lemma ExtractWholeFirst(raw: string, parse: string -> Option<Json>)
    requires raw != "" && parse(raw).Some?
    ensures ExtractJsonContent(Some(raw), parse) == NormalizeResult(parse(raw).value)
  {
  }
}
