/** Per-session orchestration: build each session's transcript, classify it,
    ask the summariser for the sessions worth summarising, store each
    outcome in the slot of its session and compact the slots. */
module Orchestrator {
  import opened Wrappers
  import opened Strings
  import opened Json
  import opened Messages
  import opened Segmenter

  /** Transcripts longer than this are skipped. */
  const MaxTranscriptLength: nat := 50000
  /** Transcripts shorter than this are trivial. */
  const MinTranscriptLength: nat := 20
  const TooLargeSummary: string := "Segment too large, skipped."
  const TrivialSummary: string := "Empty or trivial conversation."

  /** A result object: JSON fields by name. Map union `a + b` is the object
      spread `{...a, ...b}`: on a shared key the right operand wins. */
  type Record = map<string, Json>

  /** The summariser round trip for the session at index `idx` with its
      transcript; `None` is a failed call. */
  type Summariser = (nat, string) -> Option<Record>

  /** The message takes part in the transcript: its text is not blank. */
  predicate HasText(m: Message) {
    !IsBlank(m.text)
  }

  /** `${m.sender || "Unknown"}: ${m.text.replace(/\s+/g, " ").trim()}`. */
  function Line(m: Message): string {
    (if m.sender == "" then "Unknown" else m.sender) + ": " + Trim(CollapseSpaces(m.text))
  }

  /** The lines of a session's transcript, one per message with text, in order. */
  function Lines(segment: seq<Message>): (r: seq<string>)
    ensures |r| <= |segment|
  {
    if segment == [] then []
    else (if HasText(segment[0]) then [Line(segment[0])] else []) + Lines(segment[1..])
  }

  /** The flattened transcript of a session. */
  function Transcript(segment: seq<Message>): string {
    Join(Lines(segment), "\n")
  }

  /** A line exists exactly for the messages whose text is not blank. */
  lemma {:induction false} LinesCount(segment: seq<Message>)
    ensures |Lines(segment)| == |segment| - CountBlank(segment)
  {
    if segment != [] {
      LinesCount(segment[1..]);
    }
  }

  /** The messages whose text is not blank, in order. */
  function WithText(segment: seq<Message>): seq<Message> {
    if segment == [] then []
    else (if HasText(segment[0]) then [segment[0]] else []) + WithText(segment[1..])
  }

  /** `WithText` keeps exactly the messages with text. */
  lemma {:induction false} WithTextMembers(segment: seq<Message>)
    ensures forall m :: m in WithText(segment) <==> m in segment && HasText(m)
  {
    if segment != [] {
      WithTextMembers(segment[1..]);
      assert forall m :: m in segment <==> m == segment[0] || m in segment[1..];
    }
  }

  /** One line per message, in order. */
  function LinesOf(ms: seq<Message>): (r: seq<string>)
    ensures |r| == |ms|
    ensures forall k :: 0 <= k < |ms| ==> r[k] == Line(ms[k])
  {
    if ms == [] then [] else [Line(ms[0])] + LinesOf(ms[1..])
  }

  /** The transcript lines are the lines of the messages with text, in
      order: line `k` is the sender of the `k`-th such message, then its
      text with single ordinary spaces and no surrounding white space. */
  lemma {:induction false} LinesFromMessages(segment: seq<Message>)
    ensures Lines(segment) == LinesOf(WithText(segment))
  {
    if segment != [] {
      LinesFromMessages(segment[1..]);
      LinesCons(segment);
      var w := WithText(segment[1..]);
      if HasText(segment[0]) {
        assert WithText(segment) == [segment[0]] + w;
        assert ([segment[0]] + w)[1..] == w;
      } else {
        assert WithText(segment) == w;
      }
    }
  }

  lemma LinesCons(segment: seq<Message>)
    requires segment != []
    ensures HasText(segment[0]) ==> Lines(segment) == [Line(segment[0])] + Lines(segment[1..])
    ensures !HasText(segment[0]) ==> Lines(segment) == Lines(segment[1..])
  {
  }

  /** The transcript has no line exactly when every text is blank. */
  lemma {:induction false} LinesEmpty(segment: seq<Message>)
    ensures Lines(segment) == [] <==> forall i :: 0 <= i < |segment| ==> !HasText(segment[i])
  {
    if segment != [] {
      LinesEmpty(segment[1..]);
      if forall i :: 0 <= i < |segment[1..]| ==> !HasText(segment[1..][i]) {
        forall i | 1 <= i < |segment| ensures !HasText(segment[i]) {
          assert segment[i] == segment[1..][i - 1];
        }
      }
    }
  }

  /** The number of messages whose text is blank. */
  function CountBlank(segment: seq<Message>): nat {
    if segment == [] then 0 else (if HasText(segment[0]) then 0 else 1) + CountBlank(segment[1..])
  }

  /** No transcript line holds a line break when no sender does. */
  lemma {:induction false} LinesHaveNoBreak(segment: seq<Message>)
    requires forall i :: 0 <= i < |segment| ==> '\n' !in segment[i].sender
    ensures forall k :: 0 <= k < |Lines(segment)| ==> '\n' !in Lines(segment)[k]
  {
    if segment != [] {
      LinesHaveNoBreak(segment[1..]);
      var t := Trim(CollapseSpaces(segment[0].text));
      CollapsedTrimmed(segment[0].text);
      SingleSpacedHasNoBreak(t);
      assert '\n' !in ": ";
    }
  }

  /** When no sender contains a line break, splitting the transcript at line
      breaks gives back its lines: one per message with text. */
  lemma TranscriptRoundTrip(segment: seq<Message>)
    requires forall i :: 0 <= i < |segment| ==> '\n' !in segment[i].sender
    requires Lines(segment) != []
    ensures SplitOn(Transcript(segment), '\n') == Lines(segment)
  {
    LinesHaveNoBreak(segment);
    SplitJoin(Lines(segment), '\n');
  }

  /** What the orchestrator does with a transcript. */
  datatype Kind = TooLarge | Trivial | Submit

  /** The size check comes first and is strict; then the empty-or-short check. */
  function Classify(text: string): (k: Kind)
    ensures k == TooLarge <==> |text| > MaxTranscriptLength
    ensures k == Trivial <==> |text| < MinTranscriptLength
    ensures k == Submit <==> MinTranscriptLength <= |text| <= MaxTranscriptLength
  {
    if |text| > MaxTranscriptLength then TooLarge
    else if text == "" || |text| < MinTranscriptLength then Trivial
    else Submit
  }

  /** `date + " " + time` of a message. */
  function Stamp(m: Message): string {
    m.date + " " + m.time
  }

  /** `{ id: idx + 1, start, end }`. */
  function BaseResult(segment: seq<Message>, idx: nat): Record
    requires segment != []
  {
    map["id" := JNum(idx + 1), "start" := JStr(Stamp(segment[0])), "end" := JStr(Stamp(segment[|segment| - 1]))]
  }

  /** `{ summary, mood: "neutral" }` for a placeholder result. */
  function Placeholder(summary: string): Record {
    map["summary" := JStr(summary), "mood" := JStr("neutral")]
  }

  /** `analyzeOne(segment, idx, total)`: what it stores in slot `idx`, or
      `None` when the summariser call fails and the slot stays empty. */
  function AnalyzeOne(segment: seq<Message>, idx: nat, summarise: Summariser): (r: Option<Record>)
    requires segment != []
    ensures r.None? <==> Classify(Transcript(segment)) == Submit && summarise(idx, Transcript(segment)).None?
    ensures r.Some? ==> "id" in r.value && "start" in r.value && "end" in r.value
    ensures Classify(Transcript(segment)) == TooLarge ==> r == Some(BaseResult(segment, idx) + Placeholder(TooLargeSummary))
    ensures Classify(Transcript(segment)) == Trivial ==> r == Some(BaseResult(segment, idx) + Placeholder(TrivialSummary))
    ensures Classify(Transcript(segment)) == Submit && summarise(idx, Transcript(segment)).Some? ==>
      var reply := summarise(idx, Transcript(segment)).value;
      && r.value.Keys == BaseResult(segment, idx).Keys + reply.Keys
      && (forall key :: key in reply ==> r.value[key] == reply[key])
      && (forall key :: key in BaseResult(segment, idx) && key !in reply ==> r.value[key] == BaseResult(segment, idx)[key])
  {
    var text := Transcript(segment);
    var base := BaseResult(segment, idx);
    match Classify(text)
    case TooLarge => Some(base + Placeholder(TooLargeSummary))
    case Trivial => Some(base + Placeholder(TrivialSummary))
    case Submit =>
      match summarise(idx, text)
      case Some(reply) => Some(base + reply)
      case None => None
  }

  /** A filled slot carries the session's own number and time range unless
      the summariser's reply overrides those fields. */
  lemma ResultIdentity(segment: seq<Message>, idx: nat, summarise: Summariser)
    requires segment != [] && AnalyzeOne(segment, idx, summarise).Some?
    requires Classify(Transcript(segment)) == Submit ==> "id" !in summarise(idx, Transcript(segment)).value
    ensures AnalyzeOne(segment, idx, summarise).value["id"] == JNum(idx + 1)
  {
  }

  /** The placeholders are made without consulting the summariser. */
  lemma PlaceholderSkipsSummariser(segment: seq<Message>, idx: nat, s1: Summariser, s2: Summariser)
    requires segment != [] && Classify(Transcript(segment)) != Submit
    ensures AnalyzeOne(segment, idx, s1) == AnalyzeOne(segment, idx, s2)
  {
  }

  /** The slot contents for the first `n` sessions. */
  function Outcomes(segments: seq<seq<Message>>, n: nat, summarise: Summariser): (r: seq<Option<Record>>)
    requires n <= |segments|
    requires forall k :: 0 <= k < |segments| ==> segments[k] != []
    ensures |r| == n
  {
    if n == 0 then []
    else Outcomes(segments, n - 1, summarise) + [AnalyzeOne(segments[n - 1], n - 1, summarise)]
  }

  lemma {:induction false} OutcomesAt(segments: seq<seq<Message>>, n: nat, summarise: Summariser, k: nat)
    requires n <= |segments|
    requires forall j :: 0 <= j < |segments| ==> segments[j] != []
    requires k < n
    ensures Outcomes(segments, n, summarise)[k] == AnalyzeOne(segments[k], k, summarise)
  {
    if k < n - 1 {
      OutcomesAt(segments, n - 1, summarise, k);
    }
  }

  /** A failure of one session's call leaves every other session's slot as
      it would have been. */
  lemma {:induction false} FailureIsolation(segments: seq<seq<Message>>, s1: Summariser, s2: Summariser, j: nat)
    requires forall k :: 0 <= k < |segments| ==> segments[k] != []
    requires forall k, t :: k != j ==> s1(k, t) == s2(k, t)
    ensures forall k :: 0 <= k < |segments| && k != j ==>
      Outcomes(segments, |segments|, s1)[k] == Outcomes(segments, |segments|, s2)[k]
  {
    forall k | 0 <= k < |segments| && k != j
      ensures Outcomes(segments, |segments|, s1)[k] == Outcomes(segments, |segments|, s2)[k]
    {
      OutcomesAt(segments, |segments|, s1, k);
      OutcomesAt(segments, |segments|, s2, k);
    }
  }

  /** `results.filter(Boolean)`: the filled slots in slot order. */
  function Compact(slots: seq<Option<Record>>): seq<Record> {
    if slots == [] then []
    else Compact(slots[..|slots| - 1]) + (if slots[|slots| - 1].Some? then [slots[|slots| - 1].value] else [])
  }

  /** The number of slots left empty by a failed call. */
  function Failures(slots: seq<Option<Record>>): nat {
    if slots == [] then 0
    else Failures(slots[..|slots| - 1]) + (if slots[|slots| - 1].None? then 1 else 0)
  }

  /** One call of `onProgress(result, idx + 1, total)`. */
  datatype Progress = Progress(result: Record, position: nat, total: nat)

  /** The progress calls made while the slots are filled in session order. */
  function Events(slots: seq<Option<Record>>, total: nat): seq<Progress> {
    if slots == [] then []
    else
      var last := slots[|slots| - 1];
      Events(slots[..|slots| - 1], total) + (if last.Some? then [Progress(last.value, |slots|, total)] else [])
  }

  lemma EventsSnoc(slots: seq<Option<Record>>, o: Option<Record>, total: nat)
    ensures Events(slots + [o], total) == Events(slots, total) + (if o.Some? then [Progress(o.value, |slots| + 1, total)] else [])
  {
    assert (slots + [o])[..|slots|] == slots;
  }

  /** The result list holds every filled slot and nothing else: its length is
      the number of sessions less the failures. */
  lemma {:induction false} CompactLength(slots: seq<Option<Record>>)
    ensures |Compact(slots)| == |slots| - Failures(slots)
  {
    if slots != [] {
      CompactLength(slots[..|slots| - 1]);
    }
  }

  /** One progress call per filled slot: the k-th call reports the k-th
      result, at that session's own position (1-based), with the session
      count as total. */
  lemma {:induction false} EventsMatchResults(slots: seq<Option<Record>>, total: nat)
    ensures |Events(slots, total)| == |Compact(slots)|
    ensures forall k :: 0 <= k < |Events(slots, total)| ==>
      var e := Events(slots, total)[k];
      && e.result == Compact(slots)[k] && e.total == total
      && 1 <= e.position <= |slots| && slots[e.position - 1] == Some(e.result)
  {
    if slots != [] {
      var init := slots[..|slots| - 1];
      EventsMatchResults(init, total);
      InitAgrees(slots);
    }
  }

  lemma InitAgrees(slots: seq<Option<Record>>)
    requires slots != []
    ensures forall q :: 0 <= q < |slots| - 1 ==> slots[q] == slots[..|slots| - 1][q]
  {
  }

  /** The progress calls come in increasing session order. */
  lemma {:induction false} EventsOrdered(slots: seq<Option<Record>>, total: nat)
    ensures forall k :: 0 <= k < |Events(slots, total)| ==> 1 <= Events(slots, total)[k].position <= |slots|
    ensures forall k :: 0 < k < |Events(slots, total)| ==>
      Events(slots, total)[k - 1].position < Events(slots, total)[k].position
  {
    if slots != [] {
      EventsOrdered(slots[..|slots| - 1], total);
    }
  }

  /** `analyzeSegments(messages, onProgress)`, run one session after the
      other: the sessions come from `segmentByGap` with its four-hour
      default; slot `idx` receives session `idx`'s outcome; the result is the
      compacted slot array and `progress` lists the `onProgress` calls. */
  method AnalyzeSegments(messages: seq<Message>, parse: DateParser, summarise: Summariser)
    returns (results: seq<Record>, progress: seq<Progress>)
    ensures var segments := Sessions(messages, GapMs(DefaultGapHours * 60), parse);
      && (forall k :: 0 <= k < |segments| ==> segments[k] != [])
      && results == Compact(Outcomes(segments, |segments|, summarise))
      && progress == Events(Outcomes(segments, |segments|, summarise), |segments|)
  {
    var segments := SegmentByGap(messages, parse);
    var slots := new Option<Record>[|segments|](_ => None);
    progress := FillSlots(segments, slots, summarise);
    results := CompactSlots(slots);
  }

  /** The loop over the sessions: slot `idx` receives session `idx`'s
      outcome and every filled slot reports progress. */
  method FillSlots(segments: seq<seq<Message>>, slots: array<Option<Record>>, summarise: Summariser)
    returns (progress: seq<Progress>)
    requires slots.Length == |segments|
    requires forall k :: 0 <= k < |segments| ==> segments[k] != []
    modifies slots
    ensures slots[..] == Outcomes(segments, |segments|, summarise)
    ensures progress == Events(slots[..], |segments|)
  {
    var n := |segments|;
    progress := [];
    ghost var outs: seq<Option<Record>> := [];
    for idx := 0 to n
      invariant outs == Outcomes(segments, idx, summarise)
      invariant slots[..idx] == outs
      invariant progress == Events(outs, n)
    {
      var outcome := AnalyzeOne(segments[idx], idx, summarise);
      slots[idx] := outcome;
      if outcome.Some? {
        progress := progress + [Progress(outcome.value, idx + 1, n)];
      }
      EventsSnoc(outs, outcome, n);
      OutcomesSnoc(segments, idx, summarise, outcome);
      outs := outs + [outcome];
      SliceSnoc(slots[..], idx);
    }
    assert slots[..] == slots[..n];
  }

  lemma OutcomesSnoc(segments: seq<seq<Message>>, idx: nat, summarise: Summariser, outcome: Option<Record>)
    requires idx < |segments| && forall k :: 0 <= k < |segments| ==> segments[k] != []
    requires outcome == AnalyzeOne(segments[idx], idx, summarise)
    ensures Outcomes(segments, idx + 1, summarise) == Outcomes(segments, idx, summarise) + [outcome]
  {
  }

  lemma SliceSnoc<T>(s: seq<T>, i: nat)
    requires i < |s|
    ensures s[..i + 1] == s[..i] + [s[i]]
  {
  }

  /** `results.filter(Boolean)` over the slot array. */
  method CompactSlots(slots: array<Option<Record>>) returns (results: seq<Record>)
    ensures results == Compact(slots[..])
  {
    results := [];
    for i := 0 to slots.Length
      invariant results == Compact(slots[..i])
    {
      if slots[i].Some? {
        results := results + [slots[i].value];
      }
      assert slots[..i + 1][..i] == slots[..i];
    }
    assert slots[..slots.Length] == slots[..];
  }
}
