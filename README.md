# whatsapp-chat-sentiment, modelled in Dafny

This project models the data-processing core of whatsapp-chat-sentiment, a
tool that reads an exported WhatsApp transcript, cuts it into conversation
sessions, has each session summarised by a language model, clusters the
summaries into themes and scores the messages for sentiment. It covers:

- the transcript reader: line splitting, the two header formats, folding
  continuation lines, participants, the chat name and the date range;
- the gap segmenter, which splits the message list wherever two consecutive
  messages are further apart than a threshold;
- the per-session orchestrator: transcript building, the too-large and
  trivial placeholders, the index-keyed slot array and its compaction, and
  the progress calls;
- the normalisation of summariser replies (`normalizeResult`) and the
  three-stage extraction from a raw reply (`extractJsonContent`);
- the `/analyze` and `/analyze-batch` handlers' text building and
  too-short guard;
- the online greedy clusterer, with its centroid averaging and theme
  summaries;
- sentiment aggregation: the per-message records, grouping by date, the
  most positive and most negative message, and the mood label;
- the chat view's own-name resolution cascade and its "is me" test.

Everything outside the program's own logic is a parameter:

- the `Date` constructor, as a partial function from text to milliseconds
  (`None` is an Invalid Date);
- the summariser, as an oracle from a session index and its transcript to
  a reply record or a failure;
- the embedder, as a partial function from text to a vector;
- cosine similarity, as a function of two vectors;
- `JSON.parse`, as a partial function from text to a JSON value;
- the `sentiment` library, as a function from text to an integer score.

There is one Dafny module per source file (`WhatsappParser`, `Segmenter`,
`Orchestrator`, `ReplyNormalizer`, `AnalyzeRoute`, `Clustering`,
`Sentiment`, `ChatView`). Four helper modules support them:

- `Wrappers`: `Option`.
- `Strings`: `trim`, ASCII `toLowerCase`, `includes`, `split`, `join`, and
  whitespace collapsing.
- `Json`: JSON values, JavaScript truthiness and property reads.
- `Messages`: the message record.

Code that changes state step by step is modelled with loops and their
invariants. This covers the segmenter loop, the orchestrator's slot array
(a Dafny `array`), the clusterer's loops, the parser's line loop, the
grouping `forEach` and the display-name cascade. Each such method is
proved equal to a specification function, and lemmas state what the source
promises about that function.

Behaviour the model keeps as the code has it:

- **Meridiem after an ordinary space.** A time like `11:11 PM` written with
  an ordinary space before the meridiem does not match either header
  pattern. Only U+202F, or no space at all, is accepted there.
- **Disjoint header formats.** No line matches both formats: a bracketed
  header starts with `[` and a dashed one with a digit. So the format order
  never matters.
- **Empty-name participants.** A participant whose normalised name is empty
  overlaps every target, so `matchPartial` finds it for any name. If its
  original is the empty string, `||` then falls through to the fallback.
  If the original is white space only, it is returned.
- **Both handlers are one.** `/analyze` and `/analyze-batch` differ only in
  a configuration argument, and the summariser ignores it. The model has
  one handler.

## Model

| member | source | states |
|---|---|---|
| Segmenter.DateTimeText | src/utils/segmentConversations.js:9-10 | the parsed text is date, one space, time, with no U+202F left in it |
| Segmenter.SessionsOf | src/utils/segmentConversations.js:7-20 | there is always an open session and it ends with the latest message |
| Segmenter.SessionsPartition | src/utils/segmentConversations.js:7-22 | concatenating the sessions in order gives back the messages exactly |
| Segmenter.SessionsNonEmpty | src/utils/segmentConversations.js:16-19 | every session holds at least one message |
| Segmenter.GapsAfterSplit | src/utils/segmentConversations.js:15-17 | opening a session at a gap over the threshold keeps the gap rule |
| Segmenter.GapsAfterJoin | src/utils/segmentConversations.js:15-19 | extending the open session at a gap within the threshold keeps the gap rule |
| Segmenter.SessionsGaps | src/utils/segmentConversations.js:12-21 | within a session no consecutive gap exceeds the threshold; across every boundary it does |
| Segmenter.SessionsCount | src/utils/segmentConversations.js:12-21 | the number of sessions is one plus the number of gaps over the threshold |
| Segmenter.SegmentByGapMinutes | src/utils/segmentConversations.js:2-23 | empty input gives no sessions; otherwise the sessions partition the input, are non-empty, respect the gap rule and number one plus the splits |
| Segmenter.SegmentConversations | src/utils/segmentConversations.js:25-27 | the same sessions as `segmentByGapMinutes` with the given threshold (default 60) |
| Segmenter.SegmentByGap | src/utils/segmentConversations.js:29-31 | the sessions of `segmentByGapMinutes` with `gapHours * 60` minutes (default 4 hours); they partition the input and are non-empty |
| Orchestrator.Lines | src/utils/analyzeSegments.js:21-23 | no more transcript lines than messages |
| Orchestrator.LinesCount | src/utils/analyzeSegments.js:22 | one line for every message whose text is not blank |
| Orchestrator.WithTextMembers | src/utils/analyzeSegments.js:22 | the kept messages are exactly the messages with non-blank text |
| Orchestrator.LinesFromMessages | src/utils/analyzeSegments.js:21-23 | the lines are the messages with text, in order, each rendered as sender (or "Unknown"), ": ", collapsed trimmed text |
| Orchestrator.LinesEmpty | src/utils/analyzeSegments.js:21-24 | the transcript has no line exactly when every text is blank |
| Orchestrator.LinesHaveNoBreak | src/utils/analyzeSegments.js:23 | no transcript line holds a line break when no sender does |
| Orchestrator.TranscriptRoundTrip | src/utils/analyzeSegments.js:21-24 | splitting the transcript at line breaks gives back its lines |
| Orchestrator.Classify | src/utils/analyzeSegments.js:33-58 | too large iff longer than 50000 characters; trivial iff shorter than 20; submitted otherwise |
| Orchestrator.AnalyzeOne | src/utils/analyzeSegments.js:20-72 | the slot is empty exactly when a submitted call fails; placeholders carry id, start, end and their summary with mood neutral; a reply is laid over the base result, reply fields winning |
| Orchestrator.ResultIdentity | src/utils/analyzeSegments.js:26-30 | a filled slot's id is the session's position plus one unless the reply overrides it |
| Orchestrator.PlaceholderSkipsSummariser | src/utils/analyzeSegments.js:33-58 | the placeholders do not depend on the summariser |
| Orchestrator.OutcomesAt | src/utils/analyzeSegments.js:74 | slot k holds what `analyzeOne` gives session k |
| Orchestrator.FailureIsolation | src/utils/analyzeSegments.js:69-71 | a different outcome for one session's call changes no other slot |
| Orchestrator.CompactLength | src/utils/analyzeSegments.js:76 | the result list has one entry per filled slot: sessions minus failures |
| Orchestrator.EventsMatchResults | src/utils/analyzeSegments.js:68 | one progress call per filled slot, the k-th reporting the k-th result, its session's own position and the session count |
| Orchestrator.EventsOrdered | src/utils/analyzeSegments.js:67-68 | progress positions are in range and strictly increasing |
| Orchestrator.FillSlots | src/utils/analyzeSegments.js:74-75 | after the loop slot k holds session k's outcome and the progress calls are those of the filled slots in order |
| Orchestrator.AnalyzeSegments | src/utils/analyzeSegments.js:11-77 | sessions by four-hour gaps; the result is the compacted slots and the progress calls and their order follow the filled slots |
| Orchestrator.CompactSlots | src/utils/analyzeSegments.js:76 | `filter(Boolean)` keeps the filled slots in slot order |
| ReplyNormalizer.CleanTopics | server/services/analyzer.js:41-44 | each kept topic is a trimmed non-empty string |
| ReplyNormalizer.TopicsOf | server/services/analyzer.js:36-45 | at most five topics, each trimmed and non-empty |
| ReplyNormalizer.SummaryOf | server/services/analyzer.js:18-20 | the summary is never blank and has no surrounding white space |
| ReplyNormalizer.MoodOf | server/services/analyzer.js:22-23 | the mood is always one of positive, neutral, negative, mixed |
| ReplyNormalizer.RelationshipOf | server/services/analyzer.js:25-34 | the relationship is always personal or professional |
| ReplyNormalizer.NormalizeResult | server/services/analyzer.js:6-53 | the result is always well shaped; a falsy or non-object input gives the defaults |
| ReplyNormalizer.CleanTopicsKeeps | server/services/analyzer.js:41-44 | cleaning topics that are already trimmed and non-empty changes nothing |
| ReplyNormalizer.SummaryKept | server/services/analyzer.js:18-20 | a well-shaped summary survives normalisation |
| ReplyNormalizer.MoodKept | server/services/analyzer.js:22-23 | an allowed mood survives normalisation |
| ReplyNormalizer.RelationshipKept | server/services/analyzer.js:25-34 | an allowed relationship survives normalisation |
| ReplyNormalizer.TopicsKept | server/services/analyzer.js:36-45 | well-shaped topics survive normalisation |
| ReplyNormalizer.NormalizeKeepsWellShaped | server/services/analyzer.js:6-53 | a reply already in the normalised shape comes through unchanged |
| ReplyNormalizer.NormalizeIdempotent | server/services/analyzer.js:6-53 | normalising the normalised reply again changes nothing |
| ReplyNormalizer.NormalizeSummary | server/services/analyzer.js:18-20 | the summary is the trimmed field when it is a non-blank string, else "No summary." |
| ReplyNormalizer.RelationshipPrecedence | server/services/analyzer.js:25-29 | when `relationshipType` is a string, `relationship` has no influence |
| ReplyNormalizer.LastIndexOf | server/services/analyzer.js:63 | the position of the last occurrence, or -1 when there is none |
| ReplyNormalizer.BraceFragment | server/services/analyzer.js:63 | a match exists iff some '}' follows a '{'; it runs from the first '{' to the last '}' |
| ReplyNormalizer.MoodWordAt | server/services/analyzer.js:73 | a mood word matched at a position, ignoring case, tried in the pattern's order |
| ReplyNormalizer.ScanMood | server/services/analyzer.js:73 | the leftmost position where the mood pattern matches, or none |
| ReplyNormalizer.FallbackMood | server/services/analyzer.js:72-73 | always an allowed mood; neutral when no mood word occurs |
| ReplyNormalizer.ExtractJsonContent | server/services/analyzer.js:55-76 | always well shaped; a missing or empty reply gives the defaults |
| ReplyNormalizer.FallbackFields | server/services/analyzer.js:74 | the fallback object has the raw text as summary, the scanned mood, and nothing else |
| ReplyNormalizer.ExtractFallback | server/services/analyzer.js:62-75 | when both parses fail the summary is the trimmed raw text (or the default if blank), the mood is the first mood word, and the rest are defaults |
| ReplyNormalizer.ExtractWholeFirst | server/services/analyzer.js:60-61 | a reply that parses whole is normalised as it is and the fragment is not consulted |
| AnalyzeRoute.MessageLine | server/routes/analyze.js:18 | a `null` entry throws; any other entry gives a line |
| AnalyzeRoute.MessageLines | server/routes/analyze.js:17-18 | fails iff some entry is `null`; otherwise one line per entry, in order |
| AnalyzeRoute.BuildConversationText | server/routes/analyze.js:8-22 | a falsy body gives ""; a string `conversationText` is taken first, then a string `conversation`; only the `messages` path can throw |
| AnalyzeRoute.TooShortIffTrimmed | server/routes/analyze.js:24-26 | too short iff the trimmed length is below 20 |
| AnalyzeRoute.Handle | server/routes/analyze.js:28-50 | a too-short text gets the fixed neutral reply; the handler gives no response exactly when building the text throws |
| AnalyzeRoute.TooShortSkipsSummariser | server/routes/analyze.js:32-37 | the too-short reply does not depend on the summariser |
| AnalyzeRoute.SummarisedTextsAreLongEnough | server/routes/analyze.js:32-45 | a text that reaches the summariser has at least 20 characters after trimming |
| AnalyzeRoute.MessagesRoundTrip | server/routes/analyze.js:16-19 | for plain entries, splitting the built text at line breaks gives "sender: text" per entry, in order |
| Clustering.Mean | server/services/clustering.js:16-29 | `[]` for no vectors; otherwise the first vector's length, each component the column mean |
| Clustering.MeanOfOne | server/services/clustering.js:70-73 | a singleton cluster's centroid, its member's embedding, is the mean of its members |
| Clustering.MeanOfCopies | server/services/clustering.js:16-29 | the average of one or more copies of a vector is that vector |
| Clustering.ColumnSumOfCopies | server/services/clustering.js:20-24 | summing a column of copies gives the count times the component |
| Clustering.AverageVectors | server/services/clustering.js:16-29 | the accumulator loops compute the element-wise mean |
| Clustering.Embeddings | server/services/clustering.js:67 | the member embeddings, in order |
| Clustering.BestOf | server/services/clustering.js:53-62 | the first cluster reaching the maximum similarity, when that maximum is above 0; else none with score 0 |
| Clustering.Target | server/services/clustering.js:64-74 | the item goes to a new cluster iff it does not join an existing one |
| Clustering.Assign | server/services/clustering.js:64-74 | joining keeps the cluster count; otherwise one cluster is added |
| Clustering.Labels | server/services/clustering.js:52-75 | one cluster index per processed item |
| Clustering.MembersNone | server/services/clustering.js:70-73 | a cluster created after all earlier items has none of them |
| Clustering.CentroidInvariant | server/services/clustering.js:64-74 | after every insertion each cluster is non-empty and its centroid is the mean of its members' embeddings |
| Clustering.Placement | server/services/clustering.js:52-75 | every item is in exactly the cluster it was labelled with, members in processing order, and there are never more clusters than items |
| Clustering.AssignPlaces | server/services/clustering.js:64-74 | one assignment step keeps the placement |
| Clustering.CountMood | server/services/clustering.js:83 | zero iff no member has that mood key |
| Clustering.TallyCounts | server/services/clustering.js:82-86 | the tally holds exactly the occurring moods (missing ones as "unknown"), each with its count |
| Clustering.MapSumRemove | server/services/clustering.js:82-86 | a tally's total is one key's count plus the rest |
| Clustering.MapSumBump | server/services/clustering.js:84 | counting one more member raises the total by one |
| Clustering.TallyTotal | server/services/clustering.js:82-86 | the mood counts add up to the number of members |
| Clustering.SegmentIds | server/services/clustering.js:81 | the member ids, in order |
| Clustering.ThemesOf | server/services/clustering.js:77-88 | one theme per cluster, in order, theme k numbered k + 1 |
| Clustering.EmbedAll | server/services/clustering.js:41-48 | when no call fails, one item per segment with the embedding of its summary, or "Short chat" for a blank one |
| Clustering.EmbedAllFailsLater | server/services/clustering.js:41-48 | a failed embedding call fails the whole run |
| Clustering.EmbedSegments | server/services/clustering.js:41-48 | the loop computes the embedding list |
| Clustering.FindBest | server/services/clustering.js:53-62 | the inner scan finds the best cluster and score |
| Clustering.AssignItem | server/services/clustering.js:64-74 | one pass of the outer loop is one assignment step and keeps the vector lengths |
| Clustering.ClusterSegments | server/services/clustering.js:31-89 | a non-array or empty input gives no themes; otherwise the result of the assignment and theme mapping, with no more themes than segments |
| WhatsappParser.DropCR | src/utils/parseWhatsapp.js:5 | removing the optional carriage return leaves a prefix |
| WhatsappParser.RawLines | src/utils/parseWhatsapp.js:5 | one piece per line-feed-separated part, none holding a line feed |
| WhatsappParser.NonEmpty | src/utils/parseWhatsapp.js:5 | exactly the non-empty lines are kept |
| WhatsappParser.RawLinesOfJoin | src/utils/parseWhatsapp.js:5 | lines joined with "\n" are read back one for one |
| WhatsappParser.RawLinesOfCRLF | src/utils/parseWhatsapp.js:5 | lines joined with "\r\n" are read back one for one |
| WhatsappParser.Run | src/utils/parseWhatsapp.js:10 | the greedy run of a character class is maximal |
| WhatsappParser.DigitGroup | src/utils/parseWhatsapp.js:10 | `\d{lo,hi}` takes between lo and hi digits from the start |
| WhatsappParser.DateMatch | src/utils/parseWhatsapp.js:10 | a matched date is well formed and starts the text |
| WhatsappParser.DateMatchConcat | src/utils/parseWhatsapp.js:10 | a well-formed date followed by a non-digit is matched exactly |
| WhatsappParser.TimeMatch | src/utils/parseWhatsapp.js:10 | a matched time is non-empty and within the text |
| WhatsappParser.TimeMatchConcat | src/utils/parseWhatsapp.js:10 | a clock and an optional meridiem before `]` or a space match exactly |
| WhatsappParser.SenderAndText | src/utils/parseWhatsapp.js:10 | the sender is non-empty with no ':' and the text holds no line terminator |
| WhatsappParser.SenderAndTextConcat | src/utils/parseWhatsapp.js:10 | a sender, ": " and a text are matched back exactly |
| WhatsappParser.DatePartsSplit | src/utils/parseWhatsapp.js:38 | a recognised date splits at '/' into exactly its three groups |
| WhatsappParser.MatchBracketed | src/utils/parseWhatsapp.js:10 | a match starts with '[' and gives a valid header |
| WhatsappParser.MatchDashed | src/utils/parseWhatsapp.js:12 | a match starts with a digit and gives a valid header |
| WhatsappParser.FormatsDisjoint | src/utils/parseWhatsapp.js:8-13 | no line matches both formats |
| WhatsappParser.BracketedRoundTrip | src/utils/parseWhatsapp.js:10 | a written-out bracketed header is recognised with exactly its fields |
| WhatsappParser.DashedRoundTrip | src/utils/parseWhatsapp.js:12 | a written-out dashed header is recognised with exactly its fields |
| WhatsappParser.FormatsAreValid | src/utils/parseWhatsapp.js:8-13 | every header either format recognises is valid |
| WhatsappParser.FirstMatch | src/utils/parseWhatsapp.js:17-25 | no match iff no format matches; otherwise the captures of a matching format |
| WhatsappParser.FirstMatchAt | src/utils/parseWhatsapp.js:17-25 | the first format that matches wins |
| WhatsappParser.FirstFormatWins | src/utils/parseWhatsapp.js:8-13 | the format order does not change the answer |
| WhatsappParser.FoldCount | src/utils/parseWhatsapp.js:15-29 | one message per header line |
| WhatsappParser.FoldFollowsHeaders | src/utils/parseWhatsapp.js:15-29 | message k has the k-th header's date, time and sender, and its text starts with the trimmed header text |
| WhatsappParser.FoldStep | src/utils/parseWhatsapp.js:15-29 | a header line pushes a message; any other line appends "\n" and the trimmed line to the last message, or is dropped when there is none |
| WhatsappParser.FoldValid | src/utils/parseWhatsapp.js:10-12 | every parsed sender is non-empty without ':' and every date has three parts |
| WhatsappParser.ParseMessages | src/utils/parseWhatsapp.js:15-29 | the line loop computes the fold |
| WhatsappParser.ParseLine | src/utils/parseWhatsapp.js:16-28 | one pass of the loop body is one fold step |
| WhatsappParser.StepHeader | src/utils/parseWhatsapp.js:19-24 | a header line pushes a message with the trimmed text |
| WhatsappParser.StepContinuation | src/utils/parseWhatsapp.js:26-28 | a non-header line extends the last text, or is discarded with no message yet |
| WhatsappParser.Distinct | src/utils/parseWhatsapp.js:34 | the same values as the input, each once |
| WhatsappParser.FirstIndex | src/utils/parseWhatsapp.js:34 | the position of a value's first appearance holds it, with no earlier copy |
| WhatsappParser.DistinctOrder | src/utils/parseWhatsapp.js:34 | participants are listed in the order of their first appearance, which with the two facts above fixes the list |
| WhatsappParser.DistinctHead | src/utils/parseWhatsapp.js:34-54 | the first participant is the first sender; in a two-person chat the second (the chat name) is the first sender different from it |
| WhatsappParser.Senders | src/utils/parseWhatsapp.js:34 | the senders, in message order |
| WhatsappParser.ChatName | src/utils/parseWhatsapp.js:50-54 | the second participant of a two-person chat, else "Group Chat" |
| WhatsappParser.DateKeyOfParts | src/utils/parseWhatsapp.js:37-41 | `toDate` builds `Y-M-D` with "20" before a two-digit year |
| WhatsappParser.FirstMin | src/utils/parseWhatsapp.js:43-46 | the first message with the smallest date key: what a stable sort puts first |
| WhatsappParser.LastMax | src/utils/parseWhatsapp.js:43-47 | the last message with the largest date key: what a stable sort puts last |
| WhatsappParser.ChatOf | src/utils/parseWhatsapp.js:31-56 | no messages gives the empty result; otherwise the distinct senders and the chat name; the range is the first minimal and last maximal date when every date is valid, the first and last message's dates when none is valid or there is one message, and absent exactly when valid and invalid dates are mixed |
| WhatsappParser.SingleMessageRange | src/utils/parseWhatsapp.js:43-47 | a one-message chat's range is its message's date twice, whether or not the date is valid |
| WhatsappParser.ParseWhatsapp | src/utils/parseWhatsapp.js:4-57 | an empty result exactly when no line is a header; every sender is non-empty without ':' |
| WhatsappParser.NoBreakInHeader | src/utils/parseWhatsapp.js:5 | a written-out header has no line feed and does not end in a carriage return |
| WhatsappParser.NonEmptyKeeps | src/utils/parseWhatsapp.js:5 | with no empty line, the filter keeps every line |
| WhatsappParser.ReadBackHeaders | src/utils/parseWhatsapp.js:15-29 | lines that are all headers give exactly their messages |
| WhatsappParser.LineRoundTrip | src/utils/parseWhatsapp.js:5-24 | a written-out line survives the split and is recognised by the first format |
| WhatsappParser.TranscriptRoundTrip | src/utils/parseWhatsapp.js:4-29 | a transcript written one bracketed header per line is read back as exactly those messages |
| WhatsappParser.LinesOfTranscript | src/utils/parseWhatsapp.js:5 | joined non-empty lines are split back one for one |
| Sentiment.MoodLabel | src/utils/sentiment.js:65-69 | positive iff the score is above 1, negative iff below -1, neutral otherwise |
| Sentiment.MoodLabelMonotone | src/utils/sentiment.js:65-69 | a higher score never gets a lower label |
| Sentiment.Analyzed | src/utils/sentiment.js:17-26 | one record per message with its index, sender, text, date and score |
| Sentiment.GroupByDate | src/utils/sentiment.js:29-34 | the loop builds the per-date groups |
| Sentiment.GroupedKeys | src/utils/sentiment.js:29-34 | a group exists exactly for the dates some record carries |
| Sentiment.GroupedScores | src/utils/sentiment.js:29-34 | each group holds exactly the scores of that date's records, in record order |
| Sentiment.MostPositiveIndex | src/utils/sentiment.js:49 | a record of maximum score, the last among equals |
| Sentiment.MostNegativeIndex | src/utils/sentiment.js:50 | a record of minimum score, the last among equals |
| Sentiment.ExtremesMeet | src/utils/sentiment.js:49-50 | the two picks coincide iff every score is equal, and then both are the last record |
| Sentiment.AnalyzeChatSentiment | src/utils/sentiment.js:13-59 | `null` iff the chat or its messages are missing; an empty message list throws in the seedless reduce |
| Sentiment.ReportFacts | src/utils/sentiment.js:29-50 | the groups are the message dates with their scores in order; the most positive and most negative scores bound every message's score |
| ChatView.NormalizeShape | src/components/ChatView.jsx:14 | a normalised name has no surrounding white space, no upper-case letter, and is no longer than the name |
| ChatView.NormalizeIdempotent | src/components/ChatView.jsx:14 | normalising twice is normalising once |
| ChatView.MatchNormalized | src/components/ChatView.jsx:25-26 | none iff no normalised name equals the target; otherwise the original of the first one that does |
| ChatView.MatchPartial | src/components/ChatView.jsx:28-32 | none iff no normalised name contains or is contained in the target; otherwise the original of the first one that does |
| ChatView.ExactIsPartial | src/components/ChatView.jsx:25-32 | when nothing overlaps, nothing matches exactly either |
| ChatView.EmptyOverlapsAll | src/components/ChatView.jsx:28-32 | an empty name overlaps every target |
| ChatView.ExactMatchTruthy | src/components/ChatView.jsx:25-26 | an exact match for a non-empty target is a non-empty participant |
| ChatView.ResolveDisplayName | src/components/ChatView.jsx:23-50 | the four assignments compute the resolved name; a stored name that is literally a participant is the result |
| ChatView.PickOrigin | src/components/ChatView.jsx:37-46 | a pick is a participant or the fallback |
| ChatView.DisplayNameOrigin | src/components/ChatView.jsx:34-50 | the resolved name is "", a participant or the entered name |
| ChatView.DisplayNameNonEmpty | src/components/ChatView.jsx:48-50 | with a non-empty first participant someone is always "me" |
| ChatView.StoredExactMatchWins | src/components/ChatView.jsx:36-39 | a stored name that is not literally a participant resolves to the first exact normalised match, ahead of any partial one |
| ChatView.FirstExactMatch | src/components/ChatView.jsx:25-26 | the first entry with the target as its normalised name is the exact match |
| ChatView.FirstPartialMatch | src/components/ChatView.jsx:28-32 | the first entry overlapping the target is the partial match |
| ChatView.PickPartial | src/components/ChatView.jsx:37-46 | with no exact match, a pick is the first overlapping participant, or the fallback when that one is the empty string |
| ChatView.StoredPartialMatch | src/components/ChatView.jsx:34-39 | a stored name with no exact match resolves to the first participant overlapping it |
| ChatView.EnteredExactMatch | src/components/ChatView.jsx:41-46 | when the stored name gives nothing, a non-blank entered name resolves to its first exact normalised match |
| ChatView.EnteredPartialMatch | src/components/ChatView.jsx:41-46 | with no exact match, the entered name resolves to the first participant overlapping it, or to itself when that participant is empty |
| ChatView.FirstParticipantFallback | src/components/ChatView.jsx:48-50 | when both name tiers give nothing the first participant is "me", in particular when neither name is usable; otherwise their result stands |
| ChatView.EnteredNameFallback | src/components/ChatView.jsx:41-46 | when neither name overlaps any participant, a non-blank entered name is taken as it is |
| ChatView.IsMeNormalized | src/components/ChatView.jsx:52-74 | the "is me" test depends only on the normalised sender, and the resolved name is always "me" |

## Left out

- p-limit's bounded concurrency and `Promise.all`: the sessions are run
  one after the other. Every write is to the session's own slot, so the
  slot contents are the same in any completion order. The *order* of the
  progress calls is the sequential one.
- The summariser (`summarizeConversation`, the prompt and the OpenAI
  client), the embedder and the batch API call: network I/O, modelled as
  oracles.
- `cosineSimilarity`: floating-point arithmetic with `Math.sqrt`, modelled
  as a parameter. Vector components are `real`, so centroid averaging is
  exact.
- `JSON.parse` and the `sentiment` library: foreign code, modelled as
  parameters.
- `new Date` parsing: modelled as a parameter from text to milliseconds.
  `None` is an Invalid Date, and it never splits a session because
  `NaN > gapMs` is false.
- `dailyAverages`, `avgScore` and the chronological sort in the sentiment
  analysis: float division and date parsing. The report keeps the
  per-date groups they are computed from.
- The React rendering, state and UI components, the Express routing and
  `res.json`/status plumbing, `server/config.js`, and console logging.
- Positions and lengths are counted in characters. JavaScript counts
  UTF-16 code units, which differ only for characters outside the Basic
  Multilingual Plane.
- `trim` and `\s` use the full ECMAScript white-space set, but
  `toLowerCase` is modelled for ASCII letters only. Case folding of
  non-ASCII letters is not modelled.
- JSON numbers are integers. Fractional and exponent numbers, and
  JavaScript's number-to-text formatting (`String(1.5)`, `String(1e21)`
  giving "1e+21"), are not modelled, so a numeric `sender` or `text` in an
  `/analyze` request is rendered only for integers.
- Object keys that collide with inherited properties (`__proto__`,
  `constructor`) in `groupedByDate` and the mood tally are treated as
  ordinary keys.
- Values in dynamically typed fields are modelled as follows:
  - Messages always have string fields, so a `null` message or a
    non-string date in the segmenter, orchestrator and sentiment code is
    not modelled.
  - A segment's summary and mood in the clusterer are strings, with ""
    standing for a missing field.
  - A `null` or undefined message list for the segmenter is the empty
    list.
- Segmenter.SegmentByGapMinutes: threshold arithmetic is on unbounded
  integers, so a non-numeric `gapMinutes` (giving NaN) is not modelled.
- Clustering.ClusterSegments: requires that every embedding has one common
  dimension. With mixed lengths the source reads `undefined` components
  and produces NaN centroids, which are not modelled.
- WhatsappParser.ChatOf: when some message dates are valid and others are
  Invalid Dates (and there is more than one message), the comparator is
  inconsistent and the order the sort leaves is implementation-defined.
  The model then gives no date range rather than a particular pair.
- WhatsappParser.ToDate: a date with fewer than three '/'-separated parts
  would throw in the source. Every recognised header has three parts
  (WhatsappParser.FoldValid), so the model gives an Invalid Date there
  instead.
- Sentiment.MoodLabel: takes a real score; NaN and infinities are not
  modelled.
- Sentiment.AnalyzeChatSentiment: keeps neither `avgScore` nor
  `dailyAverages` (see above).
