/** Sentiment aggregation over a parsed chat: one scored record per message,
    the scores grouped by date, the most positive and the most negative
    message, and the qualitative label of a score. */
module Sentiment {
  import opened Wrappers
  import opened Messages

  /** The `sentiment` library's `analyze(text).score`. */
  type Scorer = string -> int

  /** One entry of `analyzed`. */
  datatype Scored = Scored(index: nat, sender: string, text: string, score: int, date: string)

  // ---------------------------------------------------------------------
  // getMoodLabel

  /** `getMoodLabel(score)`. */
  function MoodLabel(score: real): (r: string)
    ensures r == "positive" <==> score > 1.0
    ensures r == "negative" <==> score < -1.0
    ensures r == "neutral" <==> -1.0 <= score <= 1.0
  {
    if score > 1.0 then "positive" else if score < -1.0 then "negative" else "neutral"
  }

  /** The order of the labels: negative, neutral, positive. */
  function LabelRank(mood: string): nat {
    if mood == "negative" then 0 else if mood == "neutral" then 1 else 2
  }

  /** A higher score never gets a lower label. */
  lemma MoodLabelMonotone(a: real, b: real)
    requires a <= b
    ensures LabelRank(MoodLabel(a)) <= LabelRank(MoodLabel(b))
  {
  }

  // ---------------------------------------------------------------------
  // Per-message records

  /** `chat.messages.map((m, index) => ...)`. */
  function Analyzed(ms: seq<Message>, score: Scorer): (r: seq<Scored>)
    ensures |r| == |ms|
    ensures forall i :: 0 <= i < |ms| ==>
      && r[i].index == i && r[i].sender == ms[i].sender && r[i].text == ms[i].text
      && r[i].date == ms[i].date && r[i].score == score(ms[i].text)
  {
    seq(|ms|, i requires 0 <= i < |ms| => Scored(i, ms[i].sender, ms[i].text, score(ms[i].text), ms[i].date))
  }

  // ---------------------------------------------------------------------
  // Group by date

  /** The `groupedByDate` object once the records `xs` have been visited:
      a date seen for the first time gets an empty list, then the record's
      score is pushed onto its date's list. */
  function Grouped(xs: seq<Scored>): map<string, seq<int>> {
    if xs == [] then map[]
    else
      var g := Grouped(xs[..|xs| - 1]);
      var x := xs[|xs| - 1];
      g[x.date := (if x.date in g then g[x.date] else []) + [x.score]]
  }

  /** Reference definition: the scores of the records dated `d`, in order. */
  function ScoresOn(xs: seq<Scored>, d: string): seq<int> {
    if xs == [] then []
    else ScoresOn(xs[..|xs| - 1], d) + (if xs[|xs| - 1].date == d then [xs[|xs| - 1].score] else [])
  }

  /** The forEach loop that builds `groupedByDate`. */
  method GroupByDate(analyzed: seq<Scored>) returns (groups: map<string, seq<int>>)
    ensures groups == Grouped(analyzed)
  {
    groups := map[];
    for i := 0 to |analyzed|
      invariant groups == Grouped(analyzed[..i])
    {
      var msg := analyzed[i];
      var day := msg.date;
      if day !in groups {
        groups := groups[day := []];
      }
      groups := groups[day := groups[day] + [msg.score]];
      assert analyzed[..i + 1][..i] == analyzed[..i];
    }
    assert analyzed[..|analyzed|] == analyzed;
  }

  /** There is a group for exactly the dates some record carries. */
  lemma {:induction false} GroupedKeys(xs: seq<Scored>)
    ensures forall d :: d in Grouped(xs) <==> exists i :: 0 <= i < |xs| && xs[i].date == d
  {
    if xs != [] {
      var init := xs[..|xs| - 1];
      GroupedKeys(init);
      forall d | exists i :: 0 <= i < |xs| && xs[i].date == d
        ensures d in Grouped(xs)
      {
        var i :| 0 <= i < |xs| && xs[i].date == d;
        if i < |xs| - 1 {
          assert init[i].date == d;
        }
      }
      forall d | d in Grouped(xs)
        ensures exists i :: 0 <= i < |xs| && xs[i].date == d
      {
        if d != xs[|xs| - 1].date {
          assert d in Grouped(init);
          var i :| 0 <= i < |init| && init[i].date == d;
          assert xs[i].date == d;
        }
      }
    }
  }

  /** Each group holds exactly the scores of the records with its date, in
      record order. */
  lemma {:induction false} GroupedScores(xs: seq<Scored>)
    ensures forall d :: d in Grouped(xs) ==> Grouped(xs)[d] == ScoresOn(xs, d)
  {
    if xs != [] {
      var init := xs[..|xs| - 1];
      GroupedScores(init);
      GroupedKeys(init);
      var x := xs[|xs| - 1];
      if x.date !in Grouped(init) {
        ScoresOnAbsent(init, x.date);
      }
    }
  }

  /** A date no record carries has no scores. */
  lemma {:induction false} ScoresOnAbsent(xs: seq<Scored>, d: string)
    requires forall i :: 0 <= i < |xs| ==> xs[i].date != d
    ensures ScoresOn(xs, d) == []
  {
    if xs != [] {
      ScoresOnAbsent(xs[..|xs| - 1], d);
    }
  }

  // ---------------------------------------------------------------------
  // mostPositive / mostNegative

  /** `reduce((a, b) => (a.score > b.score ? a : b))` over the first `n`
      records, as the index of the record it returns: a record of maximum
      score, and the last one among equals. */
  function MostPositiveIndex(xs: seq<Scored>, n: nat): (k: nat)
    requires 1 <= n <= |xs|
    ensures k < n
    ensures forall j :: 0 <= j < n ==> xs[j].score <= xs[k].score
    ensures forall j :: k < j < n ==> xs[j].score < xs[k].score
  {
    if n == 1 then 0
    else
      var a := MostPositiveIndex(xs, n - 1);
      if xs[a].score > xs[n - 1].score then a else n - 1
  }

  /** `reduce((a, b) => (a.score < b.score ? a : b))` over the first `n`
      records: a record of minimum score, and the last one among equals. */
  function MostNegativeIndex(xs: seq<Scored>, n: nat): (k: nat)
    requires 1 <= n <= |xs|
    ensures k < n
    ensures forall j :: 0 <= j < n ==> xs[k].score <= xs[j].score
    ensures forall j :: k < j < n ==> xs[k].score < xs[j].score
  {
    if n == 1 then 0
    else
      var a := MostNegativeIndex(xs, n - 1);
      if xs[a].score < xs[n - 1].score then a else n - 1
  }

  /** The two selections agree exactly when every score is the same, and
      then both pick the last record. */
  lemma ExtremesMeet(xs: seq<Scored>)
    requires xs != []
    ensures MostPositiveIndex(xs, |xs|) == MostNegativeIndex(xs, |xs|)
      <==> forall j :: 0 <= j < |xs| ==> xs[j].score == xs[0].score
    ensures (forall j :: 0 <= j < |xs| ==> xs[j].score == xs[0].score)
      ==> MostPositiveIndex(xs, |xs|) == |xs| - 1
  {
    var p, q := MostPositiveIndex(xs, |xs|), MostNegativeIndex(xs, |xs|);
    if p == q {
      forall j | 0 <= j < |xs| ensures xs[j].score == xs[0].score {
        assert xs[q].score <= xs[j].score <= xs[p].score;
        assert xs[q].score <= xs[0].score <= xs[p].score;
      }
    }
  }

  // ---------------------------------------------------------------------
  // analyzeChatSentiment

  /** The parts of the returned object that the model keeps. In place of
      `dailyAverages` and `avgScore` (float divisions) it keeps
      `groupedByDate`, the per-date score lists the daily averages are
      computed from; the chronological sort is not modelled. */
  datatype Report = Report(analyzed: seq<Scored>, groupedByDate: map<string, seq<int>>,
                           mostPositive: Scored, mostNegative: Scored)

  /** `NoChat` is the `null` returned for a missing chat or message list;
      `EmptyReduce` is the TypeError of the seedless `reduce` on an empty
      message list. */
  datatype Outcome = NoChat | EmptyReduce | Analysis(report: Report)

  /** What `analyzeChatSentiment(chat)` computes; `chat` is `None` when the
      chat or its `messages` is missing. */
  function SentimentOf(chat: Option<seq<Message>>, score: Scorer): Outcome {
    match chat
    case None => NoChat
    case Some(ms) =>
      if ms == [] then EmptyReduce
      else
        var analyzed := Analyzed(ms, score);
        Analysis(Report(analyzed, Grouped(analyzed),
                        analyzed[MostPositiveIndex(analyzed, |analyzed|)],
                        analyzed[MostNegativeIndex(analyzed, |analyzed|)]))
  }

  method AnalyzeChatSentiment(chat: Option<seq<Message>>, score: Scorer) returns (r: Outcome)
    ensures r == SentimentOf(chat, score)
    ensures r == NoChat <==> chat.None?
    ensures r == EmptyReduce <==> chat == Some([])
  {
    if chat.None? {
      return NoChat;
    }
    var ms := chat.value;
    var analyzed := Analyzed(ms, score);
    var grouped := GroupByDate(analyzed);
    if analyzed == [] {
      return EmptyReduce;
    }
    var best := MostPositiveIndex(analyzed, |analyzed|);
    var worst := MostNegativeIndex(analyzed, |analyzed|);
    r := Analysis(Report(analyzed, grouped, analyzed[best], analyzed[worst]));
  }

  /** The groups of the report are the message dates, each holding the
      scores of that day's messages in message order, and the most positive
      and most negative records score highest and lowest. */
  lemma ReportFacts(ms: seq<Message>, score: Scorer)
    requires ms != []
    ensures var rep := SentimentOf(Some(ms), score).report;
      && (forall d :: d in rep.groupedByDate <==> exists i :: 0 <= i < |ms| && ms[i].date == d)
      && (forall d :: d in rep.groupedByDate ==> rep.groupedByDate[d] == ScoresOn(rep.analyzed, d))
      && (forall i :: 0 <= i < |ms| ==> score(ms[i].text) <= rep.mostPositive.score)
      && (forall i :: 0 <= i < |ms| ==> rep.mostNegative.score <= score(ms[i].text))
  {
    var analyzed := Analyzed(ms, score);
    GroupedKeys(analyzed);
    GroupedScores(analyzed);
  }
}
