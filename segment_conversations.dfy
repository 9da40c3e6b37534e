/** Splitting an ordered message list into sessions wherever the time between
    two consecutive messages exceeds a threshold. */
module Segmenter {
  import opened Wrappers
  import opened Messages

  /** The default threshold of `segmentByGapMinutes` and `segmentConversations`, in minutes. */
  const DefaultGapMinutes: int := 60
  /** The default threshold of `segmentByGap`, in hours. */
  const DefaultGapHours: int := 4

  /** Parsing a date-and-time text into milliseconds; `None` is an Invalid Date (NaN). */
  type DateParser = string -> Option<int>

  /** The threshold in milliseconds: `gapMinutes * 60 * 1000`. */
  function GapMs(gapMinutes: int): int {
    gapMinutes * 60 * 1000
  }

  /** `${m.date} ${m.time}` with every narrow no-break space (U+202F) replaced
      by an ordinary space: the text the source hands to `new Date`. */
  function DateTimeText(m: Message): (r: string)
    ensures |r| == |m.date| + 1 + |m.time|
    ensures '\U{202F}' !in r
  {
    var s := m.date + " " + m.time;
    seq(|s|, i requires 0 <= i < |s| => if s[i] == '\U{202F}' then ' ' else s[i])
  }

  /** `curr - prev > gapMs`: the gap between two consecutive messages exceeds
      the threshold. A NaN on either side makes the comparison false. */
  predicate Splits(parse: DateParser, gapMs: int, prev: Message, curr: Message) {
    match (parse(DateTimeText(prev)), parse(DateTimeText(curr)))
    case (Some(a), Some(b)) => b - a > gapMs
    case _ => false
  }

  /** The sessions of the first `n` messages, built the way the loop builds
      them: a split opens a new session, otherwise the message joins the
      open one. */
  function SessionsOf(ms: seq<Message>, n: nat, gapMs: int, parse: DateParser): (r: seq<seq<Message>>)
    requires 1 <= n <= |ms|
    ensures |r| >= 1
    ensures r[|r| - 1] != [] && r[|r| - 1][|r[|r| - 1]| - 1] == ms[n - 1]
  {
    if n == 1 then [[ms[0]]]
    else
      var p := SessionsOf(ms, n - 1, gapMs, parse);
      if Splits(parse, gapMs, ms[n - 2], ms[n - 1]) then p + [[ms[n - 1]]]
      else p[..|p| - 1] + [p[|p| - 1] + [ms[n - 1]]]
  }

  /** The result of `segmentByGapMinutes` for threshold `gapMs` (in milliseconds). */
  function Sessions(ms: seq<Message>, gapMs: int, parse: DateParser): seq<seq<Message>> {
    if |ms| == 0 then [] else SessionsOf(ms, |ms|, gapMs, parse)
  }

  /** All sessions concatenated in order. */
  function Flatten<T>(ss: seq<seq<T>>): seq<T> {
    if ss == [] then [] else Flatten(ss[..|ss| - 1]) + ss[|ss| - 1]
  }

  /** The number of positions `1 <= i < n` where message `i` opens a new session. */
  function SplitCount(ms: seq<Message>, n: nat, gapMs: int, parse: DateParser): nat
    requires n <= |ms|
  {
    if n <= 1 then 0
    else SplitCount(ms, n - 1, gapMs, parse) + if Splits(parse, gapMs, ms[n - 2], ms[n - 1]) then 1 else 0
  }

  /** Inside every session no consecutive gap exceeds the threshold, and across
      every boundary the gap does. */
  predicate GapsRespected(ss: seq<seq<Message>>, gapMs: int, parse: DateParser) {
    && (forall k, j :: 0 <= k < |ss| && 1 <= j < |ss[k]| ==> !Splits(parse, gapMs, ss[k][j - 1], ss[k][j]))
    && (forall k :: 1 <= k < |ss| && ss[k - 1] != [] && ss[k] != [] ==>
          Splits(parse, gapMs, ss[k - 1][|ss[k - 1]| - 1], ss[k][0]))
  }

  lemma FlattenSnoc<T>(ss: seq<seq<T>>, s: seq<T>)
    ensures Flatten(ss + [s]) == Flatten(ss) + s
  {
    assert (ss + [s])[..|ss|] == ss;
  }

  /** Concatenating the sessions in order gives back the messages: nothing is
      dropped, duplicated or reordered. */
  lemma {:induction false} SessionsPartition(ms: seq<Message>, n: nat, gapMs: int, parse: DateParser)
    requires 1 <= n <= |ms|
    ensures Flatten(SessionsOf(ms, n, gapMs, parse)) == ms[..n]
  {
    if n == 1 {
      assert Flatten([[ms[0]]]) == Flatten([]) + [ms[0]];
    } else {
      var p := SessionsOf(ms, n - 1, gapMs, parse);
      SessionsPartition(ms, n - 1, gapMs, parse);
      assert ms[..n] == ms[..n - 1] + [ms[n - 1]];
      var split := SessionsStep(ms, n, gapMs, parse);
      if split {
        FlattenSnoc(p, [ms[n - 1]]);
      } else {
        FlattenExtendLast(p, ms[n - 1]);
      }
    }
  }

  /** One unfolding of `SessionsOf`; `split` tells which branch was taken. */
  lemma SessionsStep(ms: seq<Message>, n: nat, gapMs: int, parse: DateParser) returns (split: bool)
    requires 2 <= n <= |ms|
    ensures split == Splits(parse, gapMs, ms[n - 2], ms[n - 1])
    ensures split ==> SessionsOf(ms, n, gapMs, parse) == SessionsOf(ms, n - 1, gapMs, parse) + [[ms[n - 1]]]
    ensures !split ==>
      var p := SessionsOf(ms, n - 1, gapMs, parse);
      SessionsOf(ms, n, gapMs, parse) == p[..|p| - 1] + [p[|p| - 1] + [ms[n - 1]]]
  {
    split := Splits(parse, gapMs, ms[n - 2], ms[n - 1]);
  }

  lemma FlattenExtendLast<T>(p: seq<seq<T>>, m: T)
    requires p != []
    ensures Flatten(p[..|p| - 1] + [p[|p| - 1] + [m]]) == Flatten(p) + [m]
  {
    var init := p[..|p| - 1];
    assert p == init + [p[|p| - 1]];
    FlattenSnoc(init, p[|p| - 1]);
    FlattenSnoc(init, p[|p| - 1] + [m]);
  }

  /** Every session holds at least one message. */
  lemma {:induction false} SessionsNonEmpty(ms: seq<Message>, n: nat, gapMs: int, parse: DateParser)
    requires 1 <= n <= |ms|
    ensures forall k :: 0 <= k < |SessionsOf(ms, n, gapMs, parse)| ==> SessionsOf(ms, n, gapMs, parse)[k] != []
  {
    if n > 1 {
      SessionsNonEmpty(ms, n - 1, gapMs, parse);
    }
  }

  /** Opening a new session at a split keeps the gap rule. */
  lemma GapsAfterSplit(p: seq<seq<Message>>, m: Message, gapMs: int, parse: DateParser)
    requires GapsRespected(p, gapMs, parse)
    requires p != [] && p[|p| - 1] != []
    requires Splits(parse, gapMs, p[|p| - 1][|p[|p| - 1]| - 1], m)
    ensures GapsRespected(p + [[m]], gapMs, parse)
  {
    var r := p + [[m]];
    assert forall k :: 0 <= k < |p| ==> r[k] == p[k];
  }

  /** Appending to the open session when there is no split keeps the gap rule. */
  lemma GapsAfterJoin(p: seq<seq<Message>>, m: Message, gapMs: int, parse: DateParser)
    requires GapsRespected(p, gapMs, parse)
    requires p != [] && p[|p| - 1] != []
    requires !Splits(parse, gapMs, p[|p| - 1][|p[|p| - 1]| - 1], m)
    ensures GapsRespected(p[..|p| - 1] + [p[|p| - 1] + [m]], gapMs, parse)
  {
    var last := p[|p| - 1];
    var r := p[..|p| - 1] + [last + [m]];
    assert forall k :: 0 <= k < |p| - 1 ==> r[k] == p[k];
    assert r[|r| - 1] == last + [m];
    forall k, j | 0 <= k < |r| && 1 <= j < |r[k]|
      ensures !Splits(parse, gapMs, r[k][j - 1], r[k][j])
    {
      if k == |r| - 1 && j < |last| {
        assert r[k][j - 1] == last[j - 1] && r[k][j] == last[j];
      }
    }
    forall k | 1 <= k < |r| && r[k - 1] != [] && r[k] != []
      ensures Splits(parse, gapMs, r[k - 1][|r[k - 1]| - 1], r[k][0])
    {
      assert r[k][0] == p[k][0];
    }
  }

  /** Within a session no gap exceeds the threshold; across a boundary it does. */
  lemma {:induction false} SessionsGaps(ms: seq<Message>, n: nat, gapMs: int, parse: DateParser)
    requires 1 <= n <= |ms|
    ensures GapsRespected(SessionsOf(ms, n, gapMs, parse), gapMs, parse)
  {
    if n > 1 {
      var p := SessionsOf(ms, n - 1, gapMs, parse);
      SessionsGaps(ms, n - 1, gapMs, parse);
      if Splits(parse, gapMs, ms[n - 2], ms[n - 1]) {
        GapsAfterSplit(p, ms[n - 1], gapMs, parse);
      } else {
        GapsAfterJoin(p, ms[n - 1], gapMs, parse);
      }
    }
  }

  /** For a non-empty list the number of sessions is one more than the number
      of gaps that exceed the threshold. */
  lemma {:induction false} SessionsCount(ms: seq<Message>, n: nat, gapMs: int, parse: DateParser)
    requires 1 <= n <= |ms|
    ensures |SessionsOf(ms, n, gapMs, parse)| == 1 + SplitCount(ms, n, gapMs, parse)
  {
    if n > 1 {
      SessionsCount(ms, n - 1, gapMs, parse);
    }
  }

  /** `segmentByGapMinutes(messages, gapMinutes)`: an empty list gives no
      sessions; otherwise the sessions partition the list in order, none is
      empty, and they are cut exactly at the gaps that exceed the threshold. */
  method SegmentByGapMinutes(messages: seq<Message>, parse: DateParser, gapMinutes: int := DefaultGapMinutes)
    returns (segments: seq<seq<Message>>)
    ensures segments == Sessions(messages, GapMs(gapMinutes), parse)
    ensures |messages| == 0 <==> segments == []
    ensures Flatten(segments) == messages
    ensures forall k :: 0 <= k < |segments| ==> segments[k] != []
    ensures GapsRespected(segments, GapMs(gapMinutes), parse)
    ensures |messages| > 0 ==> |segments| == 1 + SplitCount(messages, |messages|, GapMs(gapMinutes), parse)
  {
    if |messages| == 0 {
      return [];
    }
    var gapMs := gapMinutes * 60 * 1000;
    segments := [];
    var current := [messages[0]];
    for i := 1 to |messages|
      invariant segments + [current] == SessionsOf(messages, i, gapMs, parse)
    {
      var prev := parse(DateTimeText(messages[i - 1]));
      var curr := parse(DateTimeText(messages[i]));
      assert Splits(parse, gapMs, messages[i - 1], messages[i])
        <==> prev.Some? && curr.Some? && curr.value - prev.value > gapMs;
      ghost var p := segments + [current];
      assert p[..|p| - 1] == segments && p[|p| - 1] == current;
      assert SessionsOf(messages, i + 1, gapMs, parse)
        == if Splits(parse, gapMs, messages[i - 1], messages[i]) then p + [[messages[i]]]
           else p[..|p| - 1] + [p[|p| - 1] + [messages[i]]];
      if prev.Some? && curr.Some? && curr.value - prev.value > gapMs {
        segments := segments + [current];
        current := [];
        assert segments == p;
        current := current + [messages[i]];
        assert current == [messages[i]];
        assert Splits(parse, gapMs, messages[i - 1], messages[i]);
        assert segments + [current] == p + [[messages[i]]];
      } else {
        assert !Splits(parse, gapMs, messages[i - 1], messages[i]);
        current := current + [messages[i]];
        assert segments + [current] == p[..|p| - 1] + [p[|p| - 1] + [messages[i]]];
      }
      assert segments + [current] == SessionsOf(messages, i + 1, gapMs, parse);
    }
    segments := segments + [current];
    SessionsPartition(messages, |messages|, gapMs, parse);
    SessionsNonEmpty(messages, |messages|, gapMs, parse);
    SessionsGaps(messages, |messages|, gapMs, parse);
    SessionsCount(messages, |messages|, gapMs, parse);
    assert messages[..|messages|] == messages;
  }

  /** `segmentConversations(messages, gapMinutes = 60)`: the same as `segmentByGapMinutes`. */
  method SegmentConversations(messages: seq<Message>, parse: DateParser, gapMinutes: int := DefaultGapMinutes)
    returns (segments: seq<seq<Message>>)
    ensures segments == Sessions(messages, GapMs(gapMinutes), parse)
  {
    segments := SegmentByGapMinutes(messages, parse, gapMinutes);
  }

  /** `segmentByGap(messages, gapHours = 4)`: `segmentByGapMinutes` with a
      threshold of `gapHours * 60` minutes. */
  method SegmentByGap(messages: seq<Message>, parse: DateParser, gapHours: int := DefaultGapHours)
    returns (segments: seq<seq<Message>>)
    ensures segments == Sessions(messages, GapMs(gapHours * 60), parse)
    ensures Flatten(segments) == messages
    ensures forall k :: 0 <= k < |segments| ==> segments[k] != []
  {
    segments := SegmentByGapMinutes(messages, parse, gapHours * 60);
  }
}
