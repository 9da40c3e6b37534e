/** The exported-transcript reader: splits the text into lines, recognises
    the two header formats, folds continuation lines into the preceding
    message, and derives participants, a chat name and the date range. */
module WhatsappParser {
  import opened Wrappers
  import opened Strings
  import opened Messages

  const GroupChatName: string := "Group Chat"

  // ---------------------------------------------------------------------
  // text.split(/\r?\n/).filter(Boolean)

  /** Drops one trailing carriage return: the `\r?` of the separator. */
  function DropCR(s: string): (r: string)
    ensures r <= s
  {
    if s != [] && s[|s| - 1] == '\r' then s[..|s| - 1] else s
  }

  /** `text.split(/\r?\n/)`: every piece but the last was followed by a
      separator, so loses one trailing carriage return. */
  function RawLines(text: string): (r: seq<string>)
    ensures |r| == |SplitOn(text, '\n')|
    ensures forall i :: 0 <= i < |r| ==> '\n' !in r[i]
  {
    var pieces := SplitOn(text, '\n');
    seq(|pieces|, i requires 0 <= i < |pieces| => if i < |pieces| - 1 then DropCR(pieces[i]) else pieces[i])
  }

  /** `filter(Boolean)` on strings: drops exactly the empty ones, in order. */
  function NonEmpty(xs: seq<string>): (r: seq<string>)
    ensures forall l :: l in r <==> l in xs && l != ""
    ensures |r| <= |xs|
  {
    if xs == [] then []
    else
      var init := NonEmpty(xs[..|xs| - 1]);
      assert forall l :: l in xs <==> l in xs[..|xs| - 1] || l == xs[|xs| - 1];
      if xs[|xs| - 1] == "" then init else init + [xs[|xs| - 1]]
  }

  function Lines(text: string): seq<string> {
    NonEmpty(RawLines(text))
  }

  /** Lines joined with "\n" are read back one for one. */
  lemma RawLinesOfJoin(xs: seq<string>)
    requires |xs| >= 1
    requires forall i :: 0 <= i < |xs| ==> '\n' !in xs[i]
    requires forall i :: 0 <= i < |xs| - 1 ==> xs[i] == [] || xs[i][|xs[i]| - 1] != '\r'
    ensures RawLines(Join(xs, "\n")) == xs
  {
    SplitJoin(xs, '\n');
  }

  /** Each line with a carriage return appended, except the last. */
  function WithCR(xs: seq<string>): (r: seq<string>)
    ensures |r| == |xs|
    ensures forall i :: 0 <= i < |xs| - 1 ==> r[i] == xs[i] + "\r"
    ensures |xs| >= 1 ==> r[|xs| - 1] == xs[|xs| - 1]
  {
    seq(|xs|, i requires 0 <= i < |xs| => if i < |xs| - 1 then xs[i] + "\r" else xs[i])
  }

  lemma {:induction false} JoinCRLF(xs: seq<string>)
    requires |xs| >= 1
    ensures Join(xs, "\r\n") == Join(WithCR(xs), "\n")
    decreases |xs|
  {
    if |xs| > 1 {
      var ws := WithCR(xs);
      var rest := Join(xs[1..], "\r\n");
      JoinCRLF(xs[1..]);
      assert ws[1..] == WithCR(xs[1..]);
      assert Join(ws, "\n") == ws[0] + "\n" + rest;
      assert ws[0] + "\n" == xs[0] + "\r\n";
    }
  }

  /** Lines joined with "\r\n" (Windows line endings) are read back one for one. */
  lemma RawLinesOfCRLF(xs: seq<string>)
    requires |xs| >= 1
    requires forall i :: 0 <= i < |xs| ==> '\n' !in xs[i]
    ensures RawLines(Join(xs, "\r\n")) == xs
  {
    var text := Join(xs, "\r\n");
    var ws := CRLFPieces(xs, text);
    RawLinesOfPieces(text, ws, xs);
  }

  /** The pieces `text.split("\n")` gives: each line with its carriage return. */
  lemma CRLFPieces(xs: seq<string>, text: string) returns (ws: seq<string>)
    requires |xs| >= 1 && text == Join(xs, "\r\n")
    requires forall i :: 0 <= i < |xs| ==> '\n' !in xs[i]
    ensures SplitOn(text, '\n') == ws && |ws| == |xs|
    ensures forall i :: 0 <= i < |xs| - 1 ==> DropCR(ws[i]) == xs[i]
    ensures ws[|ws| - 1] == xs[|xs| - 1]
  {
    ws := WithCR(xs);
    DropsCR(xs, ws);
    PiecesOfCRLF(xs, ws, text);
  }

  lemma DropsCR(xs: seq<string>, ws: seq<string>)
    requires |xs| >= 1 && ws == WithCR(xs)
    requires forall i :: 0 <= i < |xs| ==> '\n' !in xs[i]
    ensures forall i :: 0 <= i < |xs| - 1 ==> DropCR(ws[i]) == xs[i]
  {
    forall i | 0 <= i < |xs| - 1 ensures DropCR(ws[i]) == xs[i] {
      CRPiece(xs[i], ws[i]);
    }
  }

  lemma PiecesOfCRLF(xs: seq<string>, ws: seq<string>, text: string)
    requires |xs| >= 1 && ws == WithCR(xs) && text == Join(xs, "\r\n")
    requires forall i :: 0 <= i < |xs| ==> '\n' !in xs[i]
    ensures SplitOn(text, '\n') == ws
  {
    forall i | 0 <= i < |ws| ensures '\n' !in ws[i] {
      if i < |xs| - 1 {
        CRPiece(xs[i], ws[i]);
      }
    }
    JoinCRLF(xs);
    SplitJoin(ws, '\n');
  }

  lemma CRPiece(x: string, w: string)
    requires '\n' !in x && w == x + "\r"
    ensures '\n' !in w && DropCR(w) == x
  {
    assert w[..|w| - 1] == x;
  }

  lemma RawLinesOfPieces(text: string, ws: seq<string>, xs: seq<string>)
    requires SplitOn(text, '\n') == ws && |ws| == |xs|
    requires forall i :: 0 <= i < |xs| - 1 ==> DropCR(ws[i]) == xs[i]
    requires ws[|ws| - 1] == xs[|xs| - 1]
    ensures RawLines(text) == xs
  {
  }

  // ---------------------------------------------------------------------
  // The header recognisers

  /** The length of the longest prefix of `s` whose characters satisfy `p`:
      what a greedy `[...]*` consumes. */
  function Run(s: string, p: char -> bool): (r: nat)
    ensures r <= |s|
    ensures forall i :: 0 <= i < r ==> p(s[i])
    ensures r < |s| ==> !p(s[r])
  {
    if s == [] || !p(s[0]) then 0 else 1 + Run(s[1..], p)
  }

  lemma {:induction false} RunConcat(x: string, rest: string, p: char -> bool)
    requires forall i :: 0 <= i < |x| ==> p(x[i])
    requires rest == [] || !p(rest[0])
    ensures Run(x + rest, p) == |x|
  {
    if x != [] {
      assert (x + rest)[1..] == x[1..] + rest;
      RunConcat(x[1..], rest, p);
    } else {
      assert x + rest == rest;
    }
  }

  predicate AllDigits(s: string) {
    forall i :: 0 <= i < |s| ==> IsDigit(s[i])
  }

  /** `[\d:]`. */
  predicate IsClockChar(c: char) { IsDigit(c) || c == ':' }

  /** `[APMapm]`. */
  predicate IsMeridiemChar(c: char) {
    c == 'A' || c == 'P' || c == 'M' || c == 'a' || c == 'p' || c == 'm'
  }

  /** The characters `.` does not match. */
  predicate IsLineTerminator(c: char) {
    c == '\n' || c == '\r' || c == '\U{2028}' || c == '\U{2029}'
  }

  /** The three `\d` groups of a date `M/D/YY`. */
  datatype DateParts = DateParts(month: string, day: string, year: string)

  function DateString(p: DateParts): string {
    p.month + "/" + p.day + "/" + p.year
  }

  /** `\d{1,2}\/\d{1,2}\/\d{2,4}`. */
  predicate WellFormedDate(p: DateParts) {
    && AllDigits(p.month) && 1 <= |p.month| <= 2
    && AllDigits(p.day) && 1 <= |p.day| <= 2
    && AllDigits(p.year) && 2 <= |p.year| <= 4
  }

  /** `\d{lo,hi}` at the start of `s`, when the pattern goes on with a
      non-digit: then the group must take the whole digit run. */
  function DigitGroup(s: string, lo: nat, hi: nat): (r: Option<string>)
    ensures r.Some? ==> AllDigits(r.value) && lo <= |r.value| <= hi && |r.value| <= |s|
    ensures r.Some? ==> r.value == s[..|r.value|]
  {
    var a := Run(s, IsDigit);
    if lo <= a <= hi then Some(s[..a]) else None
  }

  lemma DigitGroupConcat(x: string, rest: string, lo: nat, hi: nat)
    requires AllDigits(x) && lo <= |x| <= hi
    requires rest == [] || !IsDigit(rest[0])
    ensures DigitGroup(x + rest, lo, hi) == Some(x)
  {
    RunConcat(x, rest, IsDigit);
    assert (x + rest)[..|x|] == x;
  }

  /** `\/\d{lo,hi}` at the start of `s`: the digits and what follows them. */
  function SlashGroup(s: string, lo: nat, hi: nat): (r: Option<(string, string)>)
    ensures r.Some? ==> AllDigits(r.value.0) && lo <= |r.value.0| <= hi && |r.value.0| + 1 + |r.value.1| == |s|
  {
    if s == [] || s[0] != '/' then None
    else
      match DigitGroup(s[1..], lo, hi)
      case None => None
      case Some(d) => Some((d, s[1..][|d|..]))
  }

  lemma SlashGroupConcat(x: string, rest: string, lo: nat, hi: nat)
    requires AllDigits(x) && lo <= |x| <= hi
    requires rest == [] || !IsDigit(rest[0])
    ensures SlashGroup("/" + x + rest, lo, hi) == Some((x, rest))
  {
    var s := "/" + x + rest;
    assert s[1..] == x + rest;
    DigitGroupConcat(x, rest, lo, hi);
    assert (x + rest)[|x|..] == rest;
  }

  /** The date at the start of `s`. */
  function DateMatch(s: string): (r: Option<DateParts>)
    ensures r.Some? ==> WellFormedDate(r.value) && |DateString(r.value)| <= |s|
    ensures r.Some? ==> s != [] && IsDigit(s[0])
  {
    match DigitGroup(s, 1, 2)
    case None => None
    case Some(month) =>
      match SlashGroup(s[|month|..], 1, 2)
      case None => None
      case Some((day, rest)) =>
        match SlashGroup(rest, 2, 4)
        case None => None
        case Some((year, _)) => Some(DateParts(month, day, year))
  }

  lemma DateMatchConcat(p: DateParts, rest: string)
    requires WellFormedDate(p)
    requires rest == [] || !IsDigit(rest[0])
    ensures DateMatch(DateString(p) + rest) == Some(p)
  {
    assert DateString(p) + rest == p.month + ("/" + p.day + ("/" + p.year + rest));
    DateMatchGroups(p, rest);
  }

  lemma DateMatchGroups(p: DateParts, rest: string)
    requires WellFormedDate(p)
    requires rest == [] || !IsDigit(rest[0])
    ensures DateMatch(p.month + ("/" + p.day + ("/" + p.year + rest))) == Some(p)
  {
    var r2 := "/" + p.year + rest;
    var r1 := "/" + p.day + r2;
    var s := p.month + r1;
    DigitGroupConcat(p.month, r1, 1, 2);
    assert s[|p.month|..] == r1;
    SlashGroupConcat(p.day, r2, 1, 2);
    SlashGroupConcat(p.year, rest, 2, 4);
  }

  /** The length of `[\d:]+(?:\u202F?[APMapm]{2})?` at the start of `s`. The
      optional group is taken only when it matches in full; when it does
      not, the character that follows the clock cannot start the group, so
      the pattern's backtracking arrives at the same answer. */
  function TimeMatch(s: string): (r: Option<nat>)
    ensures r.Some? ==> 0 < r.value <= |s|
  {
    var t := Run(s, IsClockChar);
    if t == 0 then None
    else
      var rest := s[t..];
      if |rest| >= 3 && rest[0] == '\U{202F}' && IsMeridiemChar(rest[1]) && IsMeridiemChar(rest[2]) then Some(t + 3)
      else if |rest| >= 2 && IsMeridiemChar(rest[0]) && IsMeridiemChar(rest[1]) then Some(t + 2)
      else Some(t)
  }

  /** A meridiem suffix: none, two letters, or U+202F and two letters. */
  predicate WellFormedSuffix(suffix: string) {
    || suffix == []
    || (|suffix| == 2 && IsMeridiemChar(suffix[0]) && IsMeridiemChar(suffix[1]))
    || (|suffix| == 3 && suffix[0] == '\U{202F}' && IsMeridiemChar(suffix[1]) && IsMeridiemChar(suffix[2]))
  }

  lemma TimeMatchConcat(s: string, clock: string, suffix: string, rest: string)
    requires s == clock + (suffix + rest)
    requires clock != [] && forall i :: 0 <= i < |clock| ==> IsClockChar(clock[i])
    requires WellFormedSuffix(suffix)
    requires rest != [] && (rest[0] == ']' || rest[0] == ' ')
    ensures TimeMatch(s) == Some(|clock| + |suffix|)
  {
    RunConcat(clock, suffix + rest, IsClockChar);
    assert s[|clock|..] == suffix + rest;
  }

  /** The captures `[_, date, time, sender, message]` of a header line. */
  datatype Header = Header(date: string, time: string, sender: string, text: string)

  /** `([^:]+):\s(.*)$` on `s`: the sender runs to the first colon and must
      be non-empty, one white-space character follows, and the rest must
      hold no line terminator. */
  function SenderAndText(s: string): (r: Option<(string, string)>)
    ensures r.Some? ==> r.value.0 != "" && ':' !in r.value.0
    ensures r.Some? ==> forall i :: 0 <= i < |r.value.1| ==> !IsLineTerminator(r.value.1[i])
  {
    var n := IndexOf(s, ':');
    if n <= 0 then None
    else
      var after := s[n + 1..];
      if after == [] || !IsSpace(after[0]) then None
      else
        var text := after[1..];
        if exists i :: 0 <= i < |text| && IsLineTerminator(text[i]) then None
        else Some((s[..n], text))
  }

  lemma SenderAndTextConcat(s: string, sender: string, text: string)
    requires s == sender + (": " + text)
    requires sender != "" && ':' !in sender
    requires forall i :: 0 <= i < |text| ==> !IsLineTerminator(text[i])
    ensures SenderAndText(s) == Some((sender, text))
  {
    assert s[..|sender|] == sender;
    IndexOfAt(s, ':', |sender|);
    assert s[|sender| + 1..] == " " + text;
  }

  /** After the date: `,\s+(time)` followed by the rest of the line. */
  function CommaAndTime(s: string): (r: Option<(string, string)>)
  {
    if s == [] || s[0] != ',' then None
    else
      var s1 := s[1..];
      var w := Run(s1, IsSpace);
      if w == 0 then None
      else
        var s2 := s1[w..];
        match TimeMatch(s2)
        case None => None
        case Some(t) => Some((s2[..t], s2[t..]))
  }

  lemma CommaAndTimeConcat(s: string, clock: string, suffix: string, rest: string)
    requires s == ", " + (clock + (suffix + rest))
    requires clock != [] && forall i :: 0 <= i < |clock| ==> IsClockChar(clock[i])
    requires WellFormedSuffix(suffix)
    requires rest != [] && (rest[0] == ']' || rest[0] == ' ')
    ensures CommaAndTime(s) == Some((clock + suffix, rest))
  {
    var s2 := clock + (suffix + rest);
    CommaStage(s, s2);
    TimeMatchConcat(s2, clock, suffix, rest);
    SplitAfterTime(s2, clock, suffix, rest);
  }

  lemma CommaStage(s: string, s2: string)
    requires s == ", " + s2 && s2 != [] && !IsSpace(s2[0])
    ensures s != [] && s[0] == ',' && Run(s[1..], IsSpace) == 1 && s[1..][1..] == s2
  {
    assert s[1..] == " " + s2;
    RunConcat(" ", s2, IsSpace);
  }

  lemma SplitAfterTime(s2: string, clock: string, suffix: string, rest: string)
    requires s2 == clock + (suffix + rest)
    ensures s2[..|clock| + |suffix|] == clock + suffix && s2[|clock| + |suffix|..] == rest
  {
  }

  /** The date of a recognised header splits into exactly its three groups. */
  lemma DatePartsSplit(p: DateParts)
    requires WellFormedDate(p)
    ensures SplitOn(DateString(p), '/') == [p.month, p.day, p.year]
  {
    var xs := [p.month, p.day, p.year];
    assert !IsDigit('/');
    assert forall i :: 0 <= i < |p.month| ==> p.month[i] != '/';
    assert forall i :: 0 <= i < |p.day| ==> p.day[i] != '/';
    assert forall i :: 0 <= i < |p.year| ==> p.year[i] != '/';
    assert xs[1..][1..] == [p.year];
    assert Join(xs[1..][1..], "/") == p.year;
    assert Join(xs[1..], "/") == p.day + "/" + p.year;
    assert Join(xs, "/") == p.month + "/" + (p.day + "/" + p.year);
    assert Join(xs, "/") == DateString(p);
    SplitJoin(xs, '/');
  }

  /** What every recognised header satisfies: a non-empty sender without
      ':' (`[^:]+`), and a date of three '/'-separated groups. */
  predicate ValidHeader(h: Header) {
    h.sender != "" && ':' !in h.sender && |SplitOn(h.date, '/')| == 3
  }

  /** `^\[(date),\s+(time)\]\s([^:]+):\s(.*)$`. */
  function MatchBracketed(line: string): (r: Option<Header>)
    ensures r.Some? ==> line != [] && line[0] == '['
    ensures r.Some? ==> ValidHeader(r.value)
  {
    if line == [] || line[0] != '[' then None
    else
      match DateMatch(line[1..])
      case None => None
      case Some(p) =>
        match CommaAndTime(line[1..][|DateString(p)|..])
        case None => None
        case Some((time, rest)) =>
          if |rest| < 2 || rest[0] != ']' || !IsSpace(rest[1]) then None
          else
            match SenderAndText(rest[2..])
            case None => None
            case Some((sender, text)) =>
              DatePartsSplit(p);
              Some(Header(DateString(p), time, sender, text))
  }

  /** `^(date),\s+(time)\s-\s([^:]+):\s(.*)$`. */
  function MatchDashed(line: string): (r: Option<Header>)
    ensures r.Some? ==> line != [] && IsDigit(line[0])
    ensures r.Some? ==> ValidHeader(r.value)
  {
    match DateMatch(line)
    case None => None
    case Some(p) =>
      match CommaAndTime(line[|DateString(p)|..])
      case None => None
      case Some((time, rest)) =>
        if |rest| < 3 || !IsSpace(rest[0]) || rest[1] != '-' || !IsSpace(rest[2]) then None
        else
          match SenderAndText(rest[3..])
          case None => None
          case Some((sender, text)) =>
            DatePartsSplit(p);
            Some(Header(DateString(p), time, sender, text))
  }

  /** The two formats never both match a line: one starts with '[' and
      the other with a digit. */
  lemma FormatsDisjoint(line: string)
    ensures MatchBracketed(line).None? || MatchDashed(line).None?
  {
  }

  /** A header whose fields the two formats can write out, with its time
      split into the clock and the meridiem suffix. */
  predicate Writable(h: Header, p: DateParts, clock: string, suffix: string) {
    && h.date == DateString(p) && WellFormedDate(p)
    && h.time == clock + suffix && clock != [] && (forall i :: 0 <= i < |clock| ==> IsClockChar(clock[i]))
    && WellFormedSuffix(suffix)
    && h.sender != "" && ':' !in h.sender
    && forall i :: 0 <= i < |h.text| ==> !IsLineTerminator(h.text[i])
  }

  /** `[date, time] sender: text`. */
  function BracketedLine(h: Header): string {
    "[" + (h.date + (", " + (h.time + ("] " + (h.sender + (": " + h.text))))))
  }

  /** `date, time - sender: text`. */
  function DashedLine(h: Header): string {
    h.date + (", " + (h.time + (" - " + (h.sender + (": " + h.text)))))
  }

  /** The stages of the bracketed pattern, one after the other. */
  lemma BracketedStages(line: string, p: DateParts, time: string, rest: string, sender: string, text: string)
    requires line != [] && line[0] == '['
    requires DateMatch(line[1..]) == Some(p)
    requires CommaAndTime(line[1..][|DateString(p)|..]) == Some((time, rest))
    requires |rest| >= 2 && rest[0] == ']' && IsSpace(rest[1])
    requires SenderAndText(rest[2..]) == Some((sender, text))
    ensures MatchBracketed(line) == Some(Header(DateString(p), time, sender, text))
  {
  }

  /** The stages of the dashed pattern, one after the other. */
  lemma DashedStages(line: string, p: DateParts, time: string, rest: string, sender: string, text: string)
    requires DateMatch(line) == Some(p)
    requires CommaAndTime(line[|DateString(p)|..]) == Some((time, rest))
    requires |rest| >= 3 && IsSpace(rest[0]) && rest[1] == '-' && IsSpace(rest[2])
    requires SenderAndText(rest[3..]) == Some((sender, text))
    ensures MatchDashed(line) == Some(Header(DateString(p), time, sender, text))
  {
  }

  /** The date stage of the bracketed pattern on a line `[date...`. */
  lemma BracketedDate(line: string, p: DateParts, after: string)
    requires line == "[" + (DateString(p) + after) && WellFormedDate(p)
    requires after != [] && after[0] == ','
    ensures line != [] && line[0] == '['
    ensures DateMatch(line[1..]) == Some(p) && line[1..][|DateString(p)|..] == after
  {
    assert line[1..] == DateString(p) + after;
    DateMatchConcat(p, after);
    assert (DateString(p) + after)[|DateString(p)|..] == after;
  }

  /** The date stage of the dashed pattern on a line `date...`. */
  lemma DashedDate(line: string, p: DateParts, after: string)
    requires line == DateString(p) + after && WellFormedDate(p)
    requires after != [] && after[0] == ','
    ensures DateMatch(line) == Some(p) && line[|DateString(p)|..] == after
  {
    DateMatchConcat(p, after);
  }

  /** The sender stage after `"] "`. */
  lemma BracketedTail(tail: string, sender: string, text: string)
    requires tail == "] " + (sender + (": " + text))
    requires sender != "" && ':' !in sender
    requires forall i :: 0 <= i < |text| ==> !IsLineTerminator(text[i])
    ensures |tail| >= 2 && tail[0] == ']' && IsSpace(tail[1])
    ensures SenderAndText(tail[2..]) == Some((sender, text))
  {
    assert tail[2..] == sender + (": " + text);
    SenderAndTextConcat(tail[2..], sender, text);
  }

  /** The sender stage after `" - "`. */
  lemma DashedTail(tail: string, sender: string, text: string)
    requires tail == " - " + (sender + (": " + text))
    requires sender != "" && ':' !in sender
    requires forall i :: 0 <= i < |text| ==> !IsLineTerminator(text[i])
    ensures |tail| >= 3 && IsSpace(tail[0]) && tail[1] == '-' && IsSpace(tail[2])
    ensures SenderAndText(tail[3..]) == Some((sender, text))
  {
    assert tail[3..] == sender + (": " + text);
    SenderAndTextConcat(tail[3..], sender, text);
  }

  lemma TimeSplit(clock: string, suffix: string, tail: string)
    ensures (clock + suffix) + tail == clock + (suffix + tail)
  {
  }

  /** A written-out bracketed header is recognised with exactly its fields. */
  lemma BracketedRoundTrip(h: Header, p: DateParts, clock: string, suffix: string)
    requires Writable(h, p, clock, suffix)
    ensures MatchBracketed(BracketedLine(h)) == Some(h)
  {
    var tail := "] " + (h.sender + (": " + h.text));
    var after := ", " + (h.time + tail);
    var line := BracketedLine(h);
    BracketedDate(line, p, after);
    TimeSplit(clock, suffix, tail);
    CommaAndTimeConcat(after, clock, suffix, tail);
    BracketedTail(tail, h.sender, h.text);
    BracketedStages(line, p, h.time, tail, h.sender, h.text);
  }

  /** A written-out dashed header is recognised with exactly its fields. */
  lemma DashedRoundTrip(h: Header, p: DateParts, clock: string, suffix: string)
    requires Writable(h, p, clock, suffix)
    ensures MatchDashed(DashedLine(h)) == Some(h)
  {
    var tail := " - " + (h.sender + (": " + h.text));
    var after := ", " + (h.time + tail);
    var line := DashedLine(h);
    DashedDate(line, p, after);
    TimeSplit(clock, suffix, tail);
    CommaAndTimeConcat(after, clock, suffix, tail);
    DashedTail(tail, h.sender, h.text);
    DashedStages(line, p, h.time, tail, h.sender, h.text);
  }

  // ---------------------------------------------------------------------
  // The line loop

  type Format = string -> Option<Header>

  /** The `regexes` array, in the order the formats are tried. */
  const Formats: seq<Format> := [MatchBracketed, MatchDashed]

  /** Every header a format recognises is valid. */
  ghost predicate FormatsValid(formats: seq<Format>) {
    forall k, line :: 0 <= k < |formats| && formats[k](line).Some? ==> ValidHeader(formats[k](line).value)
  }

  lemma FormatsAreValid()
    ensures FormatsValid(Formats)
  {
  }

  /** The captures of the first format that matches. */
  function FirstMatch(formats: seq<Format>, line: string): (r: Option<Header>)
    ensures r.None? <==> forall k :: 0 <= k < |formats| ==> formats[k](line).None?
    ensures r.Some? ==> exists k :: 0 <= k < |formats| && formats[k](line) == r
  {
    if formats == [] then None
    else if formats[0](line).Some? then formats[0](line)
    else
      var r := FirstMatch(formats[1..], line);
      assert forall k :: 1 <= k < |formats| ==> formats[k] == formats[1..][k - 1];
      r
  }

  /** Format `k` matching after every earlier one failed gives the first match. */
  lemma {:induction false} FirstMatchAt(formats: seq<Format>, line: string, k: nat)
    requires k < |formats| && formats[k](line).Some?
    requires forall j :: 0 <= j < k ==> formats[j](line).None?
    ensures FirstMatch(formats, line) == formats[k](line)
  {
    if k > 0 {
      FirstMatchAt(formats[1..], line, k - 1);
    }
  }

  /** The two formats in either order give the same answer. */
  lemma FirstFormatWins(line: string)
    ensures FirstMatch(Formats, line) == FirstMatch([MatchDashed, MatchBracketed], line)
  {
    FormatsDisjoint(line);
    assert Formats[1..][1..] == [];
    assert [MatchDashed, MatchBracketed][1..][1..] == [];
  }

  /** The message a header line starts; its text is trimmed. */
  function Start(h: Header): Message {
    Message(h.sender, h.date, h.time, Trim(h.text))
  }

  /** One pass of the line loop. */
  function Step(msgs: seq<Message>, line: string, formats: seq<Format>): seq<Message> {
    match FirstMatch(formats, line)
    case Some(h) => msgs + [Start(h)]
    case None =>
      if msgs == [] then msgs
      else
        var last := msgs[|msgs| - 1];
        msgs[|msgs| - 1 := last.(text := last.text + "\n" + Trim(line))]
  }

  /** The messages after the first `n` lines. */
  function Fold(lines: seq<string>, n: nat, formats: seq<Format>): seq<Message>
    requires n <= |lines|
  {
    if n == 0 then [] else Step(Fold(lines, n - 1, formats), lines[n - 1], formats)
  }

  /** The headers among the first `n` lines, in order. */
  function Headers(lines: seq<string>, n: nat, formats: seq<Format>): seq<Header>
    requires n <= |lines|
  {
    if n == 0 then []
    else
      Headers(lines, n - 1, formats) + match FirstMatch(formats, lines[n - 1]) case Some(h) => [h] case None => []
  }

  /** One message per header line: lines before the first header are
      dropped and continuation lines start no message. */
  lemma {:induction false} FoldCount(lines: seq<string>, n: nat, formats: seq<Format>)
    requires n <= |lines|
    ensures |Fold(lines, n, formats)| == |Headers(lines, n, formats)|
  {
    if n > 0 {
      FoldCount(lines, n - 1, formats);
      var prev, hs := Fold(lines, n - 1, formats), Headers(lines, n - 1, formats);
      var line := lines[n - 1];
      match FirstMatch(formats, line) {
        case Some(h) =>
          assert Fold(lines, n, formats) == prev + [Start(h)];
          assert Headers(lines, n, formats) == hs + [h];
        case None =>
          assert Headers(lines, n, formats) == hs;
          assert |Fold(lines, n, formats)| == |prev|;
      }
    }
  }

  /** Message k comes from the k-th header line: same date, time and sender,
      and a text that starts with that header's trimmed text; continuation
      lines only ever extend the last text. */
  lemma {:induction false} FoldFollowsHeaders(lines: seq<string>, n: nat, formats: seq<Format>)
    requires n <= |lines|
    ensures AllFollow(Fold(lines, n, formats), Headers(lines, n, formats))
  {
    if n > 0 {
      FoldFollowsHeaders(lines, n - 1, formats);
      var prev, hs := Fold(lines, n - 1, formats), Headers(lines, n - 1, formats);
      var line := lines[n - 1];
      FoldStep(lines, n, formats);
      match FirstMatch(formats, line) {
        case Some(h) =>
          FollowsAfterHeader(prev, hs, h);
        case None =>
          if prev != [] {
            FollowsAfterContinuation(prev, hs, line);
          }
      }
    }
  }

  /** The step from `n - 1` lines to `n`, for messages and headers together. */
  lemma FoldStep(lines: seq<string>, n: nat, formats: seq<Format>)
    requires 0 < n <= |lines|
    ensures var prev, line := Fold(lines, n - 1, formats), lines[n - 1];
      match FirstMatch(formats, line)
      case Some(h) =>
        Fold(lines, n, formats) == prev + [Start(h)]
        && Headers(lines, n, formats) == Headers(lines, n - 1, formats) + [h]
      case None =>
        && Headers(lines, n, formats) == Headers(lines, n - 1, formats)
        && (prev == [] ==> Fold(lines, n, formats) == [])
        && (prev != [] ==> Fold(lines, n, formats) == prev[|prev| - 1 := prev[|prev| - 1].(text := prev[|prev| - 1].text + "\n" + Trim(line))])
  {
  }

  /** Messages and headers correspond one for one. */
  predicate AllFollow(ms: seq<Message>, hs: seq<Header>) {
    |ms| == |hs| && forall k :: 0 <= k < |ms| ==> Follows(ms[k], hs[k])
  }

  lemma FollowsAfterHeader(ms: seq<Message>, hs: seq<Header>, h: Header)
    requires AllFollow(ms, hs)
    ensures AllFollow(ms + [Start(h)], hs + [h])
  {
    StartFollows(h);
  }

  lemma FollowsAfterContinuation(ms: seq<Message>, hs: seq<Header>, line: string)
    requires AllFollow(ms, hs) && ms != []
    ensures AllFollow(ms[|ms| - 1 := ms[|ms| - 1].(text := ms[|ms| - 1].text + "\n" + Trim(line))], hs)
  {
    var last := ms[|ms| - 1];
    PrefixExtends(Trim(hs[|ms| - 1].text), last.text, "\n" + Trim(line));
    assert last.text + "\n" + Trim(line) == last.text + ("\n" + Trim(line));
  }

  lemma StartFollows(h: Header)
    ensures Follows(Start(h), h)
  {
    var t := Trim(h.text);
    assert t[..|t|] == t;
  }

  lemma PrefixExtends(a: string, b: string, c: string)
    requires a <= b
    ensures a <= b + c
  {
    assert (b + c)[..|a|] == b[..|a|];
  }

  /** A message carries its header's date, time and sender, and its text
      starts with the header's trimmed text. */
  predicate Follows(m: Message, h: Header) {
    m.sender == h.sender && m.date == h.date && m.time == h.time && Trim(h.text) <= m.text
  }

  /** What every parsed message inherits from its header. */
  predicate ValidMessage(m: Message) {
    m.sender != "" && ':' !in m.sender && |SplitOn(m.date, '/')| == 3
  }

  lemma {:induction false} FoldValid(lines: seq<string>, n: nat, formats: seq<Format>)
    requires n <= |lines| && FormatsValid(formats)
    ensures forall k :: 0 <= k < |Fold(lines, n, formats)| ==> ValidMessage(Fold(lines, n, formats)[k])
  {
    if n > 0 {
      FoldValid(lines, n - 1, formats);
      StepValid(Fold(lines, n - 1, formats), lines[n - 1], formats);
    }
  }

  lemma StepValid(msgs: seq<Message>, line: string, formats: seq<Format>)
    requires FormatsValid(formats)
    requires forall k :: 0 <= k < |msgs| ==> ValidMessage(msgs[k])
    ensures forall k :: 0 <= k < |Step(msgs, line, formats)| ==> ValidMessage(Step(msgs, line, formats)[k])
  {
    match FirstMatch(formats, line)
    case Some(h) =>
      var j :| 0 <= j < |formats| && formats[j](line) == Some(h);
      assert ValidHeader(h);
    case None =>
  }

  /** The loop: try the formats in order, push a message on the first
      match, else append the trimmed line to the last message. */
  method ParseMessages(lines: seq<string>, formats: seq<Format>) returns (messages: seq<Message>)
    ensures messages == Fold(lines, |lines|, formats)
  {
    messages := [];
    for i := 0 to |lines|
      invariant messages == Fold(lines, i, formats)
    {
      messages := ParseLine(messages, lines[i], formats);
    }
  }

  /** One pass of the loop body on `line`. */
  method ParseLine(prev: seq<Message>, line: string, formats: seq<Format>) returns (messages: seq<Message>)
    ensures messages == Step(prev, line, formats)
  {
    messages := prev;
    var matched := false;
    var k := 0;
    while k < |formats|
      invariant 0 <= k <= |formats|
      invariant !matched && messages == prev
      invariant forall j :: 0 <= j < k ==> formats[j](line).None?
      decreases |formats| - k
    {
      var m := formats[k](line);
      if m.Some? {
        FirstMatchAt(formats, line, k);
        StepHeader(prev, line, formats, m.value);
        var h := m.value;
        messages := messages + [Message(h.sender, h.date, h.time, Trim(h.text))];
        matched := true;
        break;
      }
      k := k + 1;
    }
    if !matched {
      StepContinuation(prev, line, formats);
      if |messages| > 0 {
        var last := messages[|messages| - 1];
        messages := messages[|messages| - 1 := last.(text := last.text + "\n" + Trim(line))];
      }
    }
  }

  lemma StepHeader(msgs: seq<Message>, line: string, formats: seq<Format>, h: Header)
    requires FirstMatch(formats, line) == Some(h)
    ensures Step(msgs, line, formats) == msgs + [Message(h.sender, h.date, h.time, Trim(h.text))]
  {
  }

  lemma StepContinuation(msgs: seq<Message>, line: string, formats: seq<Format>)
    requires forall j :: 0 <= j < |formats| ==> formats[j](line).None?
    ensures msgs == [] ==> Step(msgs, line, formats) == msgs
    ensures msgs != [] ==>
      Step(msgs, line, formats) == msgs[|msgs| - 1 := msgs[|msgs| - 1].(text := msgs[|msgs| - 1].text + "\n" + Trim(line))]
  {
  }

  // ---------------------------------------------------------------------
  // Metadata

  /** `[...new Set(xs)]`: each value at its first appearance, in order. */
  function Distinct(xs: seq<string>): (r: seq<string>)
    ensures forall x :: x in r <==> x in xs
    ensures forall i, j :: 0 <= i < j < |r| ==> r[i] != r[j]
  {
    if xs == [] then []
    else
      var init := xs[..|xs| - 1];
      var d := Distinct(init);
      assert forall x :: x in xs <==> x in init || x == xs[|xs| - 1];
      if xs[|xs| - 1] in init then d else d + [xs[|xs| - 1]]
  }

  /** The position of the first appearance of `x` in `xs`. */
  function FirstIndex(xs: seq<string>, x: string): (r: nat)
    requires x in xs
    ensures r < |xs| && xs[r] == x && x !in xs[..r]
  {
    if xs[0] == x then 0
    else
      var r := 1 + FirstIndex(xs[1..], x);
      assert xs[..r] == [xs[0]] + xs[1..][..r - 1];
      r
  }

  /** A position holding `x` with no earlier `x` is its first appearance. */
  lemma FirstIndexUnique(xs: seq<string>, x: string, f: nat)
    requires f < |xs| && xs[f] == x && x !in xs[..f]
    ensures FirstIndex(xs, x) == f
  {
    var r := FirstIndex(xs, x);
    assert forall k :: 0 <= k < f ==> xs[..f][k] == xs[k];
    assert forall k :: 0 <= k < r ==> xs[..r][k] == xs[k];
  }

  /** The participants are listed in the order of their first appearance:
      with the same values as the input and no repetition, this fixes the
      list. */
  lemma {:induction false} DistinctOrder(xs: seq<string>)
    ensures forall i, j :: 0 <= i < j < |Distinct(xs)| ==> FirstIndex(xs, Distinct(xs)[i]) < FirstIndex(xs, Distinct(xs)[j])
  {
    if xs != [] {
      var n := |xs|;
      var init := xs[..n - 1];
      var d := Distinct(init);
      DistinctOrder(init);
      forall x | x in init ensures FirstIndex(xs, x) == FirstIndex(init, x) {
        var f := FirstIndex(init, x);
        assert xs[..f] == init[..f];
        FirstIndexUnique(xs, x, f);
      }
      if xs[n - 1] !in init {
        assert xs[..n - 1] == init;
        FirstIndexUnique(xs, xs[n - 1], n - 1);
        assert Distinct(xs) == d + [xs[n - 1]];
        forall i | 0 <= i < |d| ensures FirstIndex(xs, d[i]) < n - 1 {
          assert d[i] in init;
        }
      }
    }
  }

  /** The first participant is the first sender, and in a two-person chat
      the second is the first sender different from it. */
  lemma DistinctHead(xs: seq<string>)
    ensures xs != [] ==> Distinct(xs) != [] && Distinct(xs)[0] == xs[0]
    ensures |Distinct(xs)| == 2 ==> xs[0] != Distinct(xs)[1]
    ensures |Distinct(xs)| == 2 ==> forall k :: 0 <= k < FirstIndex(xs, Distinct(xs)[1]) ==> xs[k] == xs[0]
  {
    if xs != [] {
      var r := Distinct(xs);
      assert xs[0] in r;
      var p :| 0 <= p < |r| && r[p] == xs[0];
      DistinctOrder(xs);
      FirstIndexUnique(xs, xs[0], 0);
      assert FirstIndex(xs, r[p]) == 0 <= FirstIndex(xs, r[0]);
      assert p == 0;
      if |r| == 2 {
        var f := FirstIndex(xs, r[1]);
        forall k | 0 <= k < f ensures xs[k] == xs[0] {
          assert xs[..f][k] == xs[k];
          assert xs[k] in r;
        }
      }
    }
  }

  function Senders(ms: seq<Message>): (r: seq<string>)
    ensures |r| == |ms|
    ensures forall k :: 0 <= k < |ms| ==> r[k] == ms[k].sender
  {
    if ms == [] then [] else [ms[0].sender] + Senders(ms[1..])
  }

  /** `participants[1]` for a two-person chat, else "Group Chat". */
  function ChatName(participants: seq<string>): (r: string)
    ensures |participants| == 2 ==> r == participants[1]
    ensures |participants| != 2 ==> r == GroupChatName
  {
    if |participants| == 2 then participants[1] else GroupChatName
  }

  /** The calendar text `toDate` builds from `M/D/Y`: `Y-M-D`, with "20"
      in front of a two-digit year. */
  function DateKeyText(d: string): string
    requires |SplitOn(d, '/')| >= 3
  {
    var parts := SplitOn(d, '/');
    var month, day, year := parts[0], parts[1], parts[2];
    var y := if |year| == 2 then "20" + year else year;
    y + "-" + month + "-" + day
  }

  /** `toDate` on a recognised date. */
  lemma DateKeyOfParts(p: DateParts)
    requires WellFormedDate(p)
    ensures |SplitOn(DateString(p), '/')| == 3
    ensures DateKeyText(DateString(p)) == (if |p.year| == 2 then "20" + p.year else p.year) + "-" + p.month + "-" + p.day
  {
    DatePartsSplit(p);
  }

  /** `new Date(text).getTime()`: `None` is an Invalid Date. */
  type DateValue = string -> Option<int>

  /** `toDate(d)` as a time value. Every recognised date has three parts;
      on fewer the source would throw, and this answers an Invalid Date. */
  function ToDate(value: DateValue, d: string): Option<int> {
    if |SplitOn(d, '/')| >= 3 then value(DateKeyText(d)) else None
  }

  /** The sort key of a message date. */
  type DateKey = string -> Option<int>

  /** Every message date is a valid date. */
  predicate AllDatesValid(ms: seq<Message>, key: DateKey) {
    forall k :: 0 <= k < |ms| ==> key(ms[k].date).Some?
  }

  function Key(m: Message, key: DateKey): int
    requires key(m.date).Some?
  {
    key(m.date).value
  }

  /** The index of the first message with the smallest key among the first
      `n`: where a stable ascending sort puts `sorted[0]`. */
  function FirstMin(ms: seq<Message>, key: DateKey, n: nat): (r: nat)
    requires 0 < n <= |ms| && AllDatesValid(ms, key)
    ensures r < n
    ensures forall j :: 0 <= j < n ==> Key(ms[r], key) <= Key(ms[j], key)
    ensures forall j :: 0 <= j < r ==> Key(ms[j], key) > Key(ms[r], key)
  {
    if n == 1 then 0
    else
      var p := FirstMin(ms, key, n - 1);
      if Key(ms[n - 1], key) < Key(ms[p], key) then n - 1 else p
  }

  /** The index of the last message with the largest key among the first
      `n`: where a stable ascending sort puts its last element. */
  function LastMax(ms: seq<Message>, key: DateKey, n: nat): (r: nat)
    requires 0 < n <= |ms| && AllDatesValid(ms, key)
    ensures r < n
    ensures forall j :: 0 <= j < n ==> Key(ms[j], key) <= Key(ms[r], key)
    ensures forall j :: r < j < n ==> Key(ms[j], key) < Key(ms[r], key)
  {
    if n == 1 then 0
    else
      var p := LastMax(ms, key, n - 1);
      if Key(ms[n - 1], key) >= Key(ms[p], key) then n - 1 else p
  }

  /** No message date is a valid date. */
  predicate NoDateValid(ms: seq<Message>, key: DateKey) {
    forall k :: 0 <= k < |ms| ==> key(ms[k].date).None?
  }

  /** The comparator `toDate(a.date) - toDate(b.date)` is NaN, which the
      sort reads as 0, whenever either date is invalid. With every date
      invalid (or a single message) it is constantly 0 and the stable sort
      keeps the input order; some valid and some invalid dates make it
      inconsistent, and that order is implementation-defined. */
  predicate RangeDetermined(ms: seq<Message>, key: DateKey) {
    AllDatesValid(ms, key) || NoDateValid(ms, key) || |ms| == 1
  }

  /** What `parseWhatsapp` returns. `range` is `(firstDate, lastDate)`, and
      `None` exactly when the sort order is implementation-defined. */
  datatype ParsedChat =
    | NoMessages
    | Chat(participants: seq<string>, messages: seq<Message>, chatName: string, range: Option<(string, string)>)

  /** The chat for a list of recognised messages. */
  function ChatOf(ms: seq<Message>, key: DateKey): (r: ParsedChat)
    ensures ms == [] <==> r.NoMessages?
    ensures r.Chat? ==> r.messages == ms && r.participants == Distinct(Senders(ms))
    ensures r.Chat? ==> r.chatName == ChatName(r.participants)
    ensures r.Chat? ==> (r.range.Some? <==> RangeDetermined(ms, key))
    ensures r.Chat? && AllDatesValid(ms, key) ==> r.range.value.0 == ms[FirstMin(ms, key, |ms|)].date
    ensures r.Chat? && AllDatesValid(ms, key) ==> r.range.value.1 == ms[LastMax(ms, key, |ms|)].date
    ensures r.Chat? && !AllDatesValid(ms, key) && RangeDetermined(ms, key) ==> r.range == Some((ms[0].date, ms[|ms| - 1].date))
  {
    if ms == [] then NoMessages
    else
      var participants := Distinct(Senders(ms));
      var range := if AllDatesValid(ms, key)
        then Some((ms[FirstMin(ms, key, |ms|)].date, ms[LastMax(ms, key, |ms|)].date))
        else if NoDateValid(ms, key) || |ms| == 1 then Some((ms[0].date, ms[|ms| - 1].date))
        else None;
      Chat(participants, ms, ChatName(participants), range)
  }

  /** A one-message chat starts and ends at its message's date, whether or
      not that date is valid. */
  lemma SingleMessageRange(m: Message, key: DateKey)
    ensures ChatOf([m], key).range == Some((m.date, m.date))
  {
    if AllDatesValid([m], key) {
      assert FirstMin([m], key, 1) == 0 && LastMax([m], key, 1) == 0;
    }
  }

  /** `parseWhatsapp(text)`, with `new Date` as the parameter `value`. */
  function ParseResult(text: string, value: DateValue): ParsedChat {
    var lines := Lines(text);
    ChatOf(Fold(lines, |lines|, Formats), d => ToDate(value, d))
  }

  method ParseWhatsapp(text: string, value: DateValue) returns (chat: ParsedChat)
    ensures chat == ParseResult(text, value)
    ensures chat.NoMessages? <==> Headers(Lines(text), |Lines(text)|, Formats) == []
    ensures chat.Chat? ==> forall k :: 0 <= k < |chat.messages| ==>
                             chat.messages[k].sender != "" && ':' !in chat.messages[k].sender
  {
    var lines := Lines(text);
    var messages := ParseMessages(lines, Formats);
    FormatsAreValid();
    FoldValid(lines, |lines|, Formats);
    FoldCount(lines, |lines|, Formats);
    chat := ChatOf(messages, d => ToDate(value, d));
  }

  // ---------------------------------------------------------------------
  // End to end

  /** Bracketed lines, one per header. */
  function BracketedLines(hs: seq<Header>): (r: seq<string>)
    ensures |r| == |hs|
    ensures forall k :: 0 <= k < |hs| ==> r[k] == BracketedLine(hs[k])
  {
    seq(|hs|, k requires 0 <= k < |hs| => BracketedLine(hs[k]))
  }

  lemma NoBreakInHeader(h: Header, p: DateParts, clock: string, suffix: string)
    requires Writable(h, p, clock, suffix) && '\n' !in h.sender
    ensures '\n' !in BracketedLine(h)
    ensures BracketedLine(h) != [] && BracketedLine(h)[|BracketedLine(h)| - 1] != '\r'
  {
    assert !IsDigit('\n') && !IsClockChar('\n') && !IsMeridiemChar('\n');
    assert '\n' !in p.month && '\n' !in p.day && '\n' !in p.year;
    assert '\n' !in h.date;
    assert '\n' !in clock && '\n' !in suffix;
    assert '\n' !in h.time;
    assert '\n' !in h.text by {
      forall i | 0 <= i < |h.text| ensures h.text[i] != '\n' {
        assert !IsLineTerminator(h.text[i]);
      }
    }
    var line := BracketedLine(h);
    assert line == "[" + h.date + ", " + h.time + "] " + h.sender + ":" + (" " + h.text);
    assert line[|line| - 1] == (" " + h.text)[|h.text|];
    if h.text != [] {
      assert !IsLineTerminator(h.text[|h.text| - 1]);
    }
  }

  lemma {:induction false} NonEmptyKeeps(xs: seq<string>)
    requires forall k :: 0 <= k < |xs| ==> xs[k] != []
    ensures NonEmpty(xs) == xs
  {
    if xs != [] {
      NonEmptyKeeps(xs[..|xs| - 1]);
      assert xs[..|xs| - 1] + [xs[|xs| - 1]] == xs;
    }
  }

  /** The messages the headers start, in order. */
  function Starts(hs: seq<Header>): (r: seq<Message>)
    ensures |r| == |hs|
    ensures forall k :: 0 <= k < |hs| ==> r[k] == Start(hs[k])
  {
    if hs == [] then [] else Starts(hs[..|hs| - 1]) + [Start(hs[|hs| - 1])]
  }

  lemma StartsSnoc(hs: seq<Header>)
    requires hs != []
    ensures Starts(hs) == Starts(hs[..|hs| - 1]) + [Start(hs[|hs| - 1])]
  {
  }

  lemma {:induction false} ReadBackHeaders(xs: seq<string>, hs: seq<Header>, n: nat)
    requires n <= |xs| == |hs|
    requires forall k :: 0 <= k < |xs| ==> FirstMatch(Formats, xs[k]) == Some(hs[k])
    ensures Fold(xs, n, Formats) == Starts(hs[..n])
  {
    if n > 0 {
      ReadBackHeaders(xs, hs, n - 1);
      StepHeader(Fold(xs, n - 1, Formats), xs[n - 1], Formats, hs[n - 1]);
      assert hs[..n][..n - 1] == hs[..n - 1];
      StartsSnoc(hs[..n]);
    }
  }

  /** One written-out line holds no line break and is recognised by the
      first format. */
  lemma LineRoundTrip(line: string, h: Header, p: DateParts, clock: string, suffix: string)
    requires line == BracketedLine(h)
    requires Writable(h, p, clock, suffix) && '\n' !in h.sender
    ensures '\n' !in line && line != [] && line[|line| - 1] != '\r'
    ensures FirstMatch(Formats, line) == Some(h)
  {
    BracketedRoundTrip(h, p, clock, suffix);
    NoBreakInHeader(h, p, clock, suffix);
    FirstMatchAt(Formats, line, 0);
  }

  /** A transcript written one bracketed header per line is read back as
      exactly those messages, with trimmed texts. */
  lemma TranscriptRoundTrip(hs: seq<Header>, ps: seq<DateParts>, clocks: seq<string>, suffixes: seq<string>)
    requires |hs| >= 1 && |ps| == |clocks| == |suffixes| == |hs|
    requires forall k :: 0 <= k < |hs| ==> Writable(hs[k], ps[k], clocks[k], suffixes[k]) && '\n' !in hs[k].sender
    ensures Lines(Join(BracketedLines(hs), "\n")) == BracketedLines(hs)
    ensures Fold(BracketedLines(hs), |hs|, Formats) == Starts(hs)
  {
    var xs := BracketedLines(hs);
    EveryLineRoundTrip(xs, hs, ps, clocks, suffixes);
    LinesOfTranscript(xs);
    ReadBackAll(xs, hs);
  }

  lemma EveryLineRoundTrip(xs: seq<string>, hs: seq<Header>, ps: seq<DateParts>, clocks: seq<string>, suffixes: seq<string>)
    requires xs == BracketedLines(hs) && |ps| == |clocks| == |suffixes| == |hs|
    requires forall k :: 0 <= k < |hs| ==> Writable(hs[k], ps[k], clocks[k], suffixes[k]) && '\n' !in hs[k].sender
    ensures forall k :: 0 <= k < |xs| ==> '\n' !in xs[k] && xs[k] != [] && xs[k][|xs[k]| - 1] != '\r'
    ensures forall k :: 0 <= k < |xs| ==> FirstMatch(Formats, xs[k]) == Some(hs[k])
  {
    forall k | 0 <= k < |xs|
      ensures '\n' !in xs[k] && xs[k] != [] && xs[k][|xs[k]| - 1] != '\r'
      ensures FirstMatch(Formats, xs[k]) == Some(hs[k])
    {
      LineRoundTrip(xs[k], hs[k], ps[k], clocks[k], suffixes[k]);
    }
  }

  lemma LinesOfTranscript(xs: seq<string>)
    requires |xs| >= 1
    requires forall k :: 0 <= k < |xs| ==> '\n' !in xs[k] && xs[k] != [] && xs[k][|xs[k]| - 1] != '\r'
    ensures Lines(Join(xs, "\n")) == xs
  {
    RawLinesOfJoin(xs);
    NonEmptyKeeps(xs);
  }

  lemma ReadBackAll(xs: seq<string>, hs: seq<Header>)
    requires |xs| == |hs|
    requires forall k :: 0 <= k < |xs| ==> FirstMatch(Formats, xs[k]) == Some(hs[k])
    ensures Fold(xs, |xs|, Formats) == Starts(hs)
  {
    ReadBackHeaders(xs, hs, |hs|);
    assert hs[..|hs|] == hs;
  }
}
