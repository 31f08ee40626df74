/** Waiting for a pattern: logical-line matching over output that arrives in arbitrary pages. */
module MatchLines {
  import opened Bytes
  import opened Utf8

  const MATCH_LINE_BYTES: nat := 1024 * 1024

  type Pattern = seq<byte> -> bool

  datatype Outcome =
    | Matched
    | Unmatched(line: seq<byte>)  // the unfinished line kept for the next page
    | LineTooLong

  // ----- the specification: the logical lines of a whole stream -----

  /** The finished lines of a stream, without their newlines. */
  function FinishedLines(s: seq<byte>): (r: seq<seq<byte>>) {
    var n := NewlineIndex(s);
    if n == |s| then [] else [s[..n]] + FinishedLines(s[n + 1..])
  }

  /** What follows the last newline; may be empty. */
  function UnfinishedLine(s: seq<byte>): (r: seq<byte>) {
    var n := NewlineIndex(s);
    if n == |s| then s else UnfinishedLine(s[n + 1..])
  }

  predicate AnyMatches(pattern: Pattern, lines: seq<seq<byte>>) {
    lines != [] && (pattern(Lossy(lines[0])) || AnyMatches(pattern, lines[1..]))
  }

  lemma {:induction false} AnyMatchesIff(pattern: Pattern, lines: seq<seq<byte>>)
    ensures AnyMatches(pattern, lines) <==> exists line <- lines :: pattern(Lossy(line))
  {
    if lines != [] {
      AnyMatchesIff(pattern, lines[1..]);
      assert lines == [lines[0]] + lines[1..];
      assert lines[0] in lines && forall line :: line in lines[1..] ==> line in lines;
    }
  }

  /** No line of the stream, finished or not, exceeds the limit. */
  predicate LinesFit(s: seq<byte>) {
    var n := NewlineIndex(s);
    n <= MATCH_LINE_BYTES && (n < |s| ==> LinesFit(s[n + 1..]))
  }

  function Ended(lines: seq<seq<byte>>): (s: seq<byte>) {
    if lines == [] then [] else lines[0] + [NEWLINE] + Ended(lines[1..])
  }

  /** The lines make up the stream: every newline ends one, and nothing is dropped. */
  lemma {:induction false} LinesMakeUpStream(s: seq<byte>)
    ensures Ended(FinishedLines(s)) + UnfinishedLine(s) == s && NoNewline(UnfinishedLine(s))
    ensures NoNewlines(FinishedLines(s))
    ensures LinesFit(s) <==>
      |UnfinishedLine(s)| <= MATCH_LINE_BYTES && LinesShort(FinishedLines(s))
    decreases |s|
  {
    hide FinishedLines, UnfinishedLine, LinesFit, Ended, LinesShort, NoNewline, NoNewlines;
    var n := NewlineIndex(s);
    if n == |s| {
      OnlyLine(s);
    } else {
      FirstLineApart(s, n);
      var line, rest := s[..n], s[n + 1..];
      LinesMakeUpStream(rest);
      PrependLine(line, FinishedLines(rest), FinishedLines(s), UnfinishedLine(rest));
    }
  }

  lemma OnlyLine(s: seq<byte>)
    requires NewlineIndex(s) == |s|
    ensures FinishedLines(s) == [] && UnfinishedLine(s) == s && NoNewline(s)
    ensures Ended([]) == [] && NoNewlines([]) && LinesShort([])
    ensures LinesFit(s) <==> |s| <= MATCH_LINE_BYTES
  {
    hide NewlineFrom;
  }

  lemma FirstLineApart(s: seq<byte>, n: nat)
    requires n == NewlineIndex(s) < |s|
    ensures s == s[..n] + [NEWLINE] + s[n + 1..] && NoNewline(s[..n])
    ensures FinishedLines(s) == [s[..n]] + FinishedLines(s[n + 1..])
    ensures UnfinishedLine(s) == UnfinishedLine(s[n + 1..])
    ensures LinesFit(s) <==> |s[..n]| <= MATCH_LINE_BYTES && LinesFit(s[n + 1..])
  {
    FirstLineCut(s, n);
    hide NewlineIndex;
  }

  lemma FirstLineCut(s: seq<byte>, n: nat)
    requires n == NewlineIndex(s) < |s|
    ensures s == s[..n] + [NEWLINE] + s[n + 1..] && NoNewline(s[..n])
  {}

  lemma PrependLine(line: seq<byte>, more: seq<seq<byte>>, lines: seq<seq<byte>>, tail: seq<byte>)
    requires lines == [line] + more
    ensures Ended(lines) + tail == line + [NEWLINE] + (Ended(more) + tail)
    ensures LinesShort(lines) <==> |line| <= MATCH_LINE_BYTES && LinesShort(more)
    ensures NoNewline(line) && NoNewlines(more) ==> NoNewlines(lines)
  {
    assert lines[0] == line && lines[1..] == more;
    assert forall i :: 0 <= i < |more| ==> lines[i + 1] == more[i];
    assert forall i :: 1 <= i < |lines| ==> lines[i] == more[i - 1];
    ConcatAssoc(line + [NEWLINE], Ended(more), tail);
  }

  predicate NoNewlines(lines: seq<seq<byte>>) {
    forall i :: 0 <= i < |lines| ==> NoNewline(lines[i])
  }

  predicate LinesShort(lines: seq<seq<byte>>) {
    forall i :: 0 <= i < |lines| ==> |lines[i]| <= MATCH_LINE_BYTES
  }

  // ----- one page -----

  /** The text that one part of a page shows to the pattern. */
  function Observed(line: seq<byte>, complete: bool): (text: seq<byte>) {
    if complete then Lossy(line) else SettledText(line)
  }

  function ScanPage(pattern: Pattern, line: seq<byte>, data: seq<byte>): (o: Outcome)
    decreases |data|
  {
    if data == [] then Unmatched(line)
    else
      var n := NewlineIndex(data);
      var line' := line + data[..n];
      if |line'| > MATCH_LINE_BYTES then LineTooLong
      else if pattern(Observed(line', n < |data|)) then Matched
      else if n < |data| then ScanPage(pattern, [], data[n + 1..])
      else Unmatched(line')
  }

  /** The loop over the parts of one page, with the retained line as its state. */
  method MatchPage(pattern: Pattern, line: seq<byte>, data: seq<byte>) returns (o: Outcome)
    ensures o == ScanPage(pattern, line, data)
  {
    var current := line;
    var rest := data;
    while rest != []
      invariant ScanPage(pattern, line, data) == ScanPage(pattern, current, rest)
      decreases |rest|
    {
      var n := NewlineIndex(rest);
      var complete := n < |rest|;
      var payload := rest[..n];
      if |current| + |payload| > MATCH_LINE_BYTES {
        return LineTooLong;
      }
      current := current + payload;
      var observed := current;
      if !complete {
        observed := CompleteUtf8Prefix(current);
      }
      LossyOfDecidedPrefix(current);
      if pattern(Lossy(observed)) {
        return Matched;
      }
      if complete {
        current, rest := [], rest[n + 1..];
      } else {
        rest := [];
      }
    }
    o := Unmatched(current);
  }

  // ----- what one page decides, in terms of the lines of the stream -----

  /** The unfinished line is shown to the pattern only when the page ends inside it. */
  predicate TailMatches(pattern: Pattern, data: seq<byte>, tail: seq<byte>) {
    data != [] && data[|data| - 1] != NEWLINE && pattern(SettledText(tail))
  }

  /** The answer of one page `data` that ends the stream `s`. */
  function PageAnswer(pattern: Pattern, s: seq<byte>, data: seq<byte>): (o: Outcome) {
    if AnyMatches(pattern, FinishedLines(s)) || TailMatches(pattern, data, UnfinishedLine(s))
    then Matched
    else Unmatched(UnfinishedLine(s))
  }

  /** A stream that starts inside `line`: where its first finished line ends. */
  lemma FirstLine(line: seq<byte>, data: seq<byte>, s: seq<byte>)
    requires NoNewline(line) && s == line + data
    ensures NewlineIndex(s) == |line| + NewlineIndex(data)
    ensures s[..NewlineIndex(s)] == line + data[..NewlineIndex(data)]
    ensures NewlineIndex(data) < |data| ==> s[NewlineIndex(s) + 1..] == data[NewlineIndex(data) + 1..]
  {
    var n, m := NewlineIndex(data), NewlineIndex(s);
    assert |line| <= m < |s| ==> s[m] == data[m - |line|];
    assert n < |data| ==> s[|line| + n] == data[n];
  }

  lemma {:induction false} PageDecides(pattern: Pattern, line: seq<byte>, data: seq<byte>, s: seq<byte>)
    requires NoNewline(line) && s == line + data
    requires LinesFit(s)
    ensures ScanPage(pattern, line, data) == PageAnswer(pattern, s, data)
    decreases |data|
  {
    var n := NewlineIndex(data);
    FirstLine(line, data, s);
    if data == [] {
      assert s == line;
    } else if n == |data| {
      assert data[..n] == data;
    } else {
      var line', rest := line + data[..n], data[n + 1..];
      PageDecides(pattern, [], rest, rest);
      UnfoldFirstLine(line, data, s, line', rest);
      AnswerStep(pattern, line', rest, data, s);
    }
  }

  lemma UnfoldFirstLine(line: seq<byte>, data: seq<byte>, s: seq<byte>, line': seq<byte>, rest: seq<byte>)
    requires NoNewline(line) && s == line + data && NewlineIndex(data) < |data|
    requires line' == line + data[..NewlineIndex(data)] && rest == data[NewlineIndex(data) + 1..]
    ensures FinishedLines(s) == [line'] + FinishedLines(rest)
    ensures UnfinishedLine(s) == UnfinishedLine(rest)
  {
    FirstLine(line, data, s);
    assert s[..NewlineIndex(s)] == line' && s[NewlineIndex(s) + 1..] == rest;
  }

  /** The first finished line of a page either decides the answer or leaves it to the rest. */
  lemma AnswerStep(pattern: Pattern, line': seq<byte>, rest: seq<byte>, data: seq<byte>, s: seq<byte>)
    requires NewlineIndex(data) < |data| && rest == data[NewlineIndex(data) + 1..]
    requires FinishedLines(s) == [line'] + FinishedLines(rest) && UnfinishedLine(s) == UnfinishedLine(rest)
    ensures PageAnswer(pattern, s, data) ==
      if pattern(Lossy(line')) then Matched else PageAnswer(pattern, rest, rest)
  {
    hide Lossy, SettledText, FinishedLines, UnfinishedLine, AnyMatches;
    AnyMatchesCons(pattern, line', FinishedLines(rest), FinishedLines(s));
    assert rest != [] ==> rest[|rest| - 1] == data[|data| - 1];
  }

  lemma AnyMatchesCons(pattern: Pattern, head: seq<byte>, tail: seq<seq<byte>>, lines: seq<seq<byte>>)
    requires lines == [head] + tail
    ensures AnyMatches(pattern, lines) <==> pattern(Lossy(head)) || AnyMatches(pattern, tail)
  {
    assert lines[1..] == tail;
  }

  /** After a page that ends in a newline nothing is pending; after an empty page nothing changed. */
  lemma {:induction false} UnfinishedAfterPage(line: seq<byte>, data: seq<byte>, s: seq<byte>)
    requires NoNewline(line) && s == line + data
    ensures NoNewline(UnfinishedLine(s))
    ensures data == [] ==> UnfinishedLine(s) == line && FinishedLines(s) == []
    ensures data != [] ==> (UnfinishedLine(s) == [] <==> data[|data| - 1] == NEWLINE)
    decreases |data|
  {
    FirstLine(line, data, s);
    var n := NewlineIndex(data);
    if n < |data| {
      var rest := data[n + 1..];
      UnfinishedAfterPage([], rest, rest);
    }
  }

  // ----- any number of pages -----

  function ScanPages(pattern: Pattern, line: seq<byte>, pages: seq<seq<byte>>): (o: Outcome)
    decreases |pages|
  {
    if pages == [] then Unmatched(line)
    else
      match ScanPage(pattern, line, pages[0])
      case Unmatched(line') => ScanPages(pattern, line', pages[1..])
      case decided => decided
  }

  lemma SameFirstLine(s: seq<byte>, more: seq<byte>, whole: seq<byte>)
    requires whole == s + more && NewlineIndex(s) < |s|
    ensures NewlineIndex(whole) == NewlineIndex(s)
    ensures whole[NewlineIndex(s) + 1..] == s[NewlineIndex(s) + 1..] + more
    ensures whole[..NewlineIndex(s)] == s[..NewlineIndex(s)]
  {
    assert forall i :: 0 <= i < |s| ==> whole[i] == s[i];
  }

  /** A prefix of the stream contributes its finished lines; its unfinished line is continued. */
  lemma {:induction false} LinesOfConcat(s: seq<byte>, more: seq<byte>, whole: seq<byte>, tail: seq<byte>)
    requires whole == s + more && tail == UnfinishedLine(s) + more
    ensures FinishedLines(whole) == FinishedLines(s) + FinishedLines(tail)
    ensures UnfinishedLine(whole) == UnfinishedLine(tail)
    ensures LinesFit(whole) <==> LinesFit(s) && LinesFit(tail)
    decreases |s|
  {
    var n := NewlineIndex(s);
    if n < |s| {
      var rest, rest' := s[n + 1..], whole[n + 1..];
      SameFirstLine(s, more, whole);
      LinesOfConcat(rest, more, rest', tail);
      ConcatAssoc([s[..n]], FinishedLines(rest), FinishedLines(tail));
    } else {
      FirstLine(s, more, whole);
    }
  }

  lemma {:induction false} AnyMatchesConcat(pattern: Pattern, a: seq<seq<byte>>, b: seq<seq<byte>>)
    ensures AnyMatches(pattern, a + b) <==> AnyMatches(pattern, a) || AnyMatches(pattern, b)
  {
    if a == [] {
      assert a + b == b;
    } else {
      AnyMatchesConcat(pattern, a[1..], b);
      assert (a + b)[1..] == a[1..] + b;
    }
  }

  /** One page and the rest of the stream. */
  lemma PageThenRest(pattern: Pattern, line: seq<byte>, pages: seq<seq<byte>>, whole: seq<byte>)
    returns (s: seq<byte>, rest: seq<byte>)
    requires pages != [] && whole == line + Flatten(pages)
    requires NoNewline(line) && LinesFit(whole)
    ensures s == line + pages[0] && rest == UnfinishedLine(s) + Flatten(pages[1..])
    ensures ScanPage(pattern, line, pages[0]) == PageAnswer(pattern, s, pages[0])
    ensures AnyMatches(pattern, FinishedLines(whole)) <==>
      AnyMatches(pattern, FinishedLines(s)) || AnyMatches(pattern, FinishedLines(rest))
    ensures UnfinishedLine(whole) == UnfinishedLine(rest) && LinesFit(rest)
    ensures NoNewline(UnfinishedLine(s))
    ensures pages[0] == [] ==> UnfinishedLine(s) == line && FinishedLines(s) == []
    ensures pages[0] != [] ==> (UnfinishedLine(s) == [] <==> pages[0][|pages[0]| - 1] == NEWLINE)
  {
    s := line + pages[0];
    rest := UnfinishedLine(s) + Flatten(pages[1..]);
    ConcatAssoc(line, pages[0], Flatten(pages[1..]));
    LinesOfConcat(s, Flatten(pages[1..]), whole, rest);
    PageDecides(pattern, line, pages[0], s);
    AnyMatchesConcat(pattern, FinishedLines(s), FinishedLines(rest));
    UnfinishedAfterPage(line, pages[0], s);
  }

  /** Whatever the pattern and the cut, a finished line that matches is found. */
  lemma {:induction false} FinishedLineIsFound(
    pattern: Pattern, line: seq<byte>, pages: seq<seq<byte>>, whole: seq<byte>)
    requires NoNewline(line) && whole == line + Flatten(pages)
    requires LinesFit(whole)
    requires AnyMatches(pattern, FinishedLines(whole))
    ensures ScanPages(pattern, line, pages) == Matched
    decreases |pages|
  {
    if pages == [] {
      UnfinishedAfterPage(line, [], whole);
    } else {
      var s, rest := PageThenRest(pattern, line, pages, whole);
      if ScanPage(pattern, line, pages[0]).Unmatched? {
        FinishedLineIsFound(pattern, UnfinishedLine(s), pages[1..], rest);
      }
    }
  }

  /** A stream whose lines fit never ends in the size error, whatever the pattern and the cut. */
  lemma {:induction false} FittingStreamIsAnswered(
    pattern: Pattern, line: seq<byte>, pages: seq<seq<byte>>, whole: seq<byte>)
    requires NoNewline(line) && whole == line + Flatten(pages)
    requires LinesFit(whole)
    ensures ScanPages(pattern, line, pages) != LineTooLong
    decreases |pages|
  {
    if pages != [] {
      var s, rest := PageThenRest(pattern, line, pages, whole);
      if ScanPage(pattern, line, pages[0]).Unmatched? {
        FittingStreamIsAnswered(pattern, UnfinishedLine(s), pages[1..], rest);
      }
    }
  }

  /** A page that leaves no answer has only lines within the limit, and keeps the unfinished one. */
  lemma {:induction false} UnansweredPageFits(pattern: Pattern, line: seq<byte>, data: seq<byte>, s: seq<byte>)
    requires NoNewline(line) && |line| <= MATCH_LINE_BYTES && s == line + data
    requires ScanPage(pattern, line, data).Unmatched?
    ensures LinesFit(s) && ScanPage(pattern, line, data).line == UnfinishedLine(s)
    ensures NoNewline(UnfinishedLine(s)) && |UnfinishedLine(s)| <= MATCH_LINE_BYTES
    decreases |data|
  {
    hide Observed, NewlineIndex;
    var n := NewlineIndex(data);
    FirstLine(line, data, s);
    if data == [] {
      assert s == line;
    } else if n == |data| {
      assert data[..n] == data;
    } else {
      var rest := data[n + 1..];
      UnansweredPageFits(pattern, [], rest, rest);
    }
  }

  /**
    * The size limit, whatever the pattern and the cut: a scan that ends without an answer has
    * seen no line over the limit, so an overlong line always ends in a match or in the error.
    */
  lemma {:induction false} UnansweredScanFits(
    pattern: Pattern, line: seq<byte>, pages: seq<seq<byte>>, whole: seq<byte>)
    requires NoNewline(line) && |line| <= MATCH_LINE_BYTES && whole == line + Flatten(pages)
    requires ScanPages(pattern, line, pages).Unmatched?
    ensures LinesFit(whole)
    decreases |pages|
  {
    if pages == [] {
      FirstLine(line, [], whole);
    } else {
      var s, more := line + pages[0], Flatten(pages[1..]);
      UnansweredPageFits(pattern, line, pages[0], s);
      var tail := UnfinishedLine(s);
      UnansweredScanFits(pattern, tail, pages[1..], tail + more);
      ConcatAssoc(line, pages[0], more);
      LinesOfConcat(s, more, whole, tail + more);
    }
  }

  /** A pattern without an end anchor: once it matches, it matches every longer text. */
  ghost predicate ExtensionClosed(pattern: Pattern) {
    forall text: seq<byte>, more: seq<byte> :: pattern(text) ==> pattern(text + more)
  }

  /**
    * A pattern that never takes back what it said about a line in progress, as far as lines of at
    * most `limit` bytes can show: what matched stays matched while the line grows and when it ends.
    */
  ghost predicate Steady(pattern: Pattern, limit: nat) {
    forall line: seq<byte>, more: seq<byte> :: StaysMatched(pattern, line, more, limit)
  }

  ghost predicate StaysMatched(pattern: Pattern, line: seq<byte>, more: seq<byte>, limit: nat) {
    line != [] && NoNewline(line) && NoNewline(more) && |line| + |more| <= limit && pattern(SettledText(line)) ==>
      pattern(SettledText(line + more)) && pattern(Lossy(line + more))
  }

  /** Patterns without an end anchor are steady. */
  lemma ClosedIsSteady(pattern: Pattern, limit: nat)
    requires ExtensionClosed(pattern)
    ensures Steady(pattern, limit)
  {
    forall line: seq<byte>, more: seq<byte> ensures StaysMatched(pattern, line, more, limit) {
      if pattern(SettledText(line)) {
        SettledTextGrows(line, more);
        ExtensionMatches(pattern, SettledText(line), SettledText(line + more));
        ExtensionMatches(pattern, SettledText(line), Lossy(line + more));
      }
    }
  }

  /** The answer as a property of the stream alone. */
  predicate StreamMatches(pattern: Pattern, s: seq<byte>) {
    || AnyMatches(pattern, FinishedLines(s))
    || (UnfinishedLine(s) != [] && pattern(SettledText(UnfinishedLine(s))))
  }

  function StreamAnswer(pattern: Pattern, s: seq<byte>): (o: Outcome) {
    if StreamMatches(pattern, s) then Matched else Unmatched(UnfinishedLine(s))
  }

  lemma ExtensionMatches(pattern: Pattern, text: seq<byte>, longer: seq<byte>)
    requires ExtensionClosed(pattern) && pattern(text) && text <= longer
    ensures pattern(longer)
  {
    assert longer == text + longer[|text|..];
  }

  /** A match on an unfinished line survives whatever the stream goes on with. */
  lemma TailMatchSurvives(pattern: Pattern, line: seq<byte>, more: seq<byte>, s: seq<byte>, limit: nat)
    requires Steady(pattern, limit) && NewlineIndex(s) <= limit
    requires NoNewline(line) && line != [] && pattern(SettledText(line))
    requires s == line + more
    ensures StreamMatches(pattern, s)
  {
    hide SettledText, Lossy;
    var n := NewlineIndex(more);
    FirstLine(line, more, s);
    var whole := line + more[..n];
    assert StaysMatched(pattern, line, more[..n], limit);
    if n < |more| {
      assert FinishedLines(s)[0] == whole;
    } else {
      assert whole == s;
      MatchInProgress(pattern, s);
    }
  }

  /** So does any match, if the lines fit: the answer of a stream is never taken back. */
  lemma StreamMatchSurvives(pattern: Pattern, s: seq<byte>, more: seq<byte>, whole: seq<byte>, limit: nat)
    requires Steady(pattern, limit) && StreamMatches(pattern, s) && whole == s + more
    requires |whole| <= limit || (LinesFit(whole) && limit == MATCH_LINE_BYTES)
    ensures StreamMatches(pattern, whole)
  {
    hide SettledText, Lossy;
    var tail := UnfinishedLine(s);
    LinesOfConcat(s, more, whole, tail + more);
    AnyMatchesConcat(pattern, FinishedLines(s), FinishedLines(tail + more));
    if !AnyMatches(pattern, FinishedLines(s)) {
      UnfinishedAfterPage([], s, s);
      UnfinishedIsShort(s);
      TailMatchSurvives(pattern, tail, more, tail + more, limit);
    }
  }

  lemma {:induction false} UnfinishedIsShort(s: seq<byte>)
    ensures |UnfinishedLine(s)| <= |s|
  {
    var n := NewlineIndex(s);
    if n < |s| {
      UnfinishedIsShort(s[n + 1..]);
    }
  }

  lemma MatchAfterLine(pattern: Pattern, line: seq<byte>, rest: seq<byte>, s: seq<byte>)
    requires NoNewline(line) && s == line + [NEWLINE] + rest
    requires pattern(Lossy(line)) || StreamMatches(pattern, rest)
    ensures StreamMatches(pattern, s)
  {
    hide Lossy, SettledText;
    var data := [NEWLINE] + rest;
    assert s == line + data;
    assert data[0] == NEWLINE && data[1..] == rest && data[..0] == [];
    UnfoldFirstLine(line, data, s, line, rest);
    AnyMatchesCons(pattern, line, FinishedLines(rest), FinishedLines(s));
  }

  lemma MatchInProgress(pattern: Pattern, s: seq<byte>)
    requires NoNewline(s) && s != [] && pattern(SettledText(s))
    ensures StreamMatches(pattern, s)
  {
    hide Lossy, SettledText;
    assert NewlineIndex(s) == |s|;
  }

  lemma PrefixAfterLine(line: seq<byte>, data: seq<byte>, s: seq<byte>, n: nat, e: nat)
    requires s == line + data && n < |data| && data[n] == NEWLINE && e <= |data| - n - 1
    ensures s[..|line| + n + 1 + e] == line + data[..n] + [NEWLINE] + data[n + 1..][..e]
  {
  }

  /** A page that matches has reached a point of the stream that matches, whatever the pattern. */
  lemma {:induction false} PageMatchIsReal(pattern: Pattern, line: seq<byte>, data: seq<byte>, s: seq<byte>)
    returns (end: nat)
    requires NoNewline(line) && s == line + data && ScanPage(pattern, line, data) == Matched
    ensures end <= |s| && StreamMatches(pattern, s[..end])
    decreases |data|
  {
    hide Lossy, SettledText, StreamMatches;
    var n := NewlineIndex(data);
    var line' := line + data[..n];
    if n == |data| {
      assert data[..n] == data && s[..|s|] == s;
      MatchInProgress(pattern, s);
      end := |s|;
    } else {
      var rest := data[n + 1..];
      var e := 0;
      if !pattern(Lossy(line')) {
        e := PageMatchIsReal(pattern, [], rest, rest);
      }
      end := |line| + n + 1 + e;
      PrefixAfterLine(line, data, s, n, e);
      MatchAfterLine(pattern, line', rest[..e], s[..end]);
    }
  }

  /** Soundness of any scan: a reported match is one that the stream showed at some point. */
  lemma {:induction false} MatchIsReal(
    pattern: Pattern, line: seq<byte>, pages: seq<seq<byte>>, whole: seq<byte>) returns (end: nat)
    requires NoNewline(line) && whole == line + Flatten(pages)
    requires ScanPages(pattern, line, pages) == Matched
    ensures end <= |whole| && StreamMatches(pattern, whole[..end])
    decreases |pages|
  {
    hide ScanPage, StreamMatches;
    var s, more := line + pages[0], Flatten(pages[1..]);
    ConcatAssoc(line, pages[0], more);
    if ScanPage(pattern, line, pages[0]) == Matched {
      end := PageMatchIsReal(pattern, line, pages[0], s);
      assert whole[..end] == s[..end];
    } else {
      var tail := ScanPage(pattern, line, pages[0]).line;
      var head := RetainedLine(pattern, line, pages[0], s);
      var rest := tail + more;
      ConcatAssoc(head, tail, more);
      var e := MatchIsReal(pattern, tail, pages[1..], rest);
      end := |head| + e;
      PrefixOfConcat(head, rest, whole, e);
      MatchAfterLines(pattern, head, rest[..e], whole[..end]);
    }
  }

  lemma PrefixOfConcat(head: seq<byte>, rest: seq<byte>, whole: seq<byte>, e: nat)
    requires whole == head + rest && e <= |rest|
    ensures whole[..|head| + e] == head + rest[..e]
  {
  }

  /** Whole lines in front of a stream keep its matches. */
  lemma {:induction false} MatchAfterLines(pattern: Pattern, head: seq<byte>, rest: seq<byte>, s: seq<byte>)
    requires s == head + rest && (head == [] || head[|head| - 1] == NEWLINE)
    requires StreamMatches(pattern, rest)
    ensures StreamMatches(pattern, s)
    decreases |head|
  {
    hide Lossy, SettledText, StreamMatches;
    if head == [] {
      assert s == rest;
    } else {
      var n := NewlineIndex(head);
      var line, head' := head[..n], head[n + 1..];
      assert head == line + [NEWLINE] + head';
      MatchAfterLines(pattern, head', rest, head' + rest);
      ConcatAssoc(line + [NEWLINE], head', rest);
      MatchAfterLine(pattern, line, head' + rest, s);
    }
  }

  /** What a page leaves for the next one is the end of the stream, cut after a newline. */
  lemma {:induction false} RetainedLine(pattern: Pattern, line: seq<byte>, data: seq<byte>, s: seq<byte>)
    returns (head: seq<byte>)
    requires NoNewline(line) && s == line + data && ScanPage(pattern, line, data).Unmatched?
    ensures s == head + ScanPage(pattern, line, data).line && NoNewline(ScanPage(pattern, line, data).line)
    ensures head == [] || head[|head| - 1] == NEWLINE
    decreases |data|
  {
    hide Lossy, SettledText;
    head := [];
    var n := NewlineIndex(data);
    if data == [] {
      assert s == line;
    } else if n == |data| {
      assert data[..n] == data;
    } else {
      var rest := data[n + 1..];
      var h := RetainedLine(pattern, [], rest, rest);
      head := line + data[..n + 1] + h;
      JoinAround(line, data, n, h, ScanPage(pattern, [], rest).line);
    }
  }

  lemma JoinAround(line: seq<byte>, data: seq<byte>, n: nat, h: seq<byte>, tail: seq<byte>)
    requires n < |data| && data[n] == NEWLINE && data[n + 1..] == h + tail
    requires h == [] || h[|h| - 1] == NEWLINE
    ensures line + data == line + data[..n + 1] + h + tail
    ensures var head := line + data[..n + 1] + h; head[|head| - 1] == NEWLINE
  {
    assert data == data[..n + 1] + data[n + 1..];
    ConcatAssoc(line + data[..n + 1], h, tail);
    ConcatAssoc(line, data[..n + 1], h + tail);
  }

  /** Page independence: the outcome of any cut is a function of the stream alone. */
  lemma {:induction false} CutDoesNotMatter(
    pattern: Pattern, line: seq<byte>, pages: seq<seq<byte>>, whole: seq<byte>)
    requires Steady(pattern, MATCH_LINE_BYTES)
    requires NoNewline(line) && (line == [] || !pattern(SettledText(line)))
    requires whole == line + Flatten(pages) && LinesFit(whole)
    ensures ScanPages(pattern, line, pages) == StreamAnswer(pattern, whole)
    decreases |pages|
  {
    if pages == [] {
      UnfinishedAfterPage(line, [], whole);
    } else {
      var s, rest := PageThenRest(pattern, line, pages, whole);
      var tail := UnfinishedLine(s);
      if AnyMatches(pattern, FinishedLines(s)) {
      } else if TailMatches(pattern, pages[0], tail) {
        TailMatchSurvives(pattern, tail, Flatten(pages[1..]), rest, MATCH_LINE_BYTES);
      } else {
        CutDoesNotMatter(pattern, tail, pages[1..], rest);
      }
    }
  }

  /** Every cut of every stream whose lines fit gives the same outcome. */
  ghost predicate PageIndependent(pattern: Pattern) {
    forall pages: seq<seq<byte>>, pages': seq<seq<byte>> :: SameAnswer(pattern, pages, pages')
  }

  ghost predicate SameAnswer(pattern: Pattern, pages: seq<seq<byte>>, pages': seq<seq<byte>>) {
    Flatten(pages) == Flatten(pages') && LinesFit(Flatten(pages)) ==>
      ScanPages(pattern, [], pages) == ScanPages(pattern, [], pages')
  }

  /** Page independence holds for the steady patterns and for no others. */
  lemma PageIndependentIffSteady(pattern: Pattern)
    ensures PageIndependent(pattern) <==> Steady(pattern, MATCH_LINE_BYTES)
  {
    hide ScanPages, LinesFit, StaysMatched;
    if Steady(pattern, MATCH_LINE_BYTES) {
      forall pages: seq<seq<byte>>, pages': seq<seq<byte>> ensures SameAnswer(pattern, pages, pages') {
        var s := Flatten(pages);
        if s == Flatten(pages') && LinesFit(s) {
          CutDoesNotMatter(pattern, [], pages, s);
          CutDoesNotMatter(pattern, [], pages', s);
        }
      }
    }
    if PageIndependent(pattern) {
      forall line: seq<byte>, more: seq<byte> ensures StaysMatched(pattern, line, more, MATCH_LINE_BYTES) {
        IndependentStaysMatched(pattern, line, more);
      }
    }
  }

  lemma IndependentStaysMatched(pattern: Pattern, line: seq<byte>, more: seq<byte>)
    requires PageIndependent(pattern)
    ensures StaysMatched(pattern, line, more, MATCH_LINE_BYTES)
  {
    hide SettledText, Lossy, ScanPages;
    if line != [] && NoNewline(line) && NoNewline(more) && |line| + |more| <= MATCH_LINE_BYTES
       && pattern(SettledText(line)) {
      TwoCuts(pattern, line, more);
      var ended := more + [NEWLINE];
      TwoCutsAgree(line, more);
      TwoCutsAgree(line, ended);
      assert line + ended == line + more + [NEWLINE];
      assert SameAnswer(pattern, [line, more], [line + more]);
      assert SameAnswer(pattern, [line, ended], [line + ended]);
    }
  }

  lemma TwoCutsAgree(a: seq<byte>, b: seq<byte>)
    ensures Flatten([a, b]) == a + b && Flatten([a + b]) == a + b
  {
    assert [a, b][1..] == [b] && [b][1..] == [] && [a + b][1..] == [];
    assert Flatten([b]) == b + Flatten([]);
    assert Flatten([a + b]) == (a + b) + Flatten([]);
  }

  /**
    * Where a line in progress matches, a page that ends there answers at once; read in one piece,
    * only the text at the end of the page counts.
    */
  lemma TwoCuts(pattern: Pattern, line: seq<byte>, more: seq<byte>)
    requires line != [] && NoNewline(line) && NoNewline(more) && |line| + |more| <= MATCH_LINE_BYTES
    requires pattern(SettledText(line))
    ensures ScanPages(pattern, [], [line, more]) == Matched
    ensures ScanPages(pattern, [], [line, more + [NEWLINE]]) == Matched
    ensures ScanPages(pattern, [], [line + more]) ==
      if pattern(SettledText(line + more)) then Matched else Unmatched(line + more)
    ensures ScanPages(pattern, [], [line + more + [NEWLINE]]) ==
      if pattern(Lossy(line + more)) then Matched else Unmatched([])
    ensures LinesFit(line + more) && LinesFit(line + more + [NEWLINE])
  {
    hide SettledText, Lossy;
    LineInProgress(pattern, line);
    LineInProgress(pattern, line + more);
    OneFinishedLine(pattern, line + more, line + more + [NEWLINE]);
  }

  lemma LineInProgress(pattern: Pattern, line: seq<byte>)
    requires line != [] && NoNewline(line) && |line| <= MATCH_LINE_BYTES
    ensures LinesFit(line)
    ensures ScanPage(pattern, [], line) == if pattern(SettledText(line)) then Matched else Unmatched(line)
    ensures ScanPages(pattern, [], [line]) == ScanPage(pattern, [], line)
  {
    hide SettledText, Lossy;
    assert NewlineIndex(line) == |line| && [] + line[..|line|] == line;
    assert [line][1..] == [];
  }

  /** A pattern for empty lines is answered early when a page ends inside the first character. */
  lemma EmptyLinePatternIsNotSteady(pattern: Pattern)
    requires forall text: seq<byte> :: pattern(text) <==> text == []
    ensures !PageIndependent(pattern)
    ensures ScanPages(pattern, [], [[0xC3], [0xA9, NEWLINE]]) == Matched
    ensures ScanPages(pattern, [], [[0xC3, 0xA9, NEWLINE]]) == Unmatched([])
  {
    var line, more := [0xC3], [0xA9];
    assert First(line).Incomplete? && SettledText(line) == [];
    assert First(line + more) == Scalar(2);
    assert Lossy(line + more) == (line + more)[..2] + Lossy((line + more)[2..]);
    TwoCuts(pattern, line, more);
    assert more + [NEWLINE] == [0xA9, NEWLINE] && line + more + [NEWLINE] == [0xC3, 0xA9, NEWLINE];
    assert !StaysMatched(pattern, line, more, MATCH_LINE_BYTES);
    PageIndependentIffSteady(pattern);
  }

  lemma OneFinishedLine(pattern: Pattern, line: seq<byte>, page: seq<byte>)
    requires NoNewline(line) && |line| <= MATCH_LINE_BYTES && page == line + [NEWLINE]
    ensures LinesFit(page)
    ensures ScanPages(pattern, [], [page]) == if pattern(Lossy(line)) then Matched else Unmatched([])
  {
    hide SettledText, Lossy;
    FirstLine(line, [NEWLINE], page);
    var n := NewlineIndex(page);
    assert [] + page[..n] == line && page[n + 1..] == [];
    assert ScanPage(pattern, [], []) == Unmatched([]);
    assert [page][1..] == [];
  }
}
