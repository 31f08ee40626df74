/** Waiting for a pattern while the session writes and may restart: only the pinned stream is searched. */
module MatchScan {
  import opened Bytes
  import opened Utf8
  import opened MatchLines
  import opened LogCursor
  import opened LogExport

  const MATCH_PAGE_BYTES: nat := 256 * 1024

  datatype ScanResult = Found | NotYet | Overlong | Failure(why: Trouble)

  /** The outcome of matching as a result of the scan. */
  function ResultOf(o: Outcome): (r: ScanResult) {
    match o
    case Matched => Found
    case Unmatched(_) => NotYet
    case LineTooLong => Overlong
  }

  /** The output `from..to` of one incarnation's stream. */
  ghost predicate Piece(w: World, incarnation: nat, from: nat, to: nat, data: seq<byte>) {
    && incarnation in w.streams && from <= to <= |w.streams[incarnation]|
    && data == w.streams[incarnation][from..to]
  }

  /** The pages are consecutive pieces of one incarnation's stream and cover `from..to` of it. */
  ghost predicate PagesOf(w: World, incarnation: nat, from: nat, to: nat, pages: seq<seq<byte>>) {
    if pages == [] then from == to else Piece(w, incarnation, from, to, Flatten(pages))
  }

  lemma PagesKept(a: World, b: World, incarnation: nat, from: nat, to: nat, pages: seq<seq<byte>>)
    requires Later(a, b) && PagesOf(a, incarnation, from, to, pages)
    ensures PagesOf(b, incarnation, from, to, pages)
  {
    if pages != [] {
      assert a.streams[incarnation] <= b.streams[incarnation];
      assert b.streams[incarnation][from..to] == a.streams[incarnation][from..to];
    }
  }

  lemma PagesJoin(w: World, incarnation: nat, from: nat, mid: nat, to: nat,
                  a: seq<seq<byte>>, b: seq<seq<byte>>)
    requires PagesOf(w, incarnation, from, mid, a) && PagesOf(w, incarnation, mid, to, b)
    ensures PagesOf(w, incarnation, from, to, a + b)
  {
    if a == [] || b == [] {
      assert a + b == if a == [] then b else a;
    } else {
      var s := w.streams[incarnation];
      FlattenAppend(a, b);
      assert s[from..mid] + s[mid..to] == s[from..to];
    }
  }

  lemma OnePage(w: World, incarnation: nat, from: nat, data: seq<byte>)
    requires PageOf(w, StreamPosition(incarnation, from), data)
    ensures PagesOf(w, incarnation, from, from + |data|, [data])
  {
    assert Flatten([data]) == data + Flatten([]);
  }

  /** Scanning goes on where it stopped. */
  lemma {:induction false} ScanAppend(
    pattern: Pattern, line: seq<byte>, a: seq<seq<byte>>, b: seq<seq<byte>>, both: seq<seq<byte>>)
    requires both == a + b && ScanPages(pattern, line, a).Unmatched?
    ensures ScanPages(pattern, line, both) == ScanPages(pattern, ScanPages(pattern, line, a).line, b)
    decreases |a|
  {
    hide ScanPage;
    if a == [] {
      assert both == b;
    } else {
      assert both[0] == a[0] && both[1..] == a[1..] + b;
      ScanAppend(pattern, ScanPage(pattern, line, a[0]).line, a[1..], b, both[1..]);
    }
  }

  lemma ScanOnePage(pattern: Pattern, line: seq<byte>, data: seq<byte>)
    ensures ScanPages(pattern, line, [data]) == ScanPage(pattern, line, data)
  {
    hide ScanPage;
    assert [data][1..] == [];
  }

  /** A window came back with data. */
  ghost predicate Serves(used: seq<Turn>) {
    exists i :: 0 <= i < |used| && used[i].served > 0
  }

  lemma ServesConcat(a: seq<Turn>, b: seq<Turn>)
    requires Serves(a) || Serves(b)
    ensures Serves(a + b)
  {
    var both := a + b;
    if Serves(a) {
      var i :| 0 <= i < |a| && a[i].served > 0;
      assert both[i].served > 0;
    } else {
      var i :| 0 <= i < |b| && b[i].served > 0;
      assert both[|a| + i].served > 0;
    }
  }

  /**
    * One page, checked after the fact; the stream was pinned at `start`, so it was current
    * throughout, and a page short of its end then is empty only if the daemon served nothing.
    */
  method ReadWindow(daemon: Daemon, from: nat, incarnation: nat, ghost start: World)
    returns (r: Page, next: nat, ghost used: seq<Turn>)
    requires WorldOk(daemon.world) && WorldOk(start)
    requires start.current == Some(incarnation) && Later(start, daemon.world)
    modifies daemon
    ensures Advanced(old(daemon.world), old(daemon.script), used, daemon.world, daemon.script)
    ensures WorldOk(daemon.world) && Later(start, daemon.world) && Later(old(daemon.world), daemon.world)
    ensures |used| <= 2 && (r.Page? ==> |used| == 2 && next == from + |r.data|)
    ensures r.Page? && r.data != [] ==>
      PageOf(daemon.world, StreamPosition(incarnation, from), r.data) && Serves(used) && !LastPageEmpty(used)
    ensures r.Page? && r.data == [] && from < StreamEnd(start) ==> LastPageEmpty(used)
    ensures r.Failed? ==> Excused(r.why, daemon, incarnation)
  {
    hide Later, WorldOk, ServedFrom, WorldAfter;
    ghost var w0, s0 := daemon.world, daemon.script;
    var window;
    ghost var read;
    window, read, used := daemon.ObserveWindow(from, MATCH_PAGE_BYTES);
    next := from;
    ghost var reported, s1 := daemon.world, daemon.script;
    LaterTransitive(w0, read, reported);
    LaterTransitive(start, w0, read);
    LaterTransitive(start, read, reported);
    if window.None? {
      return Failed(Lost), next, used;
    }
    if window.value.incarnation != Some(incarnation) {
      return Failed(Restarted), next, used;
    }
    var cursor;
    ghost var more;
    cursor, more := daemon.SessionCursor();
    AdvancedTransitive(w0, s0, used, reported, s1, more, daemon.world, daemon.script);
    used := used + more;
    LaterTransitive(start, reported, daemon.world);
    LaterTransitive(w0, reported, daemon.world);
    LaterTransitive(read, reported, daemon.world);
    if cursor.None? {
      return Failed(Lost), next, used;
    }
    if cursor.value.incarnation != Some(incarnation) {
      return Failed(Restarted), next, used;
    }
    var data := window.value.data;
    Sandwich(start, read, daemon.world, incarnation);
    CurrentExists(start);
    EndGrows(start, read, incarnation);
    if data != [] {
      assert used[0].served > 0;
      ServedInside(read, from, data);
      SliceKept(read, daemon.world, StreamPosition(incarnation, from), data);
    }
    next := window.value.nextOffset;
    r := Page(data, cursor.value);
  }

  lemma ServedInside(w: World, from: nat, data: seq<byte>)
    requires ServedFrom(w, from, data)
    ensures w.current.value in w.streams && from <= |w.streams[w.current.value]|
  {
  }

  /** Why a scan may give up: the connection is gone, or the session restarted. */
  ghost predicate Excused(why: Trouble, daemon: Daemon, incarnation: nat)
    reads daemon
  {
    || (why == Lost && daemon.script == [])
    || (why == Restarted && daemon.world.current != Some(incarnation))
  }

  /**
    * Page through what the session has produced since the last poll. Whatever happens around the
    * requests, the pages that are searched are consecutive pieces of the pinned incarnation's
    * stream. A scan without a result stops short of an end that the stream had reached exactly when
    * the daemon served nothing for its last page.
    */
  method ScanForMatch(daemon: Daemon, pattern: Pattern, scanPos: nat, available: nat, carry: seq<byte>,
                      incarnation: nat, ghost start: World)
    returns (r: ScanResult, scanPos': nat, carry': seq<byte>, ghost pages: seq<seq<byte>>, ghost used: seq<Turn>)
    requires WorldOk(daemon.world) && WorldOk(start)
    requires start.current == Some(incarnation) && Later(start, daemon.world)
    modifies daemon
    ensures Advanced(old(daemon.world), old(daemon.script), used, daemon.world, daemon.script)
    ensures WorldOk(daemon.world) && Later(start, daemon.world) && Later(old(daemon.world), daemon.world)
    ensures PagesOf(daemon.world, incarnation, scanPos, scanPos', pages)
    ensures !r.Failure? ==> r == ResultOf(ScanPages(pattern, carry, pages))
    ensures r == NotYet ==> ScanPages(pattern, carry, pages) == Unmatched(carry')
    ensures r == NotYet && available <= StreamEnd(start) ==> (scanPos' < available <==> LastPageEmpty(used))
    ensures r.Failure? ==> Excused(r.why, daemon, incarnation)
    // two requests for every page; every page but the last one found something
    ensures scanPos <= scanPos' && |used| <= 2 + 2 * (scanPos' - scanPos) && (!r.Failure? ==> |used| % 2 == 0)
    ensures scanPos < scanPos' ==> Serves(used)
  {
    hide ScanPage, Later, WorldOk, PageOf, PagesOf, WorldAfter, Advanced, Serves, LastPageEmpty;
    scanPos', carry', pages, used := scanPos, carry, [], [];
    ghost var w0, s0 := daemon.world, daemon.script;
    LaterItself(w0);
    NotAdvanced(w0, s0);
    NoPages(w0, incarnation, scanPos);
    FewTurns(used);
    while scanPos' < available
      invariant Advanced(w0, s0, used, daemon.world, daemon.script)
      invariant WorldOk(daemon.world) && Later(start, daemon.world) && Later(w0, daemon.world)
      invariant ScanPages(pattern, carry, pages) == Unmatched(carry')
      invariant PagesOf(daemon.world, incarnation, scanPos, scanPos', pages)
      invariant scanPos <= scanPos' && |used| <= 2 * (scanPos' - scanPos) && |used| % 2 == 0
      invariant scanPos < scanPos' ==> Serves(used)
      invariant !LastPageEmpty(used)
      decreases |daemon.script|
    {
      ghost var before, script := daemon.world, daemon.script;
      var page, next;
      ghost var more;
      page, next, more := ReadWindow(daemon, scanPos', incarnation, start);
      AdvancedTransitive(w0, s0, used, before, script, more, daemon.world, daemon.script);
      AdvancedUses(before, script, more, daemon.world, daemon.script);
      LaterTransitive(w0, before, daemon.world);
      PagesKept(before, daemon.world, incarnation, scanPos, scanPos', pages);
      ghost var earlier := used;
      used := earlier + more;
      if Serves(earlier) || Serves(more) {
        ServesConcat(earlier, more);
      }
      if page.Failed? {
        return Failure(page.why), scanPos', carry', pages, used;
      }
      SameLastPage(earlier, more);
      var data := page.data;
      if data == [] {
        return NotYet, scanPos', carry', pages, used;
      }
      OnePage(daemon.world, incarnation, scanPos', data);
      PagesJoin(daemon.world, incarnation, scanPos, scanPos', next, pages, [data]);
      ScanAppend(pattern, carry, pages, [data], pages + [data]);
      ScanOnePage(pattern, carry', data);
      pages := pages + [data];
      scanPos' := next;
      var o := MatchPage(pattern, carry', data);
      match o {
        case Matched => return Found, scanPos', carry', pages, used;
        case LineTooLong => return Overlong, scanPos', carry', pages, used;
        case Unmatched(line) => carry' := line;
      }
    }
    r := NotYet;
  }

  lemma NoPages(w: World, incarnation: nat, from: nat)
    ensures PagesOf(w, incarnation, from, from, [])
  {
  }

  lemma FewTurns(used: seq<Turn>)
    ensures |used| < 2 ==> !LastPageEmpty(used)
  {
  }

  lemma SameLastPage(earlier: seq<Turn>, more: seq<Turn>)
    ensures |more| >= 2 ==> (LastPageEmpty(earlier + more) <==> LastPageEmpty(more))
  {
  }

  lemma NotAdvanced(w: World, script: seq<Turn>)
    requires WorldOk(w)
    ensures Advanced(w, script, [], w, script)
  {
  }

  lemma AdvancedUses(w: World, script: seq<Turn>, used: seq<Turn>, w': World, script': seq<Turn>)
    requires WorldOk(w) && Advanced(w, script, used, w', script')
    ensures |script| == |used| + |script'|
  {
  }

  // ----- the whole wait -----

  datatype Waited = Satisfied | Ended | TimedOut | LineOverlong | Broken(why: Trouble)

  /** At some point of the output the pattern could be seen: on a finished line or on a line in progress. */
  ghost predicate EverMatched(pattern: Pattern, s: seq<byte>) {
    exists end :: 0 <= end <= |s| && StreamMatches(pattern, s[..end])
  }

  /** What a wait that ended with `r` says about the output `searched` that it has looked at. */
  ghost predicate Justified(pattern: Pattern, searched: seq<byte>, r: Waited) {
    && (r == Satisfied ==> EverMatched(pattern, searched))
    && (r == Satisfied && ExtensionClosed(pattern) ==> StreamMatches(pattern, searched))
    && (r == Satisfied && Steady(pattern, MATCH_LINE_BYTES) && LinesFit(searched) ==>
          StreamMatches(pattern, searched))
    && (r in {Ended, TimedOut} ==> LinesFit(searched) && !AnyMatches(pattern, FinishedLines(searched)))
    && (r in {Ended, TimedOut} && Steady(pattern, MATCH_LINE_BYTES) ==> !StreamMatches(pattern, searched))
    && (r == LineOverlong ==> !LinesFit(searched))
  }

  lemma ScanIsJustified(pattern: Pattern, pages: seq<seq<byte>>, searched: seq<byte>, r: Waited)
    requires searched == Flatten(pages)
    requires r == Satisfied ==> ScanPages(pattern, [], pages) == Matched
    requires r == LineOverlong ==> ScanPages(pattern, [], pages) == LineTooLong
    requires r in {Ended, TimedOut} ==> ScanPages(pattern, [], pages).Unmatched?
    ensures Justified(pattern, searched, r)
  {
    hide ScanPages, AnyMatches, FinishedLines, UnfinishedLine, SettledText, StreamMatches, ExtensionClosed, Steady,
         LinesFit;
    assert searched == [] + Flatten(pages);
    match r {
      case Satisfied =>
        var end := MatchIsReal(pattern, [], pages, searched);
        assert searched == searched[..end] + searched[end..];
        if ExtensionClosed(pattern) {
          ClosedIsSteady(pattern, |searched|);
          StreamMatchSurvives(pattern, searched[..end], searched[end..], searched, |searched|);
        }
        if Steady(pattern, MATCH_LINE_BYTES) && LinesFit(searched) {
          StreamMatchSurvives(pattern, searched[..end], searched[end..], searched, MATCH_LINE_BYTES);
        }
      case LineOverlong =>
        if LinesFit(searched) {
          FittingStreamIsAnswered(pattern, [], pages, searched);
        }
      case Broken(_) =>
      case _ =>
        UnansweredScanFits(pattern, [], pages, searched);
        if AnyMatches(pattern, FinishedLines(searched)) {
          FinishedLineIsFound(pattern, [], pages, searched);
        }
        if Steady(pattern, MATCH_LINE_BYTES) {
          CutDoesNotMatter(pattern, [], pages, searched);
        }
    }
  }

  /** One poll: a cursor request, and pages as long as it finds something. */
  datatype PollRecord = PollRecord(
    announced: World,     // when the cursor was taken
    used: seq<Turn>,      // its requests
    to: nat,              // how far the search has come
    found: seq<byte>      // all output searched by then
  )

  /** A wait, for the statement of what it did. */
  datatype Search = Search(
    begun: World,         // when the wait took its first cursor
    start: nat,           // where the search starts
    polls: seq<PollRecord>)

  function Reached(start: nat, polls: seq<PollRecord>): (to: nat) {
    if polls == [] then start else polls[|polls| - 1].to
  }

  function Searched(polls: seq<PollRecord>): (found: seq<byte>) {
    if polls == [] then [] else polls[|polls| - 1].found
  }

  function UsedBy(polls: seq<PollRecord>): (used: seq<Turn>) {
    if polls == [] then [] else UsedBy(polls[..|polls| - 1]) + polls[|polls| - 1].used
  }

  /** What a search relies on between polls: it is a piece of the pinned stream, without a match so far. */
  ghost predicate Searching(w: World, pattern: Pattern, pinned: Option<nat>, start: nat, to: nat, found: seq<byte>,
                            pages: seq<seq<byte>>, carry: seq<byte>) {
    && found == Flatten(pages) && InStream(w, pinned, start, to, pages)
    && ScanPages(pattern, [], pages) == Unmatched(carry)
  }

  ghost predicate InStream(w: World, pinned: Option<nat>, from: nat, to: nat, pages: seq<seq<byte>>) {
    if pinned.None? then from == to && pages == [] else PagesOf(w, pinned.value, from, to, pages)
  }

  /** What was searched, as a property of the stream alone. */
  ghost predicate Located(w: World, pinned: Option<nat>, start: nat, p: PollRecord) {
    && WorldOk(p.announced) && Later(p.announced, w)
    && |p.found| == p.to - start
    && (p.found != [] ==> pinned.Some? && Piece(w, pinned.value, start, p.to, p.found))
  }

  lemma SearchIsLocated(w: World, pinned: Option<nat>, start: nat, p: PollRecord, pages: seq<seq<byte>>)
    requires p.found == Flatten(pages) && InStream(w, pinned, start, p.to, pages)
    requires WorldOk(p.announced) && Later(p.announced, w)
    ensures Located(w, pinned, start, p)
  {
  }

  /** The announced output was searched to its end, or nothing was served for the last page. */
  ghost predicate Covered(p: PollRecord) {
    WorldOk(p.announced) && (p.to < StreamEnd(p.announced) <==> LastPageEmpty(p.used))
  }

  /** What a poll that gave the result `r` has done; it goes on only where it might time out. */
  ghost predicate PollVerdict(pinned: Option<nat>, p: PollRecord, r: Waited) {
    && p.used != [] && p.announced.current == pinned
    && (r == Ended ==> !p.used[0].running)
    && (r == TimedOut ==> p.used[0].running)
    && (r in {Ended, TimedOut} ==> Covered(p))
  }

  /** The poll saw a running session, searched all it could and found no match. */
  ghost predicate WentOn(pattern: Pattern, pinned: Option<nat>, p: PollRecord) {
    PollVerdict(pinned, p, TimedOut) && Justified(pattern, p.found, TimedOut)
  }

  /** The requests of a poll that began in world `w` at position `from`, two for every page. */
  ghost predicate PollOk(w: World, from: nat, p: PollRecord)
    requires WorldOk(w)
  {
    && p.announced == WorldAfter(w, if p.used == [] then [] else p.used[..1])
    && from <= p.to && |p.used| <= 3 + 2 * (p.to - from)
    && (from < p.to ==> Serves(p.used))
  }

  /** How a wait breaks off: the connection is gone, or another incarnation is current. */
  ghost predicate BreakExcused(daemon: Daemon, pinned: Option<nat>, r: Waited)
    reads daemon
  {
    r.Broken? ==>
      || (r.why == Lost && daemon.script == [])
      || (r.why == Restarted && daemon.world.current != pinned)
  }

  /** One poll: compare incarnations, then search what is new. */
  method Poll(daemon: Daemon, pattern: Pattern, pinned: Option<nat>, scanPos: nat, carry: seq<byte>,
              ghost start: nat, ghost found: seq<byte>, ghost pages: seq<seq<byte>>)
    returns (r: Option<Waited>, scanPos': nat, carry': seq<byte>, ghost p: PollRecord, ghost pages': seq<seq<byte>>)
    requires WorldOk(daemon.world) && Searching(daemon.world, pattern, pinned, start, scanPos, found, pages, carry)
    modifies daemon
    ensures Advanced(old(daemon.world), old(daemon.script), p.used, daemon.world, daemon.script)
    ensures WorldOk(daemon.world) && Later(old(daemon.world), daemon.world)
    ensures PollOk(old(daemon.world), scanPos, p) && Located(daemon.world, pinned, start, p)
    ensures r.None? ==> scanPos' == p.to && WentOn(pattern, pinned, p)
    ensures r.None? ==> Searching(daemon.world, pattern, pinned, start, p.to, p.found, pages', carry')
    ensures r.Some? ==> Justified(pattern, p.found, r.value) && BreakExcused(daemon, pinned, r.value)
    ensures r.Some? && !r.value.Broken? ==> PollVerdict(pinned, p, r.value)
  {
    hide Later, WorldOk, PagesOf, Piece, ScanPages, Justified, Flatten, Located, Advanced, WorldAfter, Serves,
         LastPageEmpty;
    scanPos', carry', pages' := scanPos, carry, pages;
    ghost var before, script := daemon.world, daemon.script;
    var cursor;
    ghost var used;
    cursor, used := daemon.SessionCursor();
    SearchKept(before, daemon.world, pinned, start, scanPos, pages);
    LaterItself(daemon.world);
    AfterUsed(before, script, used, daemon.world, daemon.script);
    FewTurns(used);
    p := PollRecord(daemon.world, used, scanPos, found);
    SearchIsLocated(daemon.world, pinned, start, p, pages);
    BrokenIsJustified(pattern, found);
    if cursor.None? {
      return Some(Broken(Lost)), scanPos', carry', p, pages';
    }
    if cursor.value.incarnation != pinned {
      return Some(Broken(Restarted)), scanPos', carry', p, pages';
    }
    var scanned := NotYet;
    if scanPos < cursor.value.offset {  // never without a stream, whose end is 0
      ghost var more, turns;
      ghost var polled := daemon.script;
      scanned, scanPos', carry', more, turns :=
        ScanForMatch(daemon, pattern, scanPos, cursor.value.offset, carry, pinned.value, p.announced);
      AdvancedTransitive(before, script, used, p.announced, polled, turns, daemon.world, daemon.script);
      FirstOfMore(used, turns, used + turns);
      SearchKept(p.announced, daemon.world, pinned, start, scanPos, pages);
      LaterTransitive(before, p.announced, daemon.world);
      pages' := pages + more;
      p := PollRecord(p.announced, used + turns, scanPos', found + Flatten(more));
      SearchGoesOn(daemon.world, pattern, pinned.value, start, scanPos, found, pages, carry, more, p, pages');
    }
    SearchIsLocated(daemon.world, pinned, start, p, pages');
    BrokenIsJustified(pattern, p.found);
    match scanned {
      case Failure(why) => return Some(Broken(why)), scanPos', carry', p, pages';
      case Found =>
        ScanIsJustified(pattern, pages', p.found, Satisfied);
        return Some(Satisfied), scanPos', carry', p, pages';
      case Overlong =>
        ScanIsJustified(pattern, pages', p.found, LineOverlong);
        return Some(LineOverlong), scanPos', carry', p, pages';
      case NotYet =>
        ScanIsJustified(pattern, pages', p.found, Ended);
        ScanIsJustified(pattern, pages', p.found, TimedOut);
        if !cursor.value.running {
          return Some(Ended), scanPos', carry', p, pages';
        }
        if * {  // the deadline has passed
          return Some(TimedOut), scanPos', carry', p, pages';
        }
    }
    r := None;
  }

  lemma AfterUsed(w: World, script: seq<Turn>, used: seq<Turn>, w': World, script': seq<Turn>)
    requires WorldOk(w) && Advanced(w, script, used, w', script') && |used| <= 1
    ensures w' == WorldAfter(w, if used == [] then [] else used[..1])
  {
    assert used != [] ==> used[..1] == used;
  }

  lemma FirstOfMore(first: seq<Turn>, more: seq<Turn>, used: seq<Turn>)
    requires |first| == 1 && used == first + more
    ensures used[..1] == first[..1] && used[0] == first[0]
    ensures Serves(more) ==> Serves(used)
    ensures |more| != 1 ==> (LastPageEmpty(more) <==> LastPageEmpty(used))
  {
    if Serves(more) {
      ServesConcat(first, more);
    }
  }

  lemma SearchKept(a: World, b: World, pinned: Option<nat>, start: nat, to: nat, pages: seq<seq<byte>>)
    requires Later(a, b) && InStream(a, pinned, start, to, pages)
    ensures InStream(b, pinned, start, to, pages)
  {
    if pinned.Some? {
      PagesKept(a, b, pinned.value, start, to, pages);
    }
  }

  lemma BrokenIsJustified(pattern: Pattern, searched: seq<byte>)
    ensures forall why :: Justified(pattern, searched, Broken(why))
  {
  }

  /** A scan continues the search. */
  lemma SearchGoesOn(w: World, pattern: Pattern, k: nat, start: nat, from: nat, found: seq<byte>,
                     pages: seq<seq<byte>>, carry: seq<byte>, more: seq<seq<byte>>, p: PollRecord,
                     pages': seq<seq<byte>>)
    requires ScanPages(pattern, [], pages) == Unmatched(carry) && found == Flatten(pages)
    requires PagesOf(w, k, start, from, pages) && PagesOf(w, k, from, p.to, more)
    requires pages' == pages + more && p.found == found + Flatten(more)
    ensures ScanPages(pattern, [], pages') == ScanPages(pattern, carry, more)
    ensures PagesOf(w, k, start, p.to, pages') && p.found == Flatten(pages')
  {
    hide ScanPages;
    PagesJoin(w, k, start, from, p.to, pages, more);
    ScanAppend(pattern, [], pages, more, pages');
    FlattenAppend(pages, more);
  }

  /** Each poll begins where the one before has left the daemon and the search. */
  ghost predicate Chain(begun: World, start: nat, polls: seq<PollRecord>)
    requires WorldOk(begun)
  {
    polls != [] ==>
      var earlier := polls[..|polls| - 1];
      && Chain(begun, start, earlier)
      && PollOk(WorldAfter(begun, UsedBy(earlier)), Reached(start, earlier), polls[|polls| - 1])
  }

  /** The requests of a wait: the first cursor, then its polls. */
  ghost predicate Traced(w: World, used: seq<Turn>, t: Search)
    requires WorldOk(w)
  {
    if used == [] then t.begun == w && t.polls == []
    else
      && t.begun == WorldAfter(w, used[..1])
      && used == used[..1] + UsedBy(t.polls)
      && Chain(t.begun, t.start, t.polls)
  }

  ghost predicate AllLocated(w: World, pinned: Option<nat>, start: nat, polls: seq<PollRecord>) {
    forall i :: 0 <= i < |polls| ==> Located(w, pinned, start, polls[i])
  }

  ghost predicate AllWentOn(pattern: Pattern, pinned: Option<nat>, polls: seq<PollRecord>) {
    forall i :: 0 <= i < |polls| ==> WentOn(pattern, pinned, polls[i])
  }

  predicate AllStopped(turns: seq<Turn>) {
    forall i :: 0 <= i < |turns| ==> !turns[i].running
  }

  /** Polls until one of them has a result. */
  method KeepPolling(daemon: Daemon, pattern: Pattern, pinned: Option<nat>, start: nat)
    returns (r: Waited, ghost polls: seq<PollRecord>)
    requires WorldOk(daemon.world)
    modifies daemon
    ensures Advanced(old(daemon.world), old(daemon.script), UsedBy(polls), daemon.world, daemon.script)
    ensures WorldOk(daemon.world) && polls != [] && Chain(old(daemon.world), start, polls)
    ensures AllLocated(daemon.world, pinned, start, polls)
    ensures AllWentOn(pattern, pinned, polls[..|polls| - 1])
    ensures Justified(pattern, Searched(polls), r) && BreakExcused(daemon, pinned, r)
    ensures !r.Broken? ==> PollVerdict(pinned, polls[|polls| - 1], r)
    ensures Searched(polls) != [] ==> Serves(UsedBy(polls))
    ensures AllStopped(UsedBy(polls)) ==> r != TimedOut && |UsedBy(polls)| <= 3 + 2 * |Searched(polls)|
  {
    hide Later, WorldOk, PagesOf, Piece, ScanPages, Justified, Flatten, WorldAfter, Serves, Advanced,
         Covered, Chain, UsedBy, AllLocated, AllWentOn, AllStopped, InStream, Located, PollOk, Searching;
    var scanPos, scanTail: seq<byte> := start, [];
    ghost var w, s1, pages: seq<seq<byte>> := daemon.world, daemon.script, [];
    polls := [];
    Unstarted(w, pinned, start, pages, pattern);
    NotAdvanced(w, s1);
    while true
      invariant Advanced(w, s1, UsedBy(polls), daemon.world, daemon.script) && WorldOk(daemon.world)
      invariant scanPos == Reached(start, polls)
      invariant Searching(daemon.world, pattern, pinned, start, scanPos, Searched(polls), pages, scanTail)
      invariant Chain(w, start, polls) && AllLocated(daemon.world, pinned, start, polls)
      invariant AllWentOn(pattern, pinned, polls)
      invariant polls == [] || !AllStopped(UsedBy(polls))
      invariant start <= scanPos && (start < scanPos ==> Serves(UsedBy(polls)))
      decreases |daemon.script|
    {
      ghost var before, script, earlier := daemon.world, daemon.script, polls;
      var answer;
      ghost var p;
      answer, scanPos, scanTail, p, pages :=
        Poll(daemon, pattern, pinned, scanPos, scanTail, start, Searched(earlier), pages);
      AdvancedUses(before, script, p.used, daemon.world, daemon.script);
      AdvancedTransitive(w, s1, UsedBy(earlier), before, script, p.used, daemon.world, daemon.script);
      polls := earlier + [p];
      OnePollMore(w, s1, start, earlier, before, script, p, daemon.world, pinned);
      if answer.Some? {
        return answer.value, polls;
      }
      OneMoreWentOn(pattern, pinned, earlier, p, UsedBy(earlier));
    }
  }

  /**
    * Waiting for a match across any number of polls, appends and restarts, however it ends. The
    * output searched is one piece of the pinned incarnation's stream. Every poll but the last saw a
    * running session, searched everything announced unless nothing was served for its last page,
    * and found no match there; the verdict is justified by the output searched in the end, and a
    * wait that ends or times out has searched like the polls before.
    */
  method WaitForMatch(daemon: Daemon, pattern: Pattern, from: Option<StreamPosition>, pinned: Option<nat>)
    returns (r: Waited, ghost t: Search, ghost used: seq<Turn>)
    requires WorldOk(daemon.world)
    modifies daemon
    ensures Advanced(old(daemon.world), old(daemon.script), used, daemon.world, daemon.script)
    ensures WorldOk(daemon.world) && WorldOk(t.begun) && Traced(old(daemon.world), used, t)
    ensures AllLocated(daemon.world, pinned, t.start, t.polls)
    ensures t.polls != [] ==> AllWentOn(pattern, pinned, t.polls[..|t.polls| - 1])
    ensures t.polls != [] ==> t.begun.current == pinned
    ensures t.polls != [] ==> t.start == if from.Some? then from.value.offset else StreamEnd(t.begun)
    ensures Justified(pattern, Searched(t.polls), r)
    ensures !r.Broken? ==> t.polls != [] && PollVerdict(pinned, t.polls[|t.polls| - 1], r)
    ensures t.polls != [] ==> BreakExcused(daemon, pinned, r)
    ensures from.Some? && pinned.Some? && from.value.incarnation != pinned.value ==> r.Broken?
    ensures t.polls == [] && !BreakExcused(daemon, pinned, r) ==>
      r == Broken(Restarted) && from.Some? && pinned != Some(from.value.incarnation)
    // something is found only where something is served; a stopped session is polled once, to its end
    ensures Searched(t.polls) != [] ==> Serves(used)
    ensures AllStopped(used) ==> r != TimedOut && |used| <= 4 + 2 * |Searched(t.polls)|
  {
    hide Later, WorldOk, Justified, WorldAfter, Serves, Advanced, Covered, Chain, UsedBy, AllLocated, AllWentOn,
         AllStopped;
    ghost var w0, s0 := daemon.world, daemon.script;
    var first;
    first, used := daemon.SessionCursor();
    ghost var w, s1, one := daemon.world, daemon.script, used;
    FirstTraced(w0, s0, used, w, daemon.script);
    t := Search(w, 0, []);
    Unstarted(w, pinned, 0, [], pattern);
    if first.None? {
      return Broken(Lost), t, used;
    }
    if first.value.incarnation != pinned {
      return Broken(Restarted), t, used;
    }
    if from.Some? && pinned.Some? && from.value.incarnation != pinned.value {
      return Broken(Restarted), t, used;
    }
    var scanPos := if from.Some? then from.value.offset else first.value.offset;
    ghost var polls;
    r, polls := KeepPolling(daemon, pattern, pinned, scanPos);
    t := Search(w, scanPos, polls);
    used := one + UsedBy(polls);
    AdvancedTransitive(w0, s0, one, w, s1, UsedBy(polls), daemon.world, daemon.script);
    WholeTrace(one, UsedBy(polls), used);
  }

  lemma FirstTraced(w: World, script: seq<Turn>, used: seq<Turn>, w': World, script': seq<Turn>)
    requires WorldOk(w) && Advanced(w, script, used, w', script') && |used| <= 1
    ensures w' == WorldAfter(w, used) && used[..|used|] == used && (used != [] ==> used[..1] == used)
    ensures used == [] ==> w' == w
  {
  }

  lemma Unstarted(w: World, pinned: Option<nat>, start: nat, pages: seq<seq<byte>>, pattern: Pattern)
    requires WorldOk(w) && pages == []
    ensures Searching(w, pattern, pinned, start, start, [], pages, []) && InStream(w, pinned, start, start, pages)
    ensures UsedBy([]) == [] && Chain(w, start, [])
    ensures AllLocated(w, pinned, start, []) && AllWentOn(pattern, pinned, [])
    ensures forall why :: Justified(pattern, [], Broken(why))
  {
  }

  lemma OnePollMore(w: World, s1: seq<Turn>, start: nat, earlier: seq<PollRecord>, before: World, script: seq<Turn>,
                    p: PollRecord, now: World, pinned: Option<nat>)
    requires WorldOk(w) && WorldOk(before) && Advanced(w, s1, UsedBy(earlier), before, script)
    requires Chain(w, start, earlier) && PollOk(before, Reached(start, earlier), p)
    requires AllLocated(before, pinned, start, earlier) && Later(before, now) && Located(now, pinned, start, p)
    ensures (earlier + [p])[..|earlier|] == earlier
    ensures UsedBy(earlier + [p]) == UsedBy(earlier) + p.used
    ensures Chain(w, start, earlier + [p]) && AllLocated(now, pinned, start, earlier + [p])
    ensures Serves(UsedBy(earlier)) || Serves(p.used) ==> Serves(UsedBy(earlier + [p]))
    ensures AllStopped(UsedBy(earlier + [p])) ==> AllStopped(UsedBy(earlier)) && AllStopped(p.used)
    ensures AllStopped(p.used) && p.used != [] ==> !p.used[0].running
    ensures UsedBy([]) == []
    ensures Reached(start, earlier) <= p.to && |p.used| <= 3 + 2 * (p.to - Reached(start, earlier))
    ensures Reached(start, earlier) < p.to ==> Serves(p.used)
    ensures |p.found| == p.to - start
  {
    hide WorldOk, WorldAfter, Serves, Located, PollOk;
    PollSizes(before, Reached(start, earlier), p, now, pinned, start);
    var polls := earlier + [p];
    assert polls[..|earlier|] == earlier && polls[|earlier|] == p;
    StoppedConcat(UsedBy(earlier), p.used);
    if Serves(UsedBy(earlier)) || Serves(p.used) {
      ServesConcat(UsedBy(earlier), p.used);
    }
    forall i | 0 <= i < |polls| ensures Located(now, pinned, start, polls[i]) {
      if i < |earlier| {
        LocatedLater(before, now, pinned, start, earlier[i]);
      }
    }
  }

  lemma StoppedConcat(a: seq<Turn>, b: seq<Turn>)
    ensures AllStopped(a + b) ==> AllStopped(a) && AllStopped(b)
  {
    assert forall i :: 0 <= i < |a| ==> (a + b)[i] == a[i];
    assert forall i :: 0 <= i < |b| ==> (a + b)[|a| + i] == b[i];
  }

  lemma PollSizes(w: World, from: nat, p: PollRecord, now: World, pinned: Option<nat>, start: nat)
    requires WorldOk(w) && PollOk(w, from, p) && Located(now, pinned, start, p)
    ensures from <= p.to && |p.used| <= 3 + 2 * (p.to - from)
    ensures from < p.to ==> Serves(p.used)
    ensures |p.found| == p.to - start
  {
    hide Serves;
  }

  lemma LocatedLater(a: World, b: World, pinned: Option<nat>, start: nat, p: PollRecord)
    requires Located(a, pinned, start, p) && Later(a, b)
    ensures Located(b, pinned, start, p)
  {
    LaterTransitive(p.announced, a, b);
    if p.found != [] {
      var k := pinned.value;
      assert a.streams[k] <= b.streams[k];
      assert b.streams[k][start..p.to] == a.streams[k][start..p.to];
    }
  }

  lemma OneMoreWentOn(pattern: Pattern, pinned: Option<nat>, earlier: seq<PollRecord>, p: PollRecord,
                      used: seq<Turn>)
    requires AllWentOn(pattern, pinned, earlier) && WentOn(pattern, pinned, p)
    ensures AllWentOn(pattern, pinned, earlier + [p])
    ensures !AllStopped(used + p.used)
  {
    hide WentOn;
    assert PollVerdict(pinned, p, TimedOut) by {
      assert WentOn(pattern, pinned, p);
      WentOnVerdict(pattern, pinned, p);
    }
    assert (used + p.used)[|used|] == p.used[0];
  }

  lemma WentOnVerdict(pattern: Pattern, pinned: Option<nat>, p: PollRecord)
    requires WentOn(pattern, pinned, p)
    ensures PollVerdict(pinned, p, TimedOut)
  {
  }

  /** All requests of a wait: the first cursor, then its polls. */
  lemma WholeTrace(one: seq<Turn>, all: seq<Turn>, used: seq<Turn>)
    requires |one| == 1 && used == one + all
    ensures used != [] && used[..1] == one
    ensures Serves(all) ==> Serves(used)
    ensures AllStopped(used) ==> AllStopped(all)
  {
    assert forall i :: 0 <= i < |all| ==> used[1 + i] == all[i];
    if Serves(all) {
      ServesConcat(one, all);
    }
  }

  // ----- output that a wait misses -----

  /** What a poll announced from the start of the search on. */
  ghost function Announced(p: PollRecord, k: nat, start: nat): (s: seq<byte>)
    requires WorldOk(p.announced) && p.announced.current == Some(k) && start <= StreamEnd(p.announced)
  {
    p.announced.streams[k][start..]
  }

  /** The part of it that the poll did not reach. */
  ghost function Unread(p: PollRecord, k: nat): (s: seq<byte>)
    requires WorldOk(p.announced) && p.announced.current == Some(k)
  {
    if p.to < StreamEnd(p.announced) then p.announced.streams[k][p.to..] else []
  }

  /**
    * A poll without a result has missed a match in what was announced if and only if nothing was
    * served for its last page and the output that it did not reach matches, together with the line
    * in progress. It holds for every poll of a wait but one with a result, in particular for the last
    * poll of a wait that ended or timed out.
    */
  lemma MatchMissedIff(pattern: Pattern, k: nat, w: World, start: nat, p: PollRecord)
    requires Steady(pattern, MATCH_LINE_BYTES)
    requires p.announced.current == Some(k) && Covered(p) && Justified(pattern, p.found, TimedOut)
    requires Located(w, Some(k), start, p) && start <= StreamEnd(p.announced)
    ensures StreamMatches(pattern, Announced(p, k, start)) <==>
      LastPageEmpty(p.used) && StreamMatches(pattern, UnfinishedLine(p.found) + Unread(p, k))
  {
    hide StreamMatches, Steady, LinesFit, AnyMatches, FinishedLines, UnfinishedLine, LastPageEmpty;
    var told, stream, end := Announced(p, k, start), p.announced.streams[k], StreamEnd(p.announced);
    FoundInAnnounced(k, w, start, p);
    if p.to < end {
      NothingBefore(pattern, p.found, Unread(p, k), told);
    } else if StreamMatches(pattern, told) {
      var rest := p.found[|told|..];
      assert p.found == told + rest;
      StreamMatchSurvives(pattern, told, rest, p.found, MATCH_LINE_BYTES);
    }
  }

  lemma FoundInAnnounced(k: nat, w: World, start: nat, p: PollRecord)
    requires p.announced.current == Some(k) && Located(w, Some(k), start, p) && start <= StreamEnd(p.announced)
    ensures p.to < StreamEnd(p.announced) ==> Announced(p, k, start) == p.found + Unread(p, k)
    ensures p.to >= StreamEnd(p.announced) ==> Announced(p, k, start) <= p.found
  {
    var stream := p.announced.streams[k];
    assert stream <= w.streams[k];
    if p.found == [] {
      assert p.to == start;
    } else {
      assert forall i :: 0 <= i < |stream| ==> w.streams[k][i] == stream[i];
    }
  }

  /** Where no finished line of the searched output matches, a match needs what comes after it. */
  lemma NothingBefore(pattern: Pattern, found: seq<byte>, unread: seq<byte>, told: seq<byte>)
    requires told == found + unread && !AnyMatches(pattern, FinishedLines(found))
    ensures StreamMatches(pattern, told) <==> StreamMatches(pattern, UnfinishedLine(found) + unread)
  {
    hide FinishedLines, UnfinishedLine, AnyMatches, SettledText;
    var tail := UnfinishedLine(found) + unread;
    LinesOfConcat(found, unread, told, tail);
    AnyMatchesConcat(pattern, FinishedLines(found), FinishedLines(tail));
  }

  /**
    * So, over a whole wait: a match that a poll announced, all pages of which were served, is
    * reported by that poll; no earlier poll has passed one over.
    */
  lemma ServedMatchIsReported(pattern: Pattern, k: nat, w: World, t: Search, r: Waited, i: nat)
    requires Steady(pattern, MATCH_LINE_BYTES) && i < |t.polls|
    requires AllLocated(w, Some(k), t.start, t.polls)
    requires AllWentOn(pattern, Some(k), t.polls[..|t.polls| - 1])
    requires Justified(pattern, Searched(t.polls), r)
    requires !r.Broken? ==> PollVerdict(Some(k), t.polls[|t.polls| - 1], r)
    requires t.polls[i].announced.current == Some(k) && t.start <= StreamEnd(t.polls[i].announced)
    requires StreamMatches(pattern, Announced(t.polls[i], k, t.start)) && !LastPageEmpty(t.polls[i].used)
    ensures i == |t.polls| - 1 && r !in {Ended, TimedOut}
  {
    hide StreamMatches, Steady, LastPageEmpty, LinesFit, AnyMatches, FinishedLines, EverMatched, ExtensionClosed,
         Located, Covered;
    var p := t.polls[i];
    if i < |t.polls| - 1 {
      assert t.polls[..|t.polls| - 1][i] == p;
      assert WentOn(pattern, Some(k), p);
      MatchMissedIff(pattern, k, w, t.start, p);
    } else if r in {Ended, TimedOut} {
      MatchMissedIff(pattern, k, w, t.start, p);
    }
  }

  /** No page has anything in it. */
  predicate AllEmpty(turns: seq<Turn>) {
    forall i :: 0 <= i < |turns| ==> turns[i].served == 0
  }

  /**
    * On a stopped session whose pages come back empty every wait reports the end of the session,
    * whatever its output and the pattern are: this is the family in which a match is missed.
    */
  method StarvedWaitEnds(daemon: Daemon, pattern: Pattern, from: nat, incarnation: nat)
    returns (r: Waited, ghost t: Search, ghost used: seq<Turn>)
    requires WorldOk(daemon.world) && daemon.world.current == Some(incarnation)
    requires |daemon.script| >= 5
    requires Quiet(daemon.script) && AllStopped(daemon.script) && AllEmpty(daemon.script)
    modifies daemon
    ensures Advanced(old(daemon.world), old(daemon.script), used, daemon.world, daemon.script)
    ensures r == Ended && Searched(t.polls) == []
  {
    hide Later, WorldOk, Piece, LinesFit, FinishedLines, UnfinishedLine, AnyMatches, WorldAfter, SettledText, Lossy;
    ghost var w0, s0 := daemon.world, daemon.script;
    r, t, used := WaitForMatch(daemon, pattern, Some(StreamPosition(incarnation, from)), Some(incarnation));
    assert forall i :: 0 <= i < |used| ==> used[i] == s0[i];
    QuietKeepsCurrent(w0, used);
    assert !Serves(used);
    NothingFound(pattern);
  }

  lemma NothingFound(pattern: Pattern)
    ensures !EverMatched(pattern, []) && LinesFit([])
  {
    assert FinishedLines([]) == [] && UnfinishedLine([]) == [];
  }

  /** One such session: its only output is one matching character. */
  method MissedMatch(pattern: Pattern)
    returns (r: Waited, daemon: Daemon)
    requires pattern(LETTER)
    ensures fresh(daemon) && daemon.world.current == Some(1) && 1 in daemon.world.streams
    ensures r == Ended && StreamMatches(pattern, daemon.world.streams[1])
  {
    hide StreamMatches, WorldAfter;
    OneLetterMatches(pattern);
    var idle := Turn([], false, 0, []);
    var script := seq(5, _ => idle);
    daemon := new Daemon(World(Some(1), map[1 := LETTER]), script);
    ghost var t, used;
    ghost var w := daemon.world;
    r, t, used := StarvedWaitEnds(daemon, pattern, 0, 1);
    assert forall i :: 0 <= i < |used| ==> used[i] == script[i];
    NothingHappens(w, used);
  }

  const LETTER: seq<byte> := [0x78]

  lemma OneLetterMatches(pattern: Pattern)
    requires pattern(LETTER)
    ensures StreamMatches(pattern, LETTER)
  {
    assert First(LETTER) == Scalar(1) && LETTER[..1] == LETTER && LETTER[1..] == [];
    assert SettledText(LETTER) == LETTER[..1] + SettledText(LETTER[1..]) == LETTER;
    assert LETTER[0] != NEWLINE;
    MatchInProgress(pattern, LETTER);
  }

  lemma {:induction false} NothingHappens(w: World, turns: seq<Turn>)
    requires WorldOk(w) && forall i :: 0 <= i < |turns| ==> turns[i].before == [] == turns[i].after
    ensures WorldAfter(w, turns) == w
    decreases |turns|
  {
    if turns != [] {
      NothingHappens(w, turns[..|turns| - 1]);
    }
  }
}
