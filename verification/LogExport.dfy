/**
  * Exporting a session's recorded stream page by page, while the session keeps writing and may
  * restart at any moment. Whatever happens around the requests, a finished export is exactly the
  * prefix of the one incarnation that was pinned at the start.
  */
module LogExport {
  import opened Bytes
  import opened LogCursor
  import Base64

  const EXPORT_PAGE_BYTES: nat := 1024 * 1024
  const MAX_WINDOW_BYTES: nat := 8 * 1024 * 1024

  // ----- the session on the daemon -----

  /** Every incarnation has its own stream; only the current one grows. */
  datatype World = World(current: Option<nat>, streams: map<nat, seq<byte>>)

  predicate WorldOk(w: World) {
    w.current.Some? ==> w.current.value in w.streams
  }

  datatype Happening = Append(data: seq<byte>) | Restart(incarnation: nat)

  /** An incarnation number is never used twice. */
  function Happen(w: World, h: Happening): (r: World)
    requires WorldOk(w)
    ensures WorldOk(r) && Later(w, r)
  {
    match h
    case Append(data) =>
      if w.current.None? then w
      else w.(streams := w.streams[w.current.value := w.streams[w.current.value] + data])
    case Restart(incarnation) =>
      if incarnation in w.streams then w
      else World(Some(incarnation), w.streams[incarnation := []])
  }

  function HappenAll(w: World, hs: seq<Happening>): (r: World)
    requires WorldOk(w)
    ensures WorldOk(r) && Later(w, r)
    decreases |hs|
  {
    if hs == [] then w
    else
      LaterTransitive(w, Happen(w, hs[0]), HappenAll(Happen(w, hs[0]), hs[1..]));
      HappenAll(Happen(w, hs[0]), hs[1..])
  }

  /** Streams only grow, and an incarnation that is not current is frozen and never current again. */
  ghost predicate Later(a: World, b: World) {
    && (forall k :: k in a.streams ==> k in b.streams && a.streams[k] <= b.streams[k])
    && (forall k :: k in a.streams && a.current != Some(k) ==>
          b.current != Some(k) && b.streams[k] == a.streams[k])
  }

  lemma LaterTransitive(a: World, b: World, c: World)
    requires Later(a, b) && Later(b, c)
    ensures Later(a, c)
  {
    forall k | k in a.streams ensures k in c.streams && a.streams[k] <= c.streams[k] {
      assert k in b.streams;
    }
  }

  /** If an incarnation is current before and after, it was current in between. */
  lemma Sandwich(a: World, b: World, c: World, k: nat)
    requires WorldOk(a) && Later(a, b) && Later(b, c)
    requires a.current == Some(k) && c.current == Some(k)
    ensures b.current == Some(k)
  {
  }

  /** What surrounds one request; a script that runs out stands for a lost connection. */
  datatype Turn = Turn(before: seq<Happening>, running: bool, served: nat, after: seq<Happening>)

  /** The world after the turns of some requests. */
  function WorldAfter(w: World, turns: seq<Turn>): (r: World)
    requires WorldOk(w)
    ensures WorldOk(r) && Later(w, r)
    decreases |turns|
  {
    LaterItself(w);
    if turns == [] then w
    else
      var k := |turns| - 1;
      var w1 := WorldAfter(w, turns[..k]);
      var w2 := HappenAll(w1, turns[k].before);
      LaterTransitive(w, w1, w2);
      LaterTransitive(w, w2, HappenAll(w2, turns[k].after));
      HappenAll(w2, turns[k].after)
  }

  lemma {:induction false} WorldAfterConcat(w: World, a: seq<Turn>, b: seq<Turn>, whole: seq<Turn>)
    requires WorldOk(w) && whole == a + b
    ensures WorldAfter(w, whole) == WorldAfter(WorldAfter(w, a), b)
    decreases |b|
  {
    hide WorldOk, Later, HappenAll;
    if b == [] {
      assert whole == a;
    } else {
      var k := |b| - 1;
      WorldAfterConcat(w, a, b[..k], whole[..|whole| - 1]);
      assert whole[|whole| - 1] == b[k];
    }
  }

  /** From one state of the daemon, the turns `used` lead to the other. */
  ghost predicate Advanced(w: World, script: seq<Turn>, used: seq<Turn>, w': World, script': seq<Turn>)
    requires WorldOk(w)
  {
    script == used + script' && w' == WorldAfter(w, used)
  }

  lemma AdvancedTransitive(w: World, s: seq<Turn>, a: seq<Turn>, w1: World, s1: seq<Turn>, b: seq<Turn>,
                           w2: World, s2: seq<Turn>)
    requires WorldOk(w) && WorldOk(w1) && Advanced(w, s, a, w1, s1) && Advanced(w1, s1, b, w2, s2)
    ensures Advanced(w, s, a + b, w2, s2)
  {
    hide WorldAfter, WorldOk, Later;
    WorldAfterConcat(w, a, b, a + b);
    ConcatAssoc(a, b, s2);
  }

  /** No restart happens around these requests. */
  predicate Quiet(turns: seq<Turn>) {
    forall i :: 0 <= i < |turns| ==> NoRestart(turns[i].before) && NoRestart(turns[i].after)
  }

  predicate NoRestart(hs: seq<Happening>) {
    forall i :: 0 <= i < |hs| ==> hs[i].Append?
  }

  lemma {:induction false} NoRestartKeepsCurrent(w: World, hs: seq<Happening>)
    requires WorldOk(w) && NoRestart(hs)
    ensures HappenAll(w, hs).current == w.current
    decreases |hs|
  {
    if hs != [] {
      NoRestartKeepsCurrent(Happen(w, hs[0]), hs[1..]);
    }
  }

  /** Without a restart the same incarnation stays current. */
  lemma {:induction false} QuietKeepsCurrent(w: World, turns: seq<Turn>)
    requires WorldOk(w) && Quiet(turns)
    ensures WorldAfter(w, turns).current == w.current
    decreases |turns|
  {
    hide Later;
    if turns != [] {
      var k := |turns| - 1;
      QuietKeepsCurrent(w, turns[..k]);
      var w1 := WorldAfter(w, turns[..k]);
      NoRestartKeepsCurrent(w1, turns[k].before);
      NoRestartKeepsCurrent(HappenAll(w1, turns[k].before), turns[k].after);
    }
  }

  datatype Window = Window(data: seq<byte>, nextOffset: nat, incarnation: Option<nat>)

  datatype Cursor = Cursor(incarnation: Option<nat>, offset: nat, running: bool)

  function StreamEnd(w: World): (n: nat)
    requires WorldOk(w)
  {
    if w.current.Some? then |w.streams[w.current.value]| else 0
  }

  /** A slice of the stream that is current. */
  ghost predicate ServedFrom(w: World, from: nat, data: seq<byte>) {
    && w.current.Some? && w.current.value in w.streams
    && from + |data| <= |w.streams[w.current.value]|
    && data == w.streams[w.current.value][from..from + |data|]
  }

  function CursorOf(w: World, running: bool): (c: Cursor)
    requires WorldOk(w)
  {
    Cursor(w.current, StreamEnd(w), running)
  }

  class Daemon {
    var world: World
    var script: seq<Turn>

    constructor (world: World, script: seq<Turn>)
      ensures this.world == world && this.script == script
    {
      this.world, this.script := world, script;
    }

    /** Incarnation and stream end, observed together. */
    method SessionCursor() returns (r: Option<Cursor>, ghost used: seq<Turn>)
      requires WorldOk(world)
      modifies this
      ensures Advanced(old(world), old(script), used, world, script)
      ensures WorldOk(world) && Later(old(world), world)
      ensures if r.None? then used == [] && script == [] else |used| == 1
      ensures r.Some? ==> r.value == CursorOf(world, used[0].running)
    {
      hide Later, WorldOk, WorldAfter;
      used := [];
      OneTurn(world, used);
      if script == [] {
        return None, used;
      }
      var turn := script[0];
      used := [turn];
      OneTurn(world, used);
      world := HappenAll(HappenAll(world, turn.before), turn.after);
      script := script[1..];
      r := Some(Cursor(world.current, StreamEnd(world), turn.running));
    }

    /**
      * A window of the stream that is current when it is read, as long as the turn lets it be; the
      * incarnation is reported later, so a restart in between makes the two disagree.
      */
    method ObserveWindow(from: nat, maxBytes: nat)
      returns (r: Option<Window>, ghost read: World, ghost used: seq<Turn>)
      requires WorldOk(world)
      modifies this
      ensures Advanced(old(world), old(script), used, world, script)
      ensures WorldOk(world) && WorldOk(read) && Later(old(world), read) && Later(read, world)
      ensures if r.None? then used == [] && script == [] else |used| == 1
      ensures r.Some? ==> r.value.incarnation == world.current && r.value.nextOffset == from + |r.value.data|
      ensures r.Some? ==> |r.value.data| <= Max(maxBytes, 1)
      ensures r.Some? ==> (r.value.data == [] <==> used[0].served == 0 || StreamEnd(read) <= from)
      ensures r.Some? && r.value.data != [] ==> ServedFrom(read, from, r.value.data)
    {
      hide Later, WorldOk, WorldAfter;
      read, used := world, [];
      LaterItself(world);
      OneTurn(world, used);
      if script == [] {
        return None, read, used;
      }
      var turn := script[0];
      used := [turn];
      OneTurn(world, used);
      script := script[1..];
      world := HappenAll(world, turn.before);
      read := world;
      CurrentExists(world);
      var data: seq<byte> := [];
      if world.current.Some? {
        var stream := world.streams[world.current.value];
        var limit := Min(Max(maxBytes, 1), MAX_WINDOW_BYTES);
        if from <= |stream| {
          data := stream[from..from + Min(turn.served, Min(limit, |stream| - from))];
        }
      }
      world := HappenAll(world, turn.after);
      r := Some(Window(data, from + |data|, world.current));
    }
  }

  lemma OneTurn(w: World, turns: seq<Turn>)
    requires WorldOk(w) && |turns| <= 1
    ensures WorldAfter(w, turns) ==
      if turns == [] then w else HappenAll(HappenAll(w, turns[0].before), turns[0].after)
    ensures Later(w, WorldAfter(w, turns))
  {
    assert turns != [] ==> turns[..0] == [];
  }

  // ----- the client -----

  datatype Trouble = Lost | NoStream | Restarted | PastEnd | Stalled

  datatype Page = Page(data: seq<byte>, observed: Cursor) | Failed(why: Trouble)

  /** A slice of the pinned incarnation's stream, which must still be the current one. */
  ghost predicate PageOf(w: World, position: StreamPosition, data: seq<byte>) {
    w.current == Some(position.incarnation) && ServedFrom(w, position.offset, data)
  }

  predicate CheckIncarnation(expected: nat, actual: Option<nat>) {
    actual == Some(expected)
  }

  /** An incarnation that was there before is not the current one any more. */
  ghost predicate Replaced(before: World, after: World, incarnation: nat) {
    incarnation in before.streams ==> after.current != Some(incarnation)
  }

  lemma GoneForGood(a: World, b: World, c: World, k: nat)
    requires WorldOk(a) && Later(a, b) && Later(b, c) && b.current != Some(k)
    ensures Replaced(a, c, k)
  {
  }

  lemma EndGrows(a: World, b: World, k: nat)
    requires WorldOk(b) && Later(a, b) && k in a.streams && b.current == Some(k)
    ensures |a.streams[k]| <= StreamEnd(b)
  {
  }

  lemma StillThere(a: World, b: World, k: nat)
    requires Later(a, b) && k in a.streams
    ensures k in b.streams && |a.streams[k]| <= |b.streams[k]|
  {
  }

  lemma CurrentExists(w: World)
    requires WorldOk(w)
    ensures w.current.Some? ==> w.current.value in w.streams
  {
  }

  lemma LaterItself(w: World)
    ensures Later(w, w)
  {
  }

  /**
    * Every page that is returned comes from the pinned incarnation, and every failure has its cause;
    * a page short of the end is empty only if the daemon served nothing.
    */
  method ReadPage(daemon: Daemon, position: StreamPosition, limit: nat) returns (r: Page, ghost used: seq<Turn>)
    requires WorldOk(daemon.world)
    modifies daemon
    ensures Advanced(old(daemon.world), old(daemon.script), used, daemon.world, daemon.script)
    ensures WorldOk(daemon.world) && Later(old(daemon.world), daemon.world)
    ensures |used| <= 3 && (r.Failed? && r.why == Lost ==> |used| <= 2)
    ensures r.Page? ==> used != [] && |r.data| <= limit && PageOf(daemon.world, position, r.data)
    ensures r.Page? && r.data == [] && Before(old(daemon.world), position) && limit > 0 ==> LastPageEmpty(used)
    // together with the page it reports where the stream stood before it was read
    ensures r.Page? ==> r.observed == CursorOf(WorldAfter(old(daemon.world), used[..1]), used[0].running)
    ensures r.Failed? ==> r.why in {Lost, Restarted, PastEnd}
    ensures r.Failed? && r.why == Lost ==> daemon.script == []
    ensures r.Failed? && r.why == Restarted ==> Replaced(old(daemon.world), daemon.world, position.incarnation)
    ensures r.Failed? && r.why == PastEnd && position.incarnation in old(daemon.world).streams ==>
      position.offset > |old(daemon.world).streams[position.incarnation]|
  {
    hide Later, WorldOk, ServedFrom, Replaced, WorldAfter, Advanced, LastPageEmpty;
    var k := position.incarnation;
    ghost var w0, s0 := daemon.world, daemon.script;
    var before;
    before, used := daemon.SessionCursor();
    ghost var first, w1 := used, daemon.world;
    AdvancedTo(w0, s0, first, w1, daemon.script);
    if before.None? {
      return Failed(Lost), used;
    }
    LaterItself(w1);
    if !CheckIncarnation(k, before.value.incarnation) {
      GoneForGood(w0, w1, w1, k);
      return Failed(Restarted), used;
    }
    if k in w0.streams {
      EndGrows(w0, w1, k);
    }
    if position.offset > before.value.offset {
      return Failed(PastEnd), used;
    }
    var limit' := Min(limit, before.value.offset - position.offset);
    var data: seq<byte> := [];
    ghost var read, middle, last := w1, [], [];
    if limit' != 0 {
      ghost var s1 := daemon.script;
      var window;
      window, read, middle := daemon.ObserveWindow(position.offset, limit');
      AdvancedTransitive(w0, s0, first, w1, s1, middle, daemon.world, daemon.script);
      used := first + middle;
      LaterTransitive(w1, read, daemon.world);
      LaterTransitive(w0, w1, daemon.world);
      if window.None? {
        return Failed(Lost), used;
      }
      if !CheckIncarnation(k, window.value.incarnation) {
        LaterItself(daemon.world);
        GoneForGood(w0, daemon.world, daemon.world, k);
        return Failed(Restarted), used;
      }
      data := window.value.data;
    }
    ghost var w2, s2 := daemon.world, daemon.script;
    var after;
    after, last := daemon.SessionCursor();
    AdvancedTransitive(w0, s0, used, w2, s2, last, daemon.world, daemon.script);
    used := used + last;
    ThreeTurns(first, middle, last, used);
    LaterTransitive(w0, w2, daemon.world);
    if after.None? {
      return Failed(Lost), used;
    }
    if !CheckIncarnation(k, after.value.incarnation) {
      LaterItself(daemon.world);
      GoneForGood(w0, daemon.world, daemon.world, k);
      return Failed(Restarted), used;
    }
    LaterTransitive(read, w2, daemon.world);
    Sandwich(w1, read, daemon.world, k);
    CurrentExists(w1);
    EndGrows(w1, read, k);
    SliceKept(read, daemon.world, position, data);
    r := Page(data, before.value);
  }

  lemma AdvancedTo(w: World, script: seq<Turn>, used: seq<Turn>, w': World, script': seq<Turn>)
    requires WorldOk(w) && Advanced(w, script, used, w', script')
    ensures w' == WorldAfter(w, used)
  {
  }

  /** A cursor, perhaps a window, and a cursor again. */
  lemma ThreeTurns(first: seq<Turn>, middle: seq<Turn>, last: seq<Turn>, used: seq<Turn>)
    requires |first| == 1 && |middle| <= 1 && |last| <= 1 && (used == first + last || used == first + middle + last)
    ensures used[..1] == first && used[0] == first[0]
    ensures |middle| == 1 == |last| && middle[0].served == 0 && used == first + middle + last ==> LastPageEmpty(used)
  {
  }

  /** The position is inside its incarnation's stream. */
  predicate Before(w: World, position: StreamPosition) {
    position.incarnation in w.streams && position.offset < |w.streams[position.incarnation]|
  }

  /** The last page, which a cursor request followed, was empty because the daemon served nothing. */
  predicate LastPageEmpty(used: seq<Turn>) {
    |used| >= 2 && used[|used| - 2].served == 0
  }

  lemma LaterPageEmpty(a: seq<Turn>, b: seq<Turn>)
    ensures LastPageEmpty(b) ==> LastPageEmpty(a + b)
  {
  }

  /** A slice of the stream stays what it was while the stream grows. */
  lemma SliceKept(a: World, b: World, position: StreamPosition, data: seq<byte>)
    requires WorldOk(a) && Later(a, b)
    requires a.current == Some(position.incarnation) && b.current == a.current
    requires position.offset <= |a.streams[position.incarnation]|
    requires data != [] ==> PageOf(a, position, data)
    ensures PageOf(b, position, data)
  {
    var k := position.incarnation;
    assert a.streams[k] <= b.streams[k];
    assert forall i :: 0 <= i < |a.streams[k]| ==> b.streams[k][i] == a.streams[k][i];
  }

  /** No restart, and every page has something in it. */
  predicate Smooth(turns: seq<Turn>) {
    Quiet(turns) && forall i :: 0 <= i < |turns| ==> turns[i].served > 0
  }

  /** In a smooth script no page is empty and no incarnation is replaced. */
  lemma SmoothSoFar(w: World, script: seq<Turn>, used: seq<Turn>, w': World, script': seq<Turn>, first: seq<Turn>,
                    pinned: World)
    requires WorldOk(w) && Smooth(script) && Advanced(w, script, used, w', script')
    requires first <= used && pinned == WorldAfter(w, first)
    ensures !LastPageEmpty(used) && w'.current == pinned.current
  {
    hide WorldAfter, WorldOk, Later, NoRestart;
    SmoothPrefix(used, script);
    SmoothPrefix(first, used);
    QuietKeepsCurrent(w, used);
    QuietKeepsCurrent(w, first);
  }

  lemma SmoothPrefix(a: seq<Turn>, b: seq<Turn>)
    requires a <= b && Smooth(b)
    ensures Smooth(a)
  {
    hide NoRestart;
    assert forall i :: 0 <= i < |a| ==> a[i] == b[i];
  }

  datatype Exported = Exported(incarnation: nat, end: nat, bytes: seq<byte>, text: string) | Aborted(why: Trouble)

  /**
    * A finished export wrote exactly the pinned prefix: as bytes, or as one padded base64 string
    * although it was written in pieces. It gives up only when the connection is lost, there is no
    * stream, the session has restarted, or the daemon served an empty page before the end; so while
    * nothing of this happens it finishes, after at most three requests for every byte.
    */
  method RunExport(daemon: Daemon, json: bool) returns (r: Exported, ghost pinned: World, ghost used: seq<Turn>)
    requires WorldOk(daemon.world)
    modifies daemon
    ensures Advanced(old(daemon.world), old(daemon.script), used, daemon.world, daemon.script)
    // the stream is pinned by the first request
    ensures pinned == WorldAfter(old(daemon.world), if used == [] then [] else used[..1])
    ensures WorldOk(daemon.world) && Later(pinned, daemon.world)
    ensures r.Exported? ==>
      pinned.current == Some(r.incarnation) && r.end == |pinned.streams[r.incarnation]|
    ensures r.Exported? && !json ==> r.bytes == pinned.streams[r.incarnation]
    ensures r.Exported? && json ==>
      r.text == Base64.Encode(pinned.streams[r.incarnation], Base64.Standard, true)
    ensures r.Exported? && json ==>
      Base64.DecodePadded(r.text, Base64.Standard) == Some(pinned.streams[r.incarnation])
    ensures r.Aborted? ==> r.why in {Lost, NoStream, Restarted, Stalled}
    ensures r.Aborted? && r.why == Lost ==> daemon.script == []
    ensures r.Aborted? && r.why == NoStream ==> pinned.current == None
    ensures r.Aborted? && r.why == Restarted ==> pinned.current.Some? && daemon.world.current != pinned.current
    ensures r.Aborted? && r.why == Stalled ==>
      pinned.current.Some? && daemon.world.current == pinned.current && LastPageEmpty(used)
    ensures Smooth(old(daemon.script)) && pinned.current.Some? && |old(daemon.script)| > 3 * StreamEnd(pinned) ==>
      r.Exported?
  {
    hide Later, WorldOk, ServedFrom, Base64.Encode, Base64.DecodePadded, WorldAfter;
    ghost var w0, s0 := daemon.world, daemon.script;
    var observed;
    observed, used := daemon.SessionCursor();
    ghost var first := used;
    pinned := daemon.world;
    LaterItself(pinned);
    assert used != [] ==> used[..1] == used;
    if observed.None? {
      return Aborted(Lost), pinned, used;
    }
    if observed.value.incarnation.None? {
      return Aborted(NoStream), pinned, used;
    }
    CurrentExists(pinned);
    var incarnation, end := observed.value.incarnation.value, observed.value.offset;
    var position := StreamPosition(incarnation, 0);
    var bytes: seq<byte> := [];
    var text, carry := "", [];
    ghost var stream := pinned.streams[incarnation];
    ghost var head: seq<byte> := [];  // what the text written so far encodes
    Base64.NothingEncoded(head, Base64.Standard, true);
    while position.offset < end
      invariant Advanced(w0, s0, used, daemon.world, daemon.script) && used != [] && used[..1] == first
      invariant WorldOk(daemon.world) && Later(pinned, daemon.world)
      invariant !Smooth(s0) || |used| <= 1 + 3 * position.offset
      invariant position.incarnation == incarnation && position.offset <= end == |stream|
      invariant !json ==> bytes == stream[..position.offset]
      invariant json ==> head + carry == stream[..position.offset]
      invariant |head| % 3 == 0 && |carry| < 3 && text == Base64.Encode(head, Base64.Standard, true)
      decreases |daemon.script|
    {
      var limit := Min(end - position.offset, EXPORT_PAGE_BYTES);
      ghost var before, script := daemon.world, daemon.script;
      var page;
      ghost var more;
      page, more := ReadPage(daemon, position, limit);
      AdvancedTransitive(w0, s0, used, before, script, more, daemon.world, daemon.script);
      ghost var earlier := used;
      used := earlier + more;
      assert used[..1] == earlier[..1];
      LaterPageEmpty(earlier, more);
      if Smooth(s0) {
        SmoothSoFar(w0, s0, used, daemon.world, daemon.script, used[..1], pinned);
      }
      LaterTransitive(pinned, before, daemon.world);
      StillThere(pinned, before, incarnation);
      if page.Failed? {
        return Aborted(page.why), pinned, used;
      }
      if page.data == [] {
        if * {  // nothing arrived for 30 seconds
          return Aborted(Stalled), pinned, used;
        }
        continue;
      }
      PageExtends(pinned, daemon.world, position, page.data, stream);
      position := position.(offset := position.offset + |page.data|);
      if json {
        text, carry, head := EncodeReady(text, carry, page.data, head);
      } else {
        bytes := bytes + page.data;
      }
    }
    assert stream[..end] == stream;
    if json {
      Base64.EncodeSplit(head, carry, head + carry, Base64.Standard, true);
      text := text + Base64.Encode(carry, Base64.Standard, true);
      Base64.PaddedRoundTrip(stream, Base64.Standard);
    }
    r := Exported(incarnation, end, bytes, text);
  }

  lemma PageExtends(pinned: World, now: World, position: StreamPosition, data: seq<byte>, stream: seq<byte>)
    requires Later(pinned, now) && position.incarnation in pinned.streams
    requires stream == pinned.streams[position.incarnation]
    requires PageOf(now, position, data) && position.offset + |data| <= |stream|
    ensures stream[..position.offset] + data == stream[..position.offset + |data|]
  {
    var k := position.incarnation;
    assert stream <= now.streams[k];
    assert forall i :: 0 <= i < |stream| ==> now.streams[k][i] == stream[i];
  }

  /** Write out whole groups of three bytes and carry the rest. */
  method EncodeReady(text: string, carry: seq<byte>, data: seq<byte>, ghost head: seq<byte>)
    returns (text': string, carry': seq<byte>, ghost head': seq<byte>)
    requires |head| % 3 == 0 && text == Base64.Encode(head, Base64.Standard, true)
    ensures |head'| % 3 == 0 && text' == Base64.Encode(head', Base64.Standard, true)
    ensures |carry'| < 3 && head' + carry' == head + carry + data
  {
    hide Base64.Encode;
    var all := carry + data;
    var complete := |all| / 3 * 3;
    text' := text + Base64.Encode(all[..complete], Base64.Standard, true);
    carry' := all[complete..];
    head' := head + all[..complete];
    Base64.EncodeSplit(head, all[..complete], head', Base64.Standard, true);
    ConcatAssoc(head, all[..complete], carry');
    ConcatAssoc(head, carry, data);
    assert all[..complete] + all[complete..] == all;
  }
}
