/**
  * Whole attach sessions: output chunks, window changes and the resizes that the renderer hears of.
  * What the outer terminal shows at every point is a function of these events alone.
  */
module AttachSession {
  import opened Bytes
  import opened TerminalEngine
  import opened OuterTerminal
  import opened AttachRenderer

  /** After the snapshot: output chunks, window changes, and the renderer hearing of them. */
  datatype Event =
    | Chunk(ops: seq<Op>)
    | WindowResize(window: Window)
    | EngineResize(reflowed: Engine)

  /** What the outer terminal makes of its own screen when its window changes: anything of the new size. */
  datatype Window = Window(rows: seq<Cell>, mainRows: seq<Cell>, width: nat, cursorRow: nat, cursorCol: Column)

  predicate WindowOk(w: Window) {
    |w.rows| == |w.mainRows| && w.cursorRow < |w.rows| && w.width > 0
  }

  /** The window reflows its own screen; what commands pushed to scrollback stays. */
  function Reflow(t: Outer, w: Window): (r: Outer) {
    t.(rows := w.rows, mainRows := w.mainRows, cursorRow := w.cursorRow, cursorCol := w.cursorCol, width := w.width,
       margins := None)
  }

  /** What a session should look like at one point, from its events alone. */
  datatype View = View(
    screen: Screen,             // the engine's
    height: nat, width: nat,    // the window's
    repaintDue: bool,
    drawing: Option<Drawing>,   // the window's; not said after a chunk that met another size than the engine's
    history: seq<Cell>,         // all rows that scrolled off since the last clear
    scrollback: seq<Cell>,      // those of them that the window keeps
    lost: nat)                  // how many it does not

  predicate SameSizeAs(v: View, s: Screen) {
    v.height == |s.rows| && v.width == s.width
  }

  function FirstView(start: Outer, s: Screen): (v: View) {
    View(s, |start.rows|, start.width, false, if Fits(start, s) then Some(Picture(s)) else None,
         start.scrollback, start.scrollback, 0)
  }

  /** What a chunk makes of the window: all of the screen, or exactly the rows that it changes. */
  function DrawingAfter(v: View, ops: seq<Op>): (d: Option<Drawing>) {
    var after := FinalScreen(v.screen, ops);
    if !SameSizeAs(v, after) then None
    else if v.repaintDue || Stirs(v.screen, ops) then Some(Picture(after))
    else if v.drawing.None? || |v.drawing.value.rows| != |v.screen.rows| || |v.screen.rows| != |after.rows| then None
    else Some(Diffed(v.drawing.value, v.screen, after))
  }

  function NextView(v: View, e: Event): (v': View) {
    match e
    case Chunk(ops) =>
      var kept := v.height <= |v.screen.rows|;
      View(FinalScreen(v.screen, ops), v.height, v.width, false, DrawingAfter(v, ops),
           Scrollback(v.history, ops, true), Scrollback(v.scrollback, ops, kept), LostRows(v.lost, ops, kept))
    case WindowResize(w) =>
      v.(height := |w.rows|, width := w.width, drawing := Some(Drawing(w.rows, w.cursorRow, w.cursorCol)))
    case EngineResize(reflowed) => v.(screen := reflowed.screen, repaintDue := true)
  }

  function ViewAt(v: View, events: seq<Event>, k: nat): (r: View)
    requires k <= |events|
  {
    if k == 0 then v else NextView(ViewAt(v, events, k - 1), events[k - 1])
  }

  predicate EventOk(v: View, e: Event) {
    match e
    case Chunk(ops) => OpsOk(v.screen, ops)
    case WindowResize(w) => WindowOk(w)
    case EngineResize(reflowed) => EngineOk(reflowed) && reflowed.screen.alt == v.screen.alt
  }

  predicate EventsOk(v: View, events: seq<Event>) {
    forall k :: 0 <= k < |events| ==> EventOk(ViewAt(v, events, k), events[k])
  }

  predicate WindowsOk(events: seq<Event>) {
    forall k :: 0 <= k < |events| && events[k].WindowResize? ==> WindowOk(events[k].window)
  }

  /** The outer terminal after `k` events: it runs what was sent to it and reflows when resized. */
  function TerminalAt(start: Outer, outs: seq<seq<Command>>, events: seq<Event>, k: nat): (r: Outer)
    requires OuterOk(start) && WindowsOk(events) && k <= |events| && k < |outs|
    ensures OuterOk(r)
  {
    if k == 0 then Run(start, outs[0])
    else
      var t := TerminalAt(start, outs, events, k - 1);
      match events[k - 1]
      case WindowResize(w) => Reflow(t, w)
      case _ => Run(t, outs[k])
  }

  /** The terminal looks as the session should at this point. */
  predicate Looks(t: Outer, v: View) {
    && Plain(t) && !t.sync && t.alt == v.screen.alt && |t.rows| == v.height && t.width == v.width
    && t.scrollback == v.scrollback
    && (!v.repaintDue ==> t.visible == v.screen.visible)
    && (v.drawing.Some? ==> DrawingOf(t) == v.drawing.value)
  }

  /** The renderer and the terminal are where the session's events put them. */
  ghost predicate Tracks(renderer: AttachRenderer, t: Outer, v: View)
    reads renderer
  {
    && renderer.Valid() && renderer.Attached(t) && renderer.engine.screen == v.screen && Looks(t, v)
    && renderer.needsFullRepaint == v.repaintDue
    && (!v.repaintDue ==> renderer.CacheCurrent())
  }

  lemma {:induction false} TerminalKept(start: Outer, outs: seq<seq<Command>>, outs': seq<seq<Command>>,
                                        events: seq<Event>, k: nat)
    requires OuterOk(start) && WindowsOk(events) && k <= |events| && k < |outs| && outs <= outs'
    ensures TerminalAt(start, outs', events, k) == TerminalAt(start, outs, events, k)
    decreases k
  {
    hide Run;
    assert outs'[k] == outs[k];
    if k > 0 {
      TerminalKept(start, outs, outs', events, k - 1);
    }
  }

  /** One event: what is sent, and how the terminal looks after it. */
  method HandleEvent(renderer: AttachRenderer, e: Event, ghost t: Outer, ghost v: View)
    returns (out: seq<Command>, ghost t': Outer)
    requires Tracks(renderer, t, v) && EventOk(v, e)
    modifies renderer
    ensures !e.Chunk? ==> out == []
    ensures t' == if e.WindowResize? then Reflow(t, e.window) else Run(t, out)
    ensures Tracks(renderer, t', NextView(v, e)) && Looks(t', NextView(v, e))
    ensures Synchronized(t, e, out)
  {
    hide OneUpdate, DrawsInside, Run, Exec, Scrollback, LostRows, Picture, Diffed, Stirs, FinalScreen;
    out := [];
    Run1(t, []);
    match e {
      case Chunk(ops) =>
        out := renderer.RenderChunk(ops, t);
        t' := Run(t, out);
      case WindowResize(w) =>
        t' := Reflow(t, w);
      case EngineResize(reflowed) =>
        renderer.Resize(reflowed);
        t' := t;
    }
  }

  method Start(blank: Engine, restored: Engine, ghost start: Outer)
    returns (renderer: AttachRenderer, out: seq<Command>)
    requires EngineOk(blank) && EngineOk(restored) && SameSize(blank.screen, restored.screen)
    requires OuterOk(start) && !start.sync
    ensures fresh(renderer) && Tracks(renderer, Run(start, out), FirstView(start, restored.screen))
    ensures Looks(Run(start, out), FirstView(start, restored.screen))
  {
    hide Run, Picture;
    renderer := new AttachRenderer(|blank.screen.rows|, blank.screen.width, blank);
    out := renderer.RenderInitial(restored, start);
    if Fits(start, restored.screen) {
      FullDrawing(Run(start, out), restored.screen);
    }
  }

  /** At each of the first `n` points the terminal looks as it should. */
  ghost predicate AllLook(start: Outer, outs: seq<seq<Command>>, events: seq<Event>, v: View, n: nat)
    requires OuterOk(start) && WindowsOk(events) && n <= |events| + 1 && n <= |outs|
  {
    forall k :: 0 <= k < n ==> Looks(TerminalAt(start, outs, events, k), ViewAt(v, events, k))
  }

  ghost predicate Synchronized(t: Outer, e: Event, out: seq<Command>)
    requires OuterOk(t)
  {
    e.Chunk? ==> OneUpdate(out) && DrawsInside(t, out)
  }

  /** Each of the first `n` chunks is drawn inside one synchronized update. */
  ghost predicate AllSynchronized(start: Outer, outs: seq<seq<Command>>, events: seq<Event>, n: nat)
    requires OuterOk(start) && WindowsOk(events) && n <= |events| && n < |outs|
  {
    forall k :: 0 <= k < n ==> Synchronized(TerminalAt(start, outs, events, k), events[k], outs[k + 1])
  }

  lemma FirstLook(start: Outer, out: seq<Command>, events: seq<Event>, v: View)
    requires OuterOk(start) && WindowsOk(events) && Looks(Run(start, out), v)
    ensures TerminalAt(start, [out], events, 0) == Run(start, out) && ViewAt(v, events, 0) == v
    ensures AllLook(start, [out], events, v, 1) && AllSynchronized(start, [out], events, 0)
  {
    hide Run, Looks;
  }

  /** One event more: `t'` is what it makes of the terminal. */
  lemma NextAt(start: Outer, outs: seq<seq<Command>>, events: seq<Event>, v: View, n: nat, t': Outer)
    requires OuterOk(start) && WindowsOk(events) && n < |events| && |outs| == n + 2
    requires var t := TerminalAt(start, outs, events, n);
      t' == if events[n].WindowResize? then Reflow(t, events[n].window) else Run(t, outs[n + 1])
    ensures ViewAt(v, events, n + 1) == NextView(ViewAt(v, events, n), events[n])
    ensures TerminalAt(start, outs, events, n + 1) == t'
  {
    hide Run, NextView, Reflow;
  }

  lemma OneMore(start: Outer, earlier: seq<seq<Command>>, out: seq<Command>, events: seq<Event>, v: View, n: nat,
                t': Outer)
    requires OuterOk(start) && WindowsOk(events) && n < |events| && |earlier| == n + 1
    requires AllLook(start, earlier, events, v, n + 1)
    requires var t := TerminalAt(start, earlier, events, n);
      t' == if events[n].WindowResize? then Reflow(t, events[n].window) else Run(t, out)
    requires Looks(t', NextView(ViewAt(v, events, n), events[n]))
    requires AllSynchronized(start, earlier, events, n)
    requires Synchronized(TerminalAt(start, earlier, events, n), events[n], out)
    ensures ViewAt(v, events, n + 1) == NextView(ViewAt(v, events, n), events[n])
    ensures TerminalAt(start, earlier + [out], events, n + 1) == t'
    ensures AllLook(start, earlier + [out], events, v, n + 2)
    ensures AllSynchronized(start, earlier + [out], events, n + 1)
  {
    hide Run, Looks, NextView, Reflow, Synchronized, OuterOk, WindowsOk, TerminalAt, ViewAt;
    var outs := earlier + [out];
    forall k | 0 <= k <= n ensures TerminalAt(start, outs, events, k) == TerminalAt(start, earlier, events, k) {
      TerminalKept(start, earlier, outs, events, k);
    }
    assert forall j :: 0 <= j <= n ==> outs[j] == earlier[j];
    NextAt(start, outs, events, v, n, t');
    assert outs[n + 1] == out;
  }

  /**
    * Any session, of a client that drives the terminal or of one that only observes: at every point
    * the outer terminal, having run everything that was sent to it, looks as the events demand: its
    * drawing is what the events make of it, row by row, and its scrollback holds the rows that
    * scrolled off while the window was not taller than the engine. What a chunk draws is drawn
    * inside one synchronized update.
    */
  method Session(blank: Engine, restored: Engine, events: seq<Event>, ghost start: Outer)
    returns (outs: seq<seq<Command>>)
    requires EngineOk(blank) && EngineOk(restored) && SameSize(blank.screen, restored.screen)
    requires OuterOk(start) && !start.sync
    requires EventsOk(FirstView(start, restored.screen), events) && WindowsOk(events)
    ensures |outs| == |events| + 1
    ensures forall k :: 0 <= k < |events| && !events[k].Chunk? ==> outs[k + 1] == []
    ensures AllLook(start, outs, events, FirstView(start, restored.screen), |events| + 1)
    ensures AllSynchronized(start, outs, events, |events|)
  {
    hide Synchronized, AllSynchronized, Run, Looks, NextView, EventOk, FirstView, OuterOk, EngineOk, SameSize,
         WindowsOk, Reflow, AllLook, TerminalAt, ViewAt, Tracks;
    ghost var v0 := FirstView(start, restored.screen);
    var renderer, out := Start(blank, restored, start);
    outs := [out];
    ghost var t := Run(start, out);
    FirstLook(start, out, events, v0);
    var n := 0;
    while n < |events|
      invariant 0 <= n <= |events| && |outs| == n + 1 && fresh(renderer)
      invariant t == TerminalAt(start, outs, events, n) && Tracks(renderer, t, ViewAt(v0, events, n))
      invariant forall k :: 0 <= k < n && !events[k].Chunk? ==> outs[k + 1] == []
      invariant AllLook(start, outs, events, v0, n + 1) && AllSynchronized(start, outs, events, n)
    {
      out, t := HandleEvent(renderer, events[n], t, ViewAt(v0, events, n));
      OneMore(start, outs, out, events, v0, n, t);
      outs := outs + [out];
      n := n + 1;
    }
  }

  // ----- scrollback and history -----

  /** Scrollback falls short of the session's history by exactly the rows that were lost. */
  lemma {:induction false} ScrollbackFallsShort(start: Outer, s: Screen, events: seq<Event>, k: nat)
    requires k <= |events|
    ensures var v := ViewAt(FirstView(start, s), events, k);
      Behind(v.scrollback, v.history, v.lost) && (v.scrollback == v.history <==> v.lost == 0)
  {
    hide Scrollback, LostRows;
    if k > 0 {
      ScrollbackFallsShort(start, s, events, k - 1);
      var v := ViewAt(FirstView(start, s), events, k - 1);
      if events[k - 1].Chunk? {
        StaysBehind(v.scrollback, v.history, v.lost, events[k - 1].ops, v.height <= |v.screen.rows|);
      }
    }
  }

  /** No chunk among the first `k` events meets a window taller than the engine. */
  predicate NeverTaller(v: View, events: seq<Event>, k: nat)
    requires k <= |events|
  {
    k > 0 ==>
      && NeverTaller(v, events, k - 1)
      && (events[k - 1].Chunk? ==> NotTaller(ViewAt(v, events, k - 1)))
  }

  predicate NotTaller(v: View) {
    v.height <= |v.screen.rows|
  }

  /** Nothing is lost while no chunk is rendered to a window taller than the engine. */
  lemma {:induction false} NothingLost(v: View, events: seq<Event>, k: nat)
    requires k <= |events| && v.lost == 0 && NeverTaller(v, events, k)
    ensures ViewAt(v, events, k).lost == 0
    decreases k
  {
    hide NextView;
    if k > 0 {
      NothingLost(v, events, k - 1);
      NextLosesNothing(ViewAt(v, events, k - 1), events[k - 1]);
    }
  }

  lemma NextLosesNothing(v: View, e: Event)
    requires v.lost == 0 && (e.Chunk? ==> NotTaller(v))
    ensures NextView(v, e).lost == 0
  {
    hide Scrollback, LostRows, FinalScreen;
    if e.Chunk? {
      KeptIsNotLost(e.ops);
    }
  }

  lemma {:induction false} KeptIsNotLost(ops: seq<Op>)
    ensures LostRows(0, ops, true) == 0
  {
    if ops != [] {
      KeptIsNotLost(ops[1..]);
    }
  }

  // ----- when the window is faithful -----

  /** The window has the engine's size and shows its screen. */
  predicate InStep(v: View) {
    SameSizeAs(v, v.screen) && v.drawing == Some(Picture(v.screen))
  }

  /** The drawing has the window's size, and is left open only for another size or before a repaint. */
  predicate Said(v: View) {
    && ScreenOk(v.screen)
    && (v.drawing.Some? ==> |v.drawing.value.rows| == v.height)
    && (v.drawing.None? ==> v.repaintDue || !SameSizeAs(v, v.screen))
  }

  lemma {:induction false} DrawingIsSaid(v: View, events: seq<Event>, k: nat)
    requires k <= |events| && EventsOk(v, events) && Said(v)
    ensures Said(ViewAt(v, events, k))
    decreases k
  {
    hide NextView, Said, EventOk;
    if k > 0 {
      DrawingIsSaid(v, events, k - 1);
      assert EventOk(ViewAt(v, events, k - 1), events[k - 1]);
      NextIsSaid(ViewAt(v, events, k - 1), events[k - 1]);
    }
  }

  lemma NextIsSaid(v: View, e: Event)
    requires Said(v) && EventOk(v, e)
    ensures Said(NextView(v, e))
  {
    hide Scrollback, LostRows, Picture, Stirs, FinalScreen, OpsOk;
    if e.Chunk? {
      ReportedIsOk(v.screen, e.ops);
      PictureSize(FinalScreen(v.screen, e.ops));
    }
  }

  lemma FirstIsSaid(start: Outer, s: Screen)
    requires ScreenOk(s)
    ensures Said(FirstView(start, s))
  {
    PictureSize(s);
  }

  lemma PictureSize(s: Screen)
    ensures |Picture(s).rows| == |s.rows|
  {
  }

  /** Unless a repaint is due, the terminal is faithful exactly when the events leave it in step. */
  lemma FaithfulIffInStep(t: Outer, v: View)
    requires Looks(t, v) && !v.repaintDue && Said(v)
    ensures Faithful(t, v.screen) <==> InStep(v)
  {
    if v.drawing.Some? {
      FaithfulWithDrawing(t, v);
    }
  }

  /** At every point of a session, unless a repaint is due. */
  lemma SessionFaithfulIff(start: Outer, s: Screen, events: seq<Event>, k: nat, t: Outer)
    requires k <= |events| && ScreenOk(s) && EventsOk(FirstView(start, s), events)
    requires Looks(t, ViewAt(FirstView(start, s), events, k)) && !ViewAt(FirstView(start, s), events, k).repaintDue
    ensures var v := ViewAt(FirstView(start, s), events, k);
      Faithful(t, v.screen) <==> InStep(v)
  {
    hide Looks, InStep, Said, ViewAt, EventsOk;
    FirstIsSaid(start, s);
    DrawingIsSaid(FirstView(start, s), events, k);
    FaithfulIffInStep(t, ViewAt(FirstView(start, s), events, k));
  }

  /**
    * A chunk that meets a window of the engine's size brings it in step if a repaint was due, or if
    * it scrolls or switches buffers; and a window in step stays so.
    */
  lemma ChunkBringsInStep(v: View, ops: seq<Op>)
    requires OpsOk(v.screen, ops) && ScreenOk(v.screen) && SameSizeAs(v, v.screen)
    requires v.repaintDue || Stirs(v.screen, ops) || InStep(v)
    ensures InStep(NextView(v, Chunk(ops)))
  {
    hide Scrollback, LostRows, Stirs, FinalScreen;
    ReportedIsOk(v.screen, ops);
    if !v.repaintDue && !Stirs(v.screen, ops) {
      PictureSize(v.screen);
      DiffOfPicture(v.screen, FinalScreen(v.screen, ops));
    }
  }

  // ----- a window change that the renderer does not hear of -----

  predicate OnlyChunks(events: seq<Event>, i: nat, k: nat)
    requires i <= k <= |events|
  {
    forall m :: i <= m < k ==> events[m].Chunk?
  }

  /** Some chunk in between scrolled or switched buffers. */
  predicate Stirred(v: View, events: seq<Event>, i: nat, k: nat)
    requires i <= k <= |events| && OnlyChunks(events, i, k)
    decreases k
  {
    i < k && (Stirred(v, events, i, k - 1) || Stirs(ViewAt(v, events, k - 1).screen, events[k - 1].ops))
  }

  /** Some chunk in between changed the engine's row `j`. */
  predicate Redrawn(v: View, events: seq<Event>, i: nat, k: nat, j: nat)
    requires i <= k <= |events|
    decreases k
  {
    i < k &&
    var before, after := ViewAt(v, events, k - 1).screen.rows, ViewAt(v, events, k).screen.rows;
    Redrawn(v, events, i, k - 1, j) || !SameAt(before, after, j)
  }

  /** Some chunk in between changed anything that is shown. */
  predicate Touched(v: View, events: seq<Event>, i: nat, k: nat)
    requires i <= k <= |events|
    decreases k
  {
    i < k &&
    (Touched(v, events, i, k - 1) || !SameScreen(ViewAt(v, events, k - 1).screen, ViewAt(v, events, k).screen))
  }

  /** A drawing in which exactly the rows that changed since, and the cursor if anything did, are the engine's. */
  predicate Mixed(v: View, events: seq<Event>, i: nat, k: nat, was: Drawing, now: Drawing)
    requires i <= k <= |events|
  {
    var s := ViewAt(v, events, k).screen;
    && |now.rows| == |was.rows| == |s.rows|
    && (forall j :: 0 <= j < |s.rows| ==>
          now.rows[j] == if Redrawn(v, events, i, k, j) then Shown(s.rows[j]) else was.rows[j])
    && now.cursorRow == (if Touched(v, events, i, k) then s.cursorRow else was.cursorRow)
    && now.cursorCol == (if Touched(v, events, i, k) then At(s.cursorCol) else was.cursorCol)
  }

  /** A point from which on only chunks follow, at a window of the engine's size with any drawing. */
  predicate Unheard(v: View, events: seq<Event>, i: nat, k: nat)
    requires i <= k <= |events|
  {
    var at := ViewAt(v, events, i);
    && EventsOk(v, events) && OnlyChunks(events, i, k)
    && Said(at) && !at.repaintDue && SameSizeAs(at, at.screen)
  }

  lemma {:induction false} UnheardWindow(v: View, events: seq<Event>, i: nat, k: nat)
    requires i <= k <= |events| && Unheard(v, events, i, k)
    ensures var now := ViewAt(v, events, k);
      && !now.repaintDue && ScreenOk(now.screen) && SameSizeAs(now, now.screen)
      && if Stirred(v, events, i, k) then InStep(now)
         else now.drawing.Some? && Mixed(v, events, i, k, ViewAt(v, events, i).drawing.value, now.drawing.value)
    decreases k
  {
    hide Mixed, InStep, Stirs, NextView, EventsOk;
    if i == k {
      MixedAtFirst(v, events, i);
    } else {
      UnheardWindow(v, events, i, k - 1);
      UnheardStep(v, events, i, k - 1);
    }
  }

  lemma MixedAtFirst(v: View, events: seq<Event>, i: nat)
    requires i <= |events| && ViewAt(v, events, i).drawing.Some?
    requires |ViewAt(v, events, i).drawing.value.rows| == |ViewAt(v, events, i).screen.rows|
    ensures Mixed(v, events, i, i, ViewAt(v, events, i).drawing.value, ViewAt(v, events, i).drawing.value)
  {
  }

  /** A chunk keeps the size; without a repaint it redraws exactly the rows that it changes. */
  lemma NextChunk(v: View, ops: seq<Op>)
    requires OpsOk(v.screen, ops) && ScreenOk(v.screen) && SameSizeAs(v, v.screen) && !v.repaintDue
    ensures var now := NextView(v, Chunk(ops));
      && !now.repaintDue && ScreenOk(now.screen) && SameSizeAs(now, now.screen) && SameSize(v.screen, now.screen)
      && (!Stirs(v.screen, ops) && v.drawing.Some? && |v.drawing.value.rows| == |v.screen.rows| ==>
            now.drawing == Some(Diffed(v.drawing.value, v.screen, now.screen)))
  {
    hide Scrollback, LostRows, Stirs, FinalScreen, OpsOk, Diffed, Picture;
    ReportedIsOk(v.screen, ops);
  }

  lemma UnheardStep(v: View, events: seq<Event>, i: nat, k: nat)
    requires i <= k < |events| && EventsOk(v, events) && OnlyChunks(events, i, k + 1)
    requires ViewAt(v, events, i).drawing.Some?
    requires var now := ViewAt(v, events, k);
      && !now.repaintDue && ScreenOk(now.screen) && SameSizeAs(now, now.screen)
      && if Stirred(v, events, i, k) then InStep(now)
         else now.drawing.Some? && Mixed(v, events, i, k, ViewAt(v, events, i).drawing.value, now.drawing.value)
    ensures var now := ViewAt(v, events, k + 1);
      && !now.repaintDue && ScreenOk(now.screen) && SameSizeAs(now, now.screen)
      && if Stirred(v, events, i, k + 1) then InStep(now)
         else now.drawing.Some? && Mixed(v, events, i, k + 1, ViewAt(v, events, i).drawing.value, now.drawing.value)
  {
    hide Mixed, InStep, Stirs, NextView, Diffed, OpsOk, Redrawn, Touched;
    var before, ops := ViewAt(v, events, k), events[k].ops;
    assert EventOk(before, events[k]) && events[k] == Chunk(ops);
    assert ViewAt(v, events, k + 1) == NextView(before, Chunk(ops));
    NextChunk(before, ops);
    if Stirred(v, events, i, k + 1) {
      ChunkBringsInStep(before, ops);
    } else {
      MixedStep(v, events, i, k, ViewAt(v, events, i).drawing.value, before.drawing.value);
    }
  }

  lemma MixedStep(v: View, events: seq<Event>, i: nat, k: nat, was: Drawing, d: Drawing)
    requires i <= k < |events|
    requires SameSize(ViewAt(v, events, k).screen, ViewAt(v, events, k + 1).screen)
    requires Mixed(v, events, i, k, was, d)
    ensures |d.rows| == |ViewAt(v, events, k).screen.rows|
    ensures Mixed(v, events, i, k + 1, was, Diffed(d, ViewAt(v, events, k).screen, ViewAt(v, events, k + 1).screen))
  {
    hide ViewAt;
    var before, after := ViewAt(v, events, k).screen, ViewAt(v, events, k + 1).screen;
    var now := Diffed(d, before, after);
    forall j | 0 <= j < |after.rows|
      ensures now.rows[j] == if Redrawn(v, events, i, k + 1, j) then Shown(after.rows[j]) else was.rows[j]
    {
      assert Redrawn(v, events, i, k + 1, j) <==>
        Redrawn(v, events, i, k, j) || !SameAt(before.rows, after.rows, j);
    }
    assert Touched(v, events, i, k + 1) <==> Touched(v, events, i, k) || !SameScreen(before, after);
  }

  /**
    * The window is in step again if and only if some chunk since scrolled or switched buffers, or
    * else every row was redrawn or already showed the engine's, and so was the cursor.
    */
  lemma UnheardWindowIff(v: View, events: seq<Event>, i: nat, k: nat)
    requires i <= k <= |events| && Unheard(v, events, i, k)
    ensures InStep(ViewAt(v, events, k)) <==>
      || Stirred(v, events, i, k)
      || Caught(v, events, i, k, ViewAt(v, events, i).drawing.value)
  {
    hide ViewAt, Stirred, Redrawn, Touched;
    UnheardWindow(v, events, i, k);
    if !Stirred(v, events, i, k) {
      var now, was := ViewAt(v, events, k), ViewAt(v, events, i).drawing.value;
      var d := now.drawing.value;
      if InStep(now) {
        assert forall j :: 0 <= j < |d.rows| ==> d.rows[j] == Shown(now.screen.rows[j]);
      }
      if Caught(v, events, i, k, was) {
        assert d.rows == Cells(now.screen.rows);
      }
    }
  }

  predicate Caught(v: View, events: seq<Event>, i: nat, k: nat, was: Drawing)
    requires i <= k <= |events|
  {
    var s := ViewAt(v, events, k).screen;
    && |was.rows| == |s.rows|
    && (forall j :: 0 <= j < |s.rows| ==> Redrawn(v, events, i, k, j) || was.rows[j] == Shown(s.rows[j]))
    && (Touched(v, events, i, k) || (was.cursorRow == s.cursorRow && was.cursorCol == At(s.cursorCol)))
  }

  /** The same of the terminal itself. */
  lemma UnheardWindowIsFaithfulIff(t: Outer, v: View, events: seq<Event>, i: nat, k: nat)
    requires i <= k <= |events| && Unheard(v, events, i, k) && Looks(t, ViewAt(v, events, k))
    ensures Faithful(t, ViewAt(v, events, k).screen) <==>
      Stirred(v, events, i, k) || Caught(v, events, i, k, ViewAt(v, events, i).drawing.value)
  {
    hide ViewAt, Stirred, Caught, Mixed, InStep;
    UnheardWindow(v, events, i, k);
    UnheardWindowIff(v, events, i, k);
    FaithfulWithDrawing(t, ViewAt(v, events, k));
  }

  lemma FaithfulWithDrawing(t: Outer, v: View)
    requires Looks(t, v) && !v.repaintDue && (v.drawing.Some? || InStep(v))
    ensures Faithful(t, v.screen) <==> InStep(v)
  {
    if Faithful(t, v.screen) {
      FullDrawing(t, v.screen);
    }
    if InStep(v) {
      assert t.rows == Cells(v.screen.rows);
    }
  }
}
