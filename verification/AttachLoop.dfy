/**
  * The attach loop around the renderer: window changes, queued resize events, notices of other
  * clients' resizes and output, in any order. The sizes that the loop compares are those of the
  * window and of the engine, so that they say when the window can be faithful.
  */
module AttachLoop {
  import opened Bytes
  import opened TerminalEngine
  import opened OuterTerminal
  import opened AttachRenderer
  import opened AttachSession
  import WindowSize

  datatype LoopEvent =
    | Output(ops: seq<Op>)
    | WindowChange(window: Window)       // the user resizes the window
    | ResizeHandled(reflowed: Engine)    // a queued resize event; `reflowed` if the renderer is resized
    | PeerNotice                         // another client resized the session

  datatype Loop = Loop(sizes: WindowSize.State, view: View)

  predicate Resizes(l: Loop, canDrive: bool) {
    canDrive && l.sizes.actual != l.sizes.lastSent
  }

  function SizeEvent(e: LoopEvent): (r: seq<WindowSize.Event>) {
    match e
    case Output(_) => []
    case WindowChange(w) => [WindowSize.WindowChanged(WindowSize.Size(|w.rows|, w.width))]
    case ResizeHandled(_) => [WindowSize.ResizeHandled]
    case PeerNotice => [WindowSize.PeerResized]
  }

  /** What the renderer and the terminal notice of an event. */
  function SessionEvent(l: Loop, canDrive: bool, e: LoopEvent): (r: seq<Event>) {
    match e
    case Output(ops) => [Chunk(ops)]
    case WindowChange(w) => [WindowResize(w)]
    case ResizeHandled(reflowed) => if Resizes(l, canDrive) then [EngineResize(reflowed)] else []
    case PeerNotice => []
  }

  function Next(l: Loop, canDrive: bool, e: LoopEvent): (r: Loop) {
    var size, session := SizeEvent(e), SessionEvent(l, canDrive, e);
    Loop(if size == [] then l.sizes else WindowSize.Step(l.sizes, canDrive, size[0]),
         if session == [] then l.view else NextView(l.view, session[0]))
  }

  function LoopAt(l: Loop, canDrive: bool, events: seq<LoopEvent>, k: nat): (r: Loop)
    requires k <= |events|
  {
    if k == 0 then l else Next(LoopAt(l, canDrive, events, k - 1), canDrive, events[k - 1])
  }

  /** A renderer that is resized gets the size that the window has when the event is handled. */
  predicate LoopEventOk(l: Loop, canDrive: bool, e: LoopEvent) {
    match e
    case Output(ops) => OpsOk(l.view.screen, ops)
    case WindowChange(w) => WindowOk(w)
    case ResizeHandled(reflowed) =>
      Resizes(l, canDrive) ==>
        && EngineOk(reflowed) && reflowed.screen.alt == l.view.screen.alt
        && SizeOf(reflowed.screen) == l.sizes.actual
    case PeerNotice => true
  }

  predicate LoopEventsOk(l: Loop, canDrive: bool, events: seq<LoopEvent>) {
    forall k :: 0 <= k < |events| ==> LoopEventOk(LoopAt(l, canDrive, events, k), canDrive, events[k])
  }

  function SizeOf(s: Screen): (r: WindowSize.Size) {
    WindowSize.Size(|s.rows|, s.width)
  }

  /** The loop's sizes are the real ones. */
  predicate SizesAgree(l: Loop) {
    && l.sizes.actual == WindowSize.Size(l.view.height, l.view.width)
    && l.sizes.renderer == SizeOf(l.view.screen)
    && Said(l.view)
  }

  /** The loop begins with a snapshot on a window whose size it has read. */
  lemma FirstSizes(start: Outer, s: Screen)
    requires Fits(start, s) && ScreenOk(s)
    ensures var size := SizeOf(s);
      SizesAgree(Loop(WindowSize.State(size, size, size), FirstView(start, s)))
  {
    FirstIsSaid(start, s);
  }

  lemma NextSizes(l: Loop, canDrive: bool, e: LoopEvent)
    requires SizesAgree(l) && LoopEventOk(l, canDrive, e)
    ensures SizesAgree(Next(l, canDrive, e))
  {
    hide Said, OpsOk, Scrollback, LostRows, DrawingAfter, FinalScreen;
    var session := SessionEvent(l, canDrive, e);
    if session != [] {
      NextIsSaid(l.view, session[0]);
    }
    if e.Output? {
      SaidScreen(l.view);
      ReportedIsOk(l.view.screen, e.ops);
    }
  }

  lemma SaidScreen(v: View)
    requires Said(v)
    ensures ScreenOk(v.screen)
  {
  }

  lemma {:induction false} LoopSizes(l: Loop, canDrive: bool, events: seq<LoopEvent>, k: nat)
    requires k <= |events| && SizesAgree(l) && LoopEventsOk(l, canDrive, events)
    ensures SizesAgree(LoopAt(l, canDrive, events, k))
    decreases k
  {
    hide Next, SizesAgree, LoopEventOk;
    if k > 0 {
      LoopSizes(l, canDrive, events, k - 1);
      NextSizes(LoopAt(l, canDrive, events, k - 1), canDrive, events[k - 1]);
    }
  }

  // ----- the loop as a run of sizes, and as a session -----

  function SizeEvents(events: seq<LoopEvent>, k: nat): (r: seq<WindowSize.Event>)
    requires k <= |events|
  {
    if k == 0 then [] else SizeEvents(events, k - 1) + SizeEvent(events[k - 1])
  }

  lemma {:induction false} LoopRunsSizes(l: Loop, canDrive: bool, events: seq<LoopEvent>, k: nat)
    requires k <= |events|
    ensures LoopAt(l, canDrive, events, k).sizes == WindowSize.Run(l.sizes, canDrive, SizeEvents(events, k))
    decreases k
  {
    hide NextView, SizeEvent, SessionEvent, WindowSize.Run, WindowSize.Step;
    RunNothing(l.sizes, canDrive);
    if k > 0 {
      LoopRunsSizes(l, canDrive, events, k - 1);
      OneSizeEvent(events[k - 1]);
      var earlier, size := SizeEvents(events, k - 1), SizeEvent(events[k - 1]);
      if size == [] {
        assert earlier + size == earlier;
      } else {
        WindowSize.RunSnoc(l.sizes, canDrive, earlier, size[0]);
      }
    }
  }

  lemma RunNothing(s: WindowSize.State, canDrive: bool)
    ensures WindowSize.Run(s, canDrive, []) == s
  {
  }

  lemma OneSizeEvent(e: LoopEvent)
    ensures SizeEvent(e) == [] || SizeEvent(e) == [SizeEvent(e)[0]]
  {
  }

  function SessionEvents(l: Loop, canDrive: bool, events: seq<LoopEvent>, k: nat): (r: seq<Event>)
    requires k <= |events|
  {
    if k == 0 then []
    else
      SessionEvents(l, canDrive, events, k - 1) +
      SessionEvent(LoopAt(l, canDrive, events, k - 1), canDrive, events[k - 1])
  }

  lemma {:induction false} ViewOfPrefix(v: View, events: seq<Event>, longer: seq<Event>, k: nat)
    requires k <= |events| && events <= longer
    ensures ViewAt(v, longer, k) == ViewAt(v, events, k)
    decreases k
  {
    hide NextView;
    if k > 0 {
      ViewOfPrefix(v, events, longer, k - 1);
      assert longer[k - 1] == events[k - 1];
    }
  }

  lemma OneEventMore(v: View, events: seq<Event>, e: Event)
    requires EventsOk(v, events) && WindowsOk(events) && EventOk(ViewAt(v, events, |events|), e)
    ensures EventsOk(v, events + [e]) && WindowsOk(events + [e])
    ensures ViewAt(v, events + [e], |events| + 1) == NextView(ViewAt(v, events, |events|), e)
  {
    hide NextView, EventOk, WindowOk, ViewAt, WindowsOk;
    OneWindowMore(ViewAt(v, events, |events|), events, e);
    var longer, n := events + [e], |events|;
    assert forall k :: 0 <= k < n ==> longer[k] == events[k];
    forall k | 0 <= k <= n ensures EventOk(ViewAt(v, longer, k), longer[k]) {
      ViewOfPrefix(v, events, longer, k);
    }
    ViewOfPrefix(v, events, longer, n);
    ViewStep(v, longer, n);
  }

  lemma OneWindowMore(v: View, events: seq<Event>, e: Event)
    requires WindowsOk(events) && EventOk(v, e)
    ensures WindowsOk(events + [e])
  {
    hide WindowOk, OpsOk, EngineOk;
    var longer := events + [e];
    forall k | 0 <= k < |longer| && longer[k].WindowResize? ensures WindowOk(longer[k].window) {
      assert longer[k] == if k < |events| then events[k] else e;
    }
  }

  lemma ViewStep(v: View, events: seq<Event>, k: nat)
    requires k < |events|
    ensures ViewAt(v, events, k + 1) == NextView(ViewAt(v, events, k), events[k])
  {
    hide NextView;
  }

  /** Every run of the loop is a session of the renderer, so that what is proved of sessions holds for it. */
  lemma {:induction false} LoopIsSession(l: Loop, canDrive: bool, events: seq<LoopEvent>, k: nat)
    requires k <= |events| && LoopEventsOk(l, canDrive, events)
    ensures var session := SessionEvents(l, canDrive, events, k);
      && EventsOk(l.view, session) && WindowsOk(session)
      && ViewAt(l.view, session, |session|) == LoopAt(l, canDrive, events, k).view
    decreases k
  {
    hide Next, LoopEventOk, SessionEvent, ViewAt, EventsOk, WindowsOk;
    if k == 0 {
      EmptySession(l.view);
    } else {
      LoopIsSession(l, canDrive, events, k - 1);
      OneLoopEvent(l.view, canDrive, LoopAt(l, canDrive, events, k - 1), events[k - 1],
                   SessionEvents(l, canDrive, events, k - 1));
    }
  }

  lemma EmptySession(v: View)
    ensures EventsOk(v, []) && WindowsOk([]) && ViewAt(v, [], 0) == v
  {
  }

  lemma OneLoopEvent(v: View, canDrive: bool, at: Loop, e: LoopEvent, earlier: seq<Event>)
    requires EventsOk(v, earlier) && WindowsOk(earlier) && ViewAt(v, earlier, |earlier|) == at.view
    requires LoopEventOk(at, canDrive, e)
    ensures var session := earlier + SessionEvent(at, canDrive, e);
      && EventsOk(v, session) && WindowsOk(session)
      && ViewAt(v, session, |session|) == Next(at, canDrive, e).view
  {
    hide NextView, WindowSize.Step, OpsOk, WindowOk, ViewAt, EventsOk, WindowsOk;
    var more := SessionEvent(at, canDrive, e);
    if more == [] {
      assert earlier + more == earlier;
    } else {
      OneEventMore(v, earlier, more[0]);
      assert earlier + more == earlier + [more[0]];
    }
  }

  // ----- when the window is faithful -----

  /** The window can be faithful only while its size is the renderer's. */
  lemma InStepNeedsSize(l: Loop)
    requires SizesAgree(l)
    ensures SameSizeAs(l.view, l.view.screen) <==> l.sizes.renderer == l.sizes.actual
    ensures InStep(l.view) ==> l.sizes.renderer == l.sizes.actual
  {
  }

  /**
    * A client that drives the session handles a resize event and then renders a chunk, after any run.
    * The sizes match exactly when no notice has misled the loop or the window has changed since; if
    * the event resized the renderer the window is in step, and otherwise it is if and only if the
    * sizes match and the chunk leaves it so.
    */
  lemma HandledResizeRecovers(l: Loop, events: seq<LoopEvent>, reflowed: Engine, ops: seq<Op>)
    requires SizesAgree(l) && l.sizes.renderer == l.sizes.lastSent
    requires LoopEventsOk(l, true, events + [ResizeHandled(reflowed), Output(ops)])
    ensures var all := events + [ResizeHandled(reflowed), Output(ops)];
      var at, after := LoopAt(l, true, all, |events|), LoopAt(l, true, all, |all|);
      var misled := WindowSize.Misled(l.sizes, SizeEvents(all, |events|));
      && SizesAgree(after)
      && (after.sizes.renderer == after.sizes.actual <==> !misled || at.sizes.actual != at.sizes.lastSent)
      && (at.sizes.actual != at.sizes.lastSent ==> InStep(after.view))
      && (at.sizes.actual == at.sizes.lastSent ==> after.view == NextView(at.view, Chunk(ops)))
  {
    hide Next, SizesAgree, SizeEvents, InStep, NextView, LoopEventOk, LoopAt;
    var all, n := events + [ResizeHandled(reflowed), Output(ops)], |events|;
    assert all[n] == ResizeHandled(reflowed) && all[n + 1] == Output(ops) && |all| == n + 2;
    LoopStep(l, true, all, n);
    LoopStep(l, true, all, n + 1);
    LoopSizes(l, true, all, n);
    LoopSizes(l, true, all, n + 1);
    LoopSizes(l, true, all, n + 2);
    LoopRunsSizes(l, true, all, n);
    WindowSize.MisledOrInStep(l.sizes, SizeEvents(all, n));
    HandledThenOutput(LoopAt(l, true, all, n), reflowed, ops);
  }

  lemma LoopStep(l: Loop, canDrive: bool, events: seq<LoopEvent>, k: nat)
    requires k < |events| && LoopEventsOk(l, canDrive, events)
    ensures LoopAt(l, canDrive, events, k + 1) == Next(LoopAt(l, canDrive, events, k), canDrive, events[k])
    ensures LoopEventOk(LoopAt(l, canDrive, events, k), canDrive, events[k])
  {
    hide Next, LoopEventOk;
  }

  lemma HandledThenOutput(at: Loop, reflowed: Engine, ops: seq<Op>)
    requires SizesAgree(at) && LoopEventOk(at, true, ResizeHandled(reflowed))
    requires var handled := Next(at, true, ResizeHandled(reflowed));
      SizesAgree(handled) && LoopEventOk(handled, true, Output(ops))
    ensures var after := Next(Next(at, true, ResizeHandled(reflowed)), true, Output(ops));
      && after.sizes == WindowSize.Step(at.sizes, true, WindowSize.ResizeHandled)
      && (at.sizes.actual != at.sizes.lastSent ==> InStep(after.view))
      && (at.sizes.actual == at.sizes.lastSent ==> after.view == NextView(at.view, Chunk(ops)))
  {
    hide Scrollback, LostRows, DrawingAfter, FinalScreen, OpsOk, InStep, Said;
    var handled := Next(at, true, ResizeHandled(reflowed));
    if at.sizes.actual != at.sizes.lastSent {
      SaidScreen(handled.view);
      ChunkBringsInStep(handled.view, ops);
    }
  }
}
