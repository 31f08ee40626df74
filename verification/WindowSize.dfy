/** Which size the attach loop believes the window has, and when the renderer misses a change. */
module WindowSize {

  datatype Size = Size(rows: nat, cols: nat)

  /** `actual` is what the terminal reports; `lastSent` suppresses repeated resizes. */
  datatype State = State(actual: Size, lastSent: Size, renderer: Size)

  datatype Event =
    | WindowChanged(size: Size)   // the user resizes the window
    | ResizeHandled               // the loop handles a queued resize event
    | PeerResized                 // the daemon reports that another client resized the session

  /** The size is re-read when the event is handled; a driving client passes a new one to its renderer. */
  function Step(s: State, canDrive: bool, e: Event): (r: State) {
    match e
    case WindowChanged(size) => s.(actual := size)
    case ResizeHandled =>
      if s.actual != s.lastSent
      then s.(lastSent := s.actual, renderer := if canDrive then s.actual else s.renderer)
      else s
    case PeerResized => s.(lastSent := s.actual)
  }

  function Run(s: State, canDrive: bool, events: seq<Event>): (r: State)
    decreases |events|
  {
    if events == [] then s
    else Step(Run(s, canDrive, events[..|events| - 1]), canDrive, events[|events| - 1])
  }

  lemma RunSnoc(s: State, canDrive: bool, events: seq<Event>, e: Event)
    ensures Run(s, canDrive, events + [e]) == Step(Run(s, canDrive, events), canDrive, e)
  {
    var longer := events + [e];
    assert longer[..|longer| - 1] == events;
  }

  /**
    * The last event that set the size last sent was another client's notice, and it found the window
    * at a size other than the renderer's.
    */
  predicate Misled(s: State, events: seq<Event>)
    decreases |events|
  {
    events != [] &&
    var front, last := events[..|events| - 1], events[|events| - 1];
    var before := Run(s, true, front);
    match last
    case WindowChanged(_) => Misled(s, front)
    case ResizeHandled => before.actual == before.lastSent && Misled(s, front)
    case PeerResized => before.actual != before.renderer
  }

  /** The renderer has the size last sent, unless a notice has misled the loop. */
  lemma {:induction false} MisledOrInStep(s: State, events: seq<Event>)
    requires s.renderer == s.lastSent
    ensures Misled(s, events) <==> Run(s, true, events).renderer != Run(s, true, events).lastSent
    decreases |events|
  {
    if events != [] {
      MisledOrInStep(s, events[..|events| - 1]);
    }
  }

  /**
    * After any run, handling a resize event leaves the renderer at the real size exactly when no
    * notice has misled the loop or the window has changed since.
    */
  lemma RendererFollows(s: State, events: seq<Event>)
    requires s.renderer == s.lastSent
    ensures Run(s, true, events + [ResizeHandled]).renderer == Run(s, true, events).actual <==>
      !Misled(s, events) || Run(s, true, events).actual != Run(s, true, events).lastSent
  {
    MisledOrInStep(s, events);
    var handled := events + [ResizeHandled];
    assert handled[..|handled| - 1] == events && handled[|handled| - 1] == ResizeHandled;
  }

  /**
    * A notice that overtakes a pending resize event makes the loop drop it: exactly when the
    * window has changed since the last size sent, the renderer keeps its old size.
    */
  lemma NoticeHidesResize(s: State)
    requires s.renderer == s.lastSent
    ensures Run(s, true, [PeerResized, ResizeHandled]).renderer == s.renderer
    ensures Run(s, true, [PeerResized, ResizeHandled]).renderer == s.actual <==> s.actual == s.lastSent
  {
    var notice := [PeerResized];
    assert notice[..0] == [] && [PeerResized, ResizeHandled] == notice + [ResizeHandled];
    assert Run(s, true, notice) == Step(s, true, PeerResized);
    RendererFollows(s, notice);
  }

  /** A client that only observes never resizes its renderer. */
  lemma {:induction false} ObserverKeepsItsSize(s: State, events: seq<Event>)
    ensures Run(s, false, events).renderer == s.renderer
    decreases |events|
  {
    if events != [] {
      ObserverKeepsItsSize(s, events[..|events| - 1]);
    }
  }
}
