/**
  * The attach renderer: a cached copy of the outer terminal, row diffs against it, and full
  * repaints. Its output is a list of terminal commands, interpreted on an abstract outer terminal.
  */
module AttachRenderer {
  import opened Bytes
  import opened TerminalEngine
  import opened OuterTerminal

  // ----- drawing -----

  /** Drawing a row changes that row, and nothing behind it even where there is no such row. */
  lemma PaintRow(t: Outer, i: nat, row: Row, out: seq<Command>, t0: Outer)
    requires OuterOk(t0) && t == Run(t0, out) && Plain(t)
    ensures SameBackdrop(Run(t0, out + [MoveTo(i + 1, 1), SgrReset, Text(row)]), t)
    ensures Run(t0, out + [MoveTo(i + 1, 1), SgrReset, Text(row)]).visible == t.visible
    ensures i < |t.rows| ==>
      var t' := t.(rows := t.rows[i := Shown(row)], cursorRow := i, cursorCol := Somewhere, styled := true);
      Run(t0, out + [MoveTo(i + 1, 1), SgrReset, Text(row)]) == t'
  {
    var paint := [MoveTo(i + 1, 1), SgrReset, Text(row)];
    RunConcat(t0, out, paint);
    Run3(t, MoveTo(i + 1, 1), SgrReset, Text(row));
  }

  lemma PlaceCursor(t: Outer, row: nat, col: nat, visible: bool, out: seq<Command>, t0: Outer)
    requires OuterOk(t0) && t == Run(t0, out) && Plain(t)
    ensures SameBackdrop(Run(t0, out + [MoveTo(row + 1, col + 1), ShowCursor(visible)]), t)
    ensures Run(t0, out + [MoveTo(row + 1, col + 1), ShowCursor(visible)]).visible == visible
    ensures Run(t0, out + [MoveTo(row + 1, col + 1), ShowCursor(visible)]).rows == t.rows
    ensures row < |t.rows| && col < t.width ==>
      var t' := t.(cursorRow := row, cursorCol := At(col), visible := visible);
      Run(t0, out + [MoveTo(row + 1, col + 1), ShowCursor(visible)]) == t'
  {
    var place := [MoveTo(row + 1, col + 1), ShowCursor(visible)];
    RunConcat(t0, out, place);
    Run2(t, MoveTo(row + 1, col + 1), ShowCursor(visible));
  }

  lemma NothingDraws()
    ensures AllDraw([]) && AllDraw([OriginOff, MarginsReset])
  {
  }

  lemma PaintDraws(out: seq<Command>, paint: seq<Command>, i: nat, row: Row)
    requires paint == [MoveTo(i + 1, 1), SgrReset, Text(row)] && AllDraw(out)
    ensures AllDraw(out + paint)
  {
    assert AllDraw(paint);
    DrawConcat(out, paint);
  }

  lemma PlaceDraws(out: seq<Command>, place: seq<Command>, row: nat, col: nat, visible: bool)
    requires place == [MoveTo(row + 1, col + 1), ShowCursor(visible)] && AllDraw(out)
    ensures AllDraw(out + place)
  {
    assert AllDraw(place);
    DrawConcat(out, place);
  }

  predicate SameAt(a: seq<Row>, b: seq<Row>, i: nat) {
    i < |a| && i < |b| && a[i] == b[i]
  }

  predicate Room(t: Outer, prevRows: seq<Row>, next: seq<Row>) {
    |prevRows| <= |t.rows| && |next| <= |t.rows|
  }

  /** Of the rows before `index`, exactly those that differ between the states are drawn again. */
  predicate Patched(was: seq<Cell>, now: seq<Cell>, prevRows: seq<Row>, next: seq<Row>, index: nat) {
    && |now| == |was|
    && forall j :: 0 <= j < |was| ==>
         now[j] == if j < index && !SameAt(prevRows, next, j) then Shown(RowOr(next, j)) else was[j]
  }

  /** The cursor is where the next state has it, unless nothing was sent. */
  predicate CursorPlaced(was: Outer, now: Outer, next: Screen, sent: bool) {
    if sent then
      now.visible == next.visible
      && (next.cursorRow < |was.rows| && next.cursorCol < was.width ==>
            now.cursorRow == next.cursorRow && now.cursorCol == At(next.cursorCol))
    else now == was
  }

  /**
    * Row-based screen diff. On any terminal with room for both states it draws exactly the rows that
    * differ and then places the cursor, whatever the terminal shows; on any terminal at all it
    * changes nothing but the drawing; and it is empty exactly when nothing changed.
    */
  method ScreenDiffBytes(prevRows: seq<Row>, next: Screen, prevCursor: (nat, nat), prevVisible: bool,
                         ghost t: Outer)
    returns (out: seq<Command>)
    requires ScreenOk(next) && OuterOk(t) && Plain(t)
    ensures out == [] <==>
      prevRows == next.rows && prevCursor == (next.cursorRow, next.cursorCol) && prevVisible == next.visible
    ensures SameBackdrop(Run(t, out), t) && CursorPlaced(t, Run(t, out), next, out != [])
    ensures Room(t, prevRows, next.rows) ==>
      Patched(t.rows, Run(t, out).rows, prevRows, next.rows, Max(|prevRows|, |next.rows|))
    ensures AllDraw(out)
  {
    hide Exec, Run, Patched, SameUpTo, AllDraw;
    NothingDraws();
    Run1(t, []);
    out := [];
    var rowCount := Max(|prevRows|, |next.rows|);
    ghost var now := t;
    DiffStart(t.rows, prevRows, next.rows);
    for index := 0 to rowCount
      invariant now == Run(t, out) && SameBackdrop(now, t) && now.visible == t.visible
      invariant Room(t, prevRows, next.rows) ==> Patched(t.rows, now.rows, prevRows, next.rows, index)
      invariant out == [] <==> SameUpTo(prevRows, next.rows, index)
      invariant out == [] ==> now == t
      invariant AllDraw(out)
    {
      ghost var was := now;
      if index >= |prevRows| || index >= |next.rows| || prevRows[index] != next.rows[index] {
        PaintRow(now, index, RowOr(next.rows, index), out, t);
        var paint := [MoveTo(index + 1, 1), SgrReset, Text(RowOr(next.rows, index))];
        PaintDraws(out, paint, index, RowOr(next.rows, index));
        out := out + paint;
        now := Run(t, out);
      }
      DiffStep(t.rows, was.rows, now.rows, prevRows, next.rows, index);
    }
    DiffEnd(prevRows, next.rows);
    var cursorChanged := prevCursor != (next.cursorRow, next.cursorCol) || prevVisible != next.visible;
    if out == [] && !cursorChanged {
      return;
    }
    PlaceCursor(now, next.cursorRow, next.cursorCol, next.visible, out, t);
    var place := [MoveTo(next.cursorRow + 1, next.cursorCol + 1), ShowCursor(next.visible)];
    PlaceDraws(out, place, next.cursorRow, next.cursorCol, next.visible);
    out := out + place;
  }

  lemma DiffStart(rows: seq<Cell>, prevRows: seq<Row>, next: seq<Row>)
    ensures SameUpTo(prevRows, next, 0) && Patched(rows, rows, prevRows, next, 0)
  {
  }

  /** One row further, which is drawn unless both states have it and agree on it. */
  lemma DiffStep(t: seq<Cell>, was: seq<Cell>, now: seq<Cell>, prevRows: seq<Row>, next: seq<Row>, index: nat)
    requires index < Max(|prevRows|, |next|)
    ensures SameUpTo(prevRows, next, index + 1) <==> SameUpTo(prevRows, next, index) && SameAt(prevRows, next, index)
    ensures Patched(t, was, prevRows, next, index) && SameAt(prevRows, next, index) && now == was ==>
      Patched(t, now, prevRows, next, index + 1)
    ensures Patched(t, was, prevRows, next, index) && RowDrawn(was, now, prevRows, next, index) ==>
      Patched(t, now, prevRows, next, index + 1)
  {
  }

  predicate RowDrawn(was: seq<Cell>, now: seq<Cell>, prevRows: seq<Row>, next: seq<Row>, index: nat) {
    index < |was| && !SameAt(prevRows, next, index) && now == was[index := Shown(RowOr(next, index))]
  }

  lemma DiffEnd(prevRows: seq<Row>, next: seq<Row>)
    ensures SameUpTo(prevRows, next, Max(|prevRows|, |next|)) <==> prevRows == next
  {
  }

  /** A row that the next state no longer has is blanked. */
  function RowOr(rows: seq<Row>, i: nat): (r: Row) {
    if i < |rows| then rows[i] else []
  }

  predicate SameUpTo(a: seq<Row>, b: seq<Row>, n: nat) {
    n <= |a| && n <= |b| && forall j :: 0 <= j < n ==> a[j] == b[j]
  }

  /** Full repaint of the engine's screen, from whatever the terminal shows. */
  method RepaintBytes(s: Screen, ghost t: Outer) returns (out: seq<Command>)
    requires ScreenOk(s) && OuterOk(t)
    ensures out != []
    ensures Plain(Run(t, out)) && SameBackdrop(Run(t, out), t.(margins := None, origin := false))
    ensures Run(t, out).visible == s.visible && AllDraw(out)
    ensures Fits(t, s) ==> ShowsRows(Run(t, out), s.rows)
    ensures Fits(t, s) ==> ShowsCursor(Run(t, out), s.cursorRow, s.cursorCol, s.visible)
  {
    hide Run, Exec, AllDraw;
    NothingDraws();
    out := [OriginOff, MarginsReset];
    ghost var now := Run(t, out);
    ResetModes(t);
    for index := 0 to |s.rows|
      invariant now == Run(t, out) && Plain(now) && out != [] && AllDraw(out)
      invariant SameBackdrop(now, t.(margins := None, origin := false))
      invariant Fits(t, s) ==> forall j :: 0 <= j < index ==> now.rows[j] == Shown(s.rows[j])
    {
      PaintRow(now, index, s.rows[index], out, t);
      var paint := [MoveTo(index + 1, 1), SgrReset, Text(s.rows[index])];
      PaintDraws(out, paint, index, s.rows[index]);
      out := out + paint;
      now := Run(t, out);
    }
    PlaceCursor(now, s.cursorRow, s.cursorCol, s.visible, out, t);
    var place := [MoveTo(s.cursorRow + 1, s.cursorCol + 1), ShowCursor(s.visible)];
    PlaceDraws(out, place, s.cursorRow, s.cursorCol, s.visible);
    out := out + place;
  }

  lemma ResetModes(t: Outer)
    requires OuterOk(t)
    ensures Run(t, [OriginOff, MarginsReset]) ==
      t.(origin := false, margins := None, cursorRow := 0, cursorCol := At(0))
  {
    Run2(t, OriginOff, MarginsReset);
  }

  // ----- drawings -----

  /** What is drawn: rows and cursor position. */
  datatype Drawing = Drawing(rows: seq<Cell>, cursorRow: nat, cursorCol: Column)

  function DrawingOf(t: Outer): (d: Drawing) {
    Drawing(t.rows, t.cursorRow, t.cursorCol)
  }

  /** The drawing of a screen. */
  function Picture(s: Screen): (d: Drawing) {
    Drawing(Cells(s.rows), s.cursorRow, At(s.cursorCol))
  }

  /** Two screens that are drawn alike. */
  predicate SameScreen(a: Screen, b: Screen) {
    a.rows == b.rows && a.cursorRow == b.cursorRow && a.cursorCol == b.cursorCol && a.visible == b.visible
  }

  /** Draw again the rows in which two screens differ. */
  function Patch(rows: seq<Cell>, before: seq<Row>, after: seq<Row>): (r: seq<Cell>)
    requires |rows| == |before| == |after|
    ensures |r| == |rows|
    ensures forall j :: 0 <= j < |r| ==> r[j] == if before[j] == after[j] then rows[j] else Shown(after[j])
  {
    seq(|rows|, j requires 0 <= j < |rows| => if before[j] == after[j] then rows[j] else Shown(after[j]))
  }

  /** What a diff between two screens makes of any drawing: it redraws the rows that differ. */
  function Diffed(d: Drawing, before: Screen, after: Screen): (r: Drawing)
    requires |d.rows| == |before.rows| == |after.rows|
  {
    var rows := Patch(d.rows, before.rows, after.rows);
    if SameScreen(before, after) then Drawing(rows, d.cursorRow, d.cursorCol)
    else Drawing(rows, after.cursorRow, At(after.cursorCol))
  }

  lemma FullDrawing(t: Outer, s: Screen)
    requires ShowsRows(t, s.rows) && ShowsCursor(t, s.cursorRow, s.cursorCol, s.visible)
    ensures DrawingOf(t) == Picture(s)
  {
    assert t.rows == Cells(s.rows);
  }

  lemma DiffDrawing(t: Outer, now: Outer, before: Screen, after: Screen)
    requires ScreenOk(after) && SameSize(before, after) && Fits(t, after)
    requires Patched(t.rows, now.rows, before.rows, after.rows, Max(|before.rows|, |after.rows|))
    requires CursorPlaced(t, now, after, !SameScreen(before, after))
    ensures DrawingOf(now) == Diffed(DrawingOf(t), before, after)
  {
    assert now.rows == Patch(t.rows, before.rows, after.rows);
  }

  /** A diff of a drawing of the first screen is a drawing of the second. */
  lemma DiffOfPicture(before: Screen, after: Screen)
    requires SameSize(before, after)
    ensures Diffed(Picture(before), before, after) == Picture(after)
  {
    assert Patch(Cells(before.rows), before.rows, after.rows) == Cells(after.rows);
  }

  /** An update has drawn the screen, in full or as a diff against `was`. */
  predicate Updated(t: Outer, now: Outer, repaint: bool, was: Screen, next: Screen)
    requires SameSize(was, next)
  {
    && (Fits(t, next) ==> DrawingOf(now) == if repaint then Picture(next) else Diffed(DrawingOf(t), was, next))
    && (repaint || t.visible == was.visible ==> now.visible == next.visible)
  }

  /** From a terminal that shows the one screen, or with a full repaint, it shows the other. */
  lemma UpdatedIsFaithful(t: Outer, now: Outer, repaint: bool, was: Screen, next: Screen)
    requires SameSize(was, next) && Updated(t, now, repaint, was, next)
    requires Fits(t, next) && now.width == t.width && now.alt == next.alt
    requires repaint || (ShowsRows(t, was.rows) && ShowsCursor(t, was.cursorRow, was.cursorCol, was.visible))
    ensures Faithful(now, next)
  {
    if !repaint {
      FullDrawing(t, was);
      DiffOfPicture(was, next);
    }
    assert now.rows == Cells(next.rows);
  }

  // ----- history -----

  /** Write the scrolled-off row at the top, then scroll once at the bottom. */
  function HistoryCommands(row: Row, height: nat): (r: seq<Command>) {
    [OriginOff, MarginsReset, MoveTo(1, 1), SgrReset, Text(row)] + [MoveTo(height, 1), CrLf]
  }

  lemma RowAtTop(t: Outer, row: Row)
    requires OuterOk(t)
    ensures Run(t, [OriginOff, MarginsReset, MoveTo(1, 1), SgrReset, Text(row)]) ==
      t.(origin := false, margins := None, rows := t.rows[0 := Shown(row)],
         cursorRow := 0, cursorCol := Somewhere, styled := true)
  {
    hide Run;
    ResetModes(t);
    var reset := [OriginOff, MarginsReset];
    PaintRow(Run(t, reset), 0, row, reset, t);
    assert [OriginOff, MarginsReset, MoveTo(1, 1), SgrReset, Text(row)] ==
      reset + [MoveTo(0 + 1, 1), SgrReset, Text(row)];
  }

  lemma ScrollAtBottom(t: Outer, height: nat)
    requires OuterOk(t) && !t.alt && Plain(t) && height > 0
    ensures Run(t, [MoveTo(height, 1), CrLf]).scrollback ==
      if |t.rows| <= height then t.scrollback + [t.rows[0]] else t.scrollback
    ensures SameModes(Run(t, [MoveTo(height, 1), CrLf]), t)
  {
    hide Run, Scrolled;
    Run2(t, MoveTo(height, 1), CrLf);
    assert Moved(t, height, 1).cursorRow == Min(height - 1, |t.rows| - 1);
  }

  /**
    * One history step adds exactly the given row to scrollback, provided that the terminal is no
    * taller than the height it is told; on a taller terminal the row is lost.
    */
  lemma HistoryStep(t: Outer, row: Row, height: nat)
    requires OuterOk(t) && !t.alt && height > 0
    ensures Run(t, HistoryCommands(row, height)).scrollback ==
      if |t.rows| <= height then t.scrollback + [Shown(row)] else t.scrollback
    ensures SameModes(Run(t, HistoryCommands(row, height)), t.(origin := false, margins := None))
  {
    hide Run;
    var write := [OriginOff, MarginsReset, MoveTo(1, 1), SgrReset, Text(row)];
    var scroll := [MoveTo(height, 1), CrLf];
    RunConcat(t, write, scroll);
    RowAtTop(t, row);
    ScrollAtBottom(Run(t, write), height);
  }

  /** Everything but screen contents, cursor and scrollback. */
  predicate SameModes(a: Outer, b: Outer) {
    a.alt == b.alt && a.margins == b.margins && a.origin == b.origin && a.sync == b.sync
  }

  function EffectCommands(effect: Effect, height: nat): (r: seq<Command>) {
    match effect
    case HistoryRow(row) => HistoryCommands(row, height)
    case AlternateScreen(alt) => [AltBuffer(alt)]
    case ClearHistory => [EraseScrollback]
  }

  lemma EffectDraws(effect: Effect, height: nat)
    ensures AllDraw(EffectCommands(effect, height))
  {
  }

  lemma EffectStep(t: Outer, effect: Effect, step: seq<Command>, height: nat)
    requires OuterOk(t) && Plain(t) && (effect.HistoryRow? ==> !t.alt) && height > 0
    requires step == EffectCommands(effect, height)
    ensures Plain(Run(t, step)) && Run(t, step).sync == t.sync
    ensures Run(t, step).alt == if effect.AlternateScreen? then effect.alt else t.alt
    ensures Run(t, step).scrollback == match effect
      case HistoryRow(row) => if |t.rows| <= height then t.scrollback + [Shown(row)] else t.scrollback
      case AlternateScreen(_) => t.scrollback
      case ClearHistory => []
    ensures effect.ClearHistory? ==> SameDrawing(Run(t, step), t)
  {
    if effect.HistoryRow? {
      hide Run;
      HistoryStep(t, effect.row, height);
    } else {
      Run1(t, step);
    }
  }

  // ----- the renderer -----

  class AttachRenderer {
    var engine: Engine
    var prevRows: seq<Row>           // what the outer terminal shows, as far as the renderer knows
    var prevCursor: (nat, nat)
    var prevCursorVisible: bool
    var needsFullRepaint: bool

    ghost predicate Valid()
      reads this
    {
      EngineOk(engine)
    }

    /** What holds of the outer terminal whatever its size. */
    ghost predicate Attached(t: Outer)
      reads this
    {
      OuterOk(t) && Plain(t) && !t.sync && t.alt == engine.screen.alt
    }

    /** The terminal has the engine's size, and the cache describes it unless a full repaint is due. */
    ghost predicate Agrees(t: Outer)
      reads this
    {
      Attached(t) && Fits(t, engine.screen) && (!needsFullRepaint ==> CacheShown(t))
    }

    ghost predicate CacheShown(t: Outer)
      reads this
    {
      ShowsRows(t, prevRows) && ShowsCursor(t, prevCursor.0, prevCursor.1, prevCursorVisible)
    }

    /** The cache is this screen. */
    ghost predicate CacheIs(s: Screen)
      reads this
    {
      prevRows == s.rows && prevCursor == (s.cursorRow, s.cursorCol) && prevCursorVisible == s.visible
    }

    /** The cache is the engine's screen. */
    ghost predicate CacheCurrent()
      reads this
    {
      CacheIs(engine.screen)
    }

    constructor (rows: nat, cols: nat, blank: Engine)
      requires EngineOk(blank) && |blank.screen.rows| == Max(rows, 1) && blank.screen.width == Max(cols, 1)
      ensures Valid() && engine == blank
    {
      engine := blank;
      prevRows, prevCursor, prevCursorVisible, needsFullRepaint := [], (0, 0), true, false;
    }

    method RememberState()
      modifies this`prevRows, this`prevCursor, this`prevCursorVisible
      ensures CacheCurrent()
    {
      prevRows := engine.screen.rows;
      prevCursor := (engine.screen.cursorRow, engine.screen.cursorCol);
      prevCursorVisible := engine.screen.visible;
    }

    /** Restoring a snapshot adds no history, and shows it on any terminal of the right size. */
    method RenderInitial(restored: Engine, ghost t: Outer) returns (out: seq<Command>)
      requires Valid() && EngineOk(restored) && SameSize(restored.screen, engine.screen)
      requires OuterOk(t) && !t.sync
      modifies this
      ensures Valid() && engine == restored && !needsFullRepaint && CacheCurrent()
      ensures Attached(Run(t, out)) && Run(t, out).scrollback == t.scrollback
      ensures Run(t, out).visible == engine.screen.visible
      ensures Fits(t, engine.screen) ==> Agrees(Run(t, out)) && Faithful(Run(t, out), engine.screen)
    {
      hide Run, Exec;
      engine := restored;
      needsFullRepaint := false;
      out := [Signal, AltBuffer(engine.screen.alt)];
      ghost var switched := Run(t, out);
      SwitchFirst(t, engine.screen.alt);
      var repaint := RepaintBytes(engine.screen, switched);
      Extend(t, out, switched, repaint);
      out := out + repaint;
      RememberState();
    }

    /** Reflow is not new history; the next chunk repaints everything. */
    method Resize(reflowed: Engine)
      requires Valid() && EngineOk(reflowed) && reflowed.screen.alt == engine.screen.alt
      modifies this
      ensures Valid() && engine == reflowed && needsFullRepaint
    {
      engine := reflowed;
      needsFullRepaint := true;
    }

    /** Forward scrolled-off rows, buffer switches and history clears; all but the last make a repaint due. */
    method ForwardEffects(effects: seq<Effect>, ghost altBefore: bool, ghost t: Outer) returns (out: seq<Command>)
      requires OuterOk(t) && Plain(t) && t.alt == altBefore && |engine.screen.rows| > 0
      requires EffectsOk(altBefore, effects, engine.screen.alt)
      modifies this`needsFullRepaint
      ensures Plain(Run(t, out)) && Run(t, out).sync == t.sync && Run(t, out).alt == engine.screen.alt
      ensures Run(t, out).scrollback == HistoryAfter(t.scrollback, effects, |t.rows| <= |engine.screen.rows|)
      ensures needsFullRepaint <==> old(needsFullRepaint) || Repaints(effects)
      ensures !Repaints(effects) ==> SameDrawing(Run(t, out), t)
      ensures effects == [] ==> out == []
      ensures AllDraw(out)
    {
      hide Exec, Run, HistoryCommands, AllDraw;
      NothingDraws();
      out := [];
      var rest := effects;
      ghost var now, kept := t, |t.rows| <= |engine.screen.rows|;
      Run1(t, []);
      while rest != []
        invariant now == Run(t, out) && Plain(now) && now.sync == t.sync
        invariant EffectsOk(now.alt, rest, engine.screen.alt)
        invariant HistoryAfter(now.scrollback, rest, kept) == HistoryAfter(t.scrollback, effects, kept)
        invariant needsFullRepaint || Repaints(rest) <==> old(needsFullRepaint) || Repaints(effects)
        invariant !Repaints(effects) ==> !Repaints(rest) && SameDrawing(now, t)
        invariant effects == [] ==> rest == [] && out == []
        invariant AllDraw(out)
        decreases |rest|
      {
        var step: seq<Command>;
        match rest[0] {
          case HistoryRow(row) =>
            step := HistoryCommands(row, |engine.screen.rows|);
            needsFullRepaint := true;
          case AlternateScreen(alt) =>
            step := [AltBuffer(alt)];
            needsFullRepaint := true;
          case ClearHistory =>
            step := [EraseScrollback];
        }
        EffectStep(now, rest[0], step, |engine.screen.rows|);
        Extend(t, out, now, step);
        EffectDraws(rest[0], |engine.screen.rows|);
        DrawConcat(out, step);
        out, now, rest := out + step, Run(now, step), rest[1..];
      }
    }

    /** A full repaint if one is due, otherwise a diff against the cache; the cache follows. */
    method Update(ghost was: Screen, ghost t: Outer) returns (out: seq<Command>)
      requires Valid() && OuterOk(t) && Plain(t) && t.alt == engine.screen.alt
      requires SameSize(was, engine.screen)
      modifies this`needsFullRepaint, this`prevRows, this`prevCursor, this`prevCursorVisible
      ensures !needsFullRepaint && CacheCurrent()
      ensures out == [] <==> !old(needsFullRepaint) && old(CacheCurrent())
      ensures SameBackdrop(Run(t, out), t) && AllDraw(out)
      ensures old(needsFullRepaint) || old(CacheIs(was)) ==>
        Updated(t, Run(t, out), old(needsFullRepaint), was, engine.screen)
      ensures Fits(t, engine.screen) && (old(needsFullRepaint) || old(CacheShown(t))) ==>
        Faithful(Run(t, out), engine.screen)
    {
      hide Run, Patched, CursorPlaced, Updated, Faithful, ShowsRows, AllDraw;
      if needsFullRepaint {
        needsFullRepaint := false;
        out := RepaintBytes(engine.screen, t);
        RepaintIsUpdate(t, Run(t, out), was, engine.screen);
      } else {
        out := ScreenDiffBytes(prevRows, engine.screen, prevCursor, prevCursorVisible, t);
        ghost var cached := engine.screen.(rows := prevRows, cursorRow := prevCursor.0, cursorCol := prevCursor.1,
                                           visible := prevCursorVisible);
        if CacheIs(was) {
          DiffIsUpdate(t, Run(t, out), was, engine.screen);
        }
        if Fits(t, engine.screen) && CacheShown(t) {
          CachedSize(t, prevRows);
          DiffIsUpdate(t, Run(t, out), cached, engine.screen);
          UpdatedIsFaithful(t, Run(t, out), false, cached, engine.screen);
        }
      }
      RememberState();
    }

    /** Append the update, if any, inside a synchronized update that is closed after it. */
    method EmitUpdate(rendered: seq<Command>, hasEffects: bool, ghost was: Screen, ghost t: Outer, ghost before: Outer)
      returns (out: seq<Command>)
      requires Valid() && OuterOk(t) && before == Run(t, rendered) && Plain(before) && before.sync == hasEffects
      requires before.alt == engine.screen.alt && SameSize(was, engine.screen)
      requires Opened(rendered, hasEffects)
      modifies this`needsFullRepaint, this`prevRows, this`prevCursor, this`prevCursorVisible
      ensures !needsFullRepaint && CacheCurrent()
      ensures !old(needsFullRepaint) && old(CacheCurrent()) && !hasEffects ==> out == rendered
      ensures OneUpdate(out)
      ensures SameBackdrop(Run(t, out), before.(sync := false))
      ensures old(needsFullRepaint) || old(CacheIs(was)) ==>
        Updated(before, Run(t, out), old(needsFullRepaint), was, engine.screen)
      ensures Fits(t, engine.screen) && (old(needsFullRepaint) || old(CacheShown(before))) ==>
        Faithful(Run(t, out), engine.screen)
    {
      hide Run, Exec, Diffed, Picture, ShowsRows, AllDraw, Opened, OneUpdate;
      ghost var synced := before.(sync := true);
      SyncDoesNotShow(before, true, prevRows);
      var update := Update(was, synced);
      SyncDoesNotShow(Run(synced, update), false, engine.screen.rows);
      Wrapped(t, rendered, before, hasEffects, update);
      WrappedOnce(rendered, hasEffects, update);
      out := rendered;
      if update == [] {
        if hasEffects {
          out := out + [Sync(false)];
        }
        return;
      }
      if !hasEffects {
        out := out + [Sync(true)];
      }
      out := out + update;
      out := out + [Sync(false)];
    }

    /** What is sent for the effects of a chunk that has brought the engine from `was` to its new screen. */
    method RenderEffects(effects: seq<Effect>, ghost was: Screen, ghost t: Outer) returns (out: seq<Command>)
      requires Valid() && OuterOk(t) && Plain(t) && !t.sync && t.alt == was.alt
      requires EffectsOk(was.alt, effects, engine.screen.alt) && SameSize(was, engine.screen)
      modifies this`needsFullRepaint, this`prevRows, this`prevCursor, this`prevCursorVisible
      ensures !needsFullRepaint && CacheCurrent() && Attached(Run(t, out))
      ensures Run(t, out).scrollback == HistoryAfter(t.scrollback, effects, |t.rows| <= |engine.screen.rows|)
      ensures var repaint := old(needsFullRepaint) || Repaints(effects);
        repaint || old(CacheIs(was)) ==> Updated(t, Run(t, out), repaint, was, engine.screen)
      ensures Fits(t, engine.screen) && (old(needsFullRepaint) || Repaints(effects) || old(CacheShown(t))) ==>
        Faithful(Run(t, out), engine.screen)
      ensures old(!needsFullRepaint && CacheCurrent()) && effects == [] ==> out == [Signal]
      ensures OneUpdate(out) && DrawsInside(t, out)
    {
      hide Exec, Run, HistoryAfter, EffectsOk, Diffed, Picture, AllDraw, OneUpdate, DrawsInside;
      var hasEffects := effects != [];
      out := if hasEffects then [Signal, Sync(true)] else [Signal];
      Begin(t, hasEffects);
      ghost var now := Run(t, out);
      var forwarded := ForwardEffects(effects, was.alt, now);
      Extend(t, out, now, forwarded);
      out, now := out + forwarded, Run(now, forwarded);
      assert forwarded == [] ==> [Signal] + forwarded == [Signal];
      OpenedWith(forwarded, hasEffects);
      out := EmitUpdate(out, hasEffects, was, t, now);
      OneUpdateDrawsInside(t, out);
    }

    /**
      * After a chunk the outer terminal's scrollback has grown by exactly the rows that scrolled
      * off, unless the terminal is taller than the engine, which loses them all. On a terminal of the
      * engine's size the whole screen is drawn if a repaint was due or the chunk scrolls or switches
      * buffers; otherwise exactly the rows that the chunk changed. So a terminal that agreed with the
      * cache shows the engine's screen, and a chunk that changes nothing visible repaints nothing.
      * Whatever is drawn, history rows and switches included, is drawn in one synchronized update.
      */
    method RenderChunk(ops: seq<Op>, ghost t: Outer) returns (out: seq<Command>)
      requires Valid() && OpsOk(engine.screen, ops) && Attached(t)
      modifies this
      ensures Valid() && !needsFullRepaint && CacheCurrent()
      ensures engine.screen == FinalScreen(old(engine.screen), ops) && SameSize(old(engine.screen), engine.screen)
      ensures Attached(Run(t, out))
      ensures Run(t, out).scrollback == Scrollback(t.scrollback, ops, |t.rows| <= |old(engine.screen).rows|)
      ensures var repaint := old(needsFullRepaint) || Stirs(old(engine.screen), ops);
        repaint || old(CacheCurrent()) ==> Updated(t, Run(t, out), repaint, old(engine.screen), engine.screen)
      ensures old(Agrees(t)) ==> Agrees(Run(t, out)) && Faithful(Run(t, out), engine.screen)
      ensures old(!needsFullRepaint && CacheCurrent()) && Invisible(old(engine.screen), ops) ==> out == [Signal]
      ensures OneUpdate(out) && DrawsInside(t, out)
    {
      hide OneUpdate, DrawsInside, Run, Scrollback, HistoryAfter, EffectsOk, FinalScreen, OpsOk, ReportedAll, Updated;
      ghost var before := engine.screen;
      var effects;
      engine, effects := FeedRender(engine, ops);
      ReportedIsOk(before, ops);
      EffectsTellHistory(t.scrollback, before, ops, |t.rows| <= |before.rows|);
      StirsRepaints(before, ops);
      out := RenderEffects(effects, before, t);
    }
  }

  lemma CachedSize(t: Outer, rows: seq<Row>)
    requires ShowsRows(t, rows)
    ensures |t.rows| == |rows|
  {
  }

  lemma RepaintIsUpdate(t: Outer, now: Outer, was: Screen, next: Screen)
    requires SameSize(was, next) && |now.rows| == |t.rows| && now.width == t.width
    requires now.alt == next.alt && now.visible == next.visible
    requires Fits(t, next) ==>
      ShowsRows(now, next.rows) && ShowsCursor(now, next.cursorRow, next.cursorCol, next.visible)
    ensures Updated(t, now, true, was, next) && (Fits(t, next) ==> Faithful(now, next))
  {
    if Fits(t, next) {
      FullDrawing(now, next);
    }
  }

  lemma DiffIsUpdate(t: Outer, now: Outer, was: Screen, next: Screen)
    requires ScreenOk(next) && SameSize(was, next) && CursorPlaced(t, now, next, !SameScreen(was, next))
    requires Room(t, was.rows, next.rows) ==>
      Patched(t.rows, now.rows, was.rows, next.rows, Max(|was.rows|, |next.rows|))
    ensures Updated(t, now, false, was, next)
  {
    hide Patched, CursorPlaced, Diffed;
    SentVisible(t, now, next, !SameScreen(was, next));
    if Fits(t, next) {
      DiffDrawing(t, now, was, next);
    }
  }

  lemma SentVisible(t: Outer, now: Outer, next: Screen, sent: bool)
    requires CursorPlaced(t, now, next, sent)
    ensures now.visible == if sent then next.visible else t.visible
  {
  }

  /** What is sent before the update: signals, and an open synchronized update around the effects. */
  predicate Opened(rendered: seq<Command>, hasEffects: bool) {
    if hasEffects then |rendered| >= 2 && rendered[..2] == [Signal, Sync(true)] && AllDraw(rendered[2..])
    else rendered == [Signal]
  }

  lemma OpenedWith(forwarded: seq<Command>, hasEffects: bool)
    requires AllDraw(forwarded) && (!hasEffects ==> forwarded == [])
    ensures Opened((if hasEffects then [Signal, Sync(true)] else [Signal]) + forwarded, hasEffects)
  {
    hide AllDraw;
    var head := if hasEffects then [Signal, Sync(true)] else [Signal];
    assert (head + forwarded)[|head|..] == forwarded && (head + forwarded)[..|head|] == head;
  }

  lemma WrappedOnce(rendered: seq<Command>, hasEffects: bool, update: seq<Command>)
    requires Opened(rendered, hasEffects) && AllDraw(update)
    ensures OneUpdate((if hasEffects then rendered else rendered + [Sync(true)]) + update + [Sync(false)])
    ensures hasEffects ==> OneUpdate(rendered + [Sync(false)])
    ensures !hasEffects ==> OneUpdate(rendered)
  {
    hide AllDraw;
    NothingDraws();
    var head := if hasEffects then rendered else rendered + [Sync(true)];
    assert head[..2] == [Signal, Sync(true)];
    var body := head[2..];
    assert !hasEffects ==> body == [];
    DrawConcat(body, update);
    var out := head + update + [Sync(false)];
    assert out[2..|out| - 1] == body + update && out[..2] == head[..2];
    if hasEffects {
      var closed := rendered + [Sync(false)];
      assert closed[2..|closed| - 1] == body && closed[..2] == head[..2];
    }
  }

  /** A synchronized update changes nothing that is shown. */
  lemma SyncDoesNotShow(t: Outer, on: bool, rows: seq<Row>)
    ensures ShowsRows(t.(sync := on), rows) == ShowsRows(t, rows)
  {
  }

  lemma ExecSync(t: Outer, on: bool)
    requires OuterOk(t)
    ensures Exec(t, Sync(on)) == t.(sync := on)
  {
  }

  /** An update inside a synchronized update that the effects have opened, or that is opened for it. */
  lemma Wrapped(t: Outer, rendered: seq<Command>, before: Outer, hasEffects: bool, update: seq<Command>)
    requires OuterOk(t) && before == Run(t, rendered) && before.sync == hasEffects
    ensures Run(t, (if hasEffects then rendered else rendered + [Sync(true)]) + update + [Sync(false)]) ==
      Run(before.(sync := true), update).(sync := false)
    ensures update == [] ==> Run(before.(sync := true), update) == before.(sync := true)
    ensures Run(t, rendered + [Sync(false)]) == before.(sync := false)
  {
    hide Run, Exec;
    ExecSync(before, true);
    ExecSync(before, false);
    ExecSync(Run(before.(sync := true), update), false);
    var head := if hasEffects then rendered else rendered + [Sync(true)];
    var synced := before.(sync := true);
    Extend1(t, rendered, before, Sync(true));
    Extend1(t, rendered, before, Sync(false));
    Extend(t, head, synced, update);
    Extend1(t, head + update, Run(synced, update), Sync(false));
    Run1(synced, update);
  }

  lemma SwitchFirst(t: Outer, alt: bool)
    requires OuterOk(t)
    ensures Run(t, [Signal, AltBuffer(alt)]) == Switched(t, alt)
  {
    hide Switched, Run;
    Run2(t, Signal, AltBuffer(alt));
  }

  lemma Begin(t: Outer, hasEffects: bool)
    requires OuterOk(t)
    ensures Run(t, if hasEffects then [Signal, Sync(true)] else [Signal]) ==
      if hasEffects then t.(sync := true) else t
  {
    Run2(t, Signal, Sync(true));
    Run1(t, [Signal]);
  }

  /** What is drawn, apart from scrollback and modes. */
  predicate SameDrawing(a: Outer, b: Outer) {
    && a.rows == b.rows && a.cursorRow == b.cursorRow && a.cursorCol == b.cursorCol
    && a.visible == b.visible && a.alt == b.alt
  }
}
