/**
  * An abstract outer terminal: what it shows, and what the commands that the attach renderer sends
  * make of it.
  */
module OuterTerminal {
  import opened Bytes
  import opened TerminalEngine

  datatype Column = At(col: nat) | Somewhere

  datatype Outer = Outer(
    rows: seq<Cell>,
    width: nat,
    cursorRow: nat,
    cursorCol: Column,
    visible: bool,
    alt: bool,
    mainRows: seq<Cell>,            // the main screen while the alternate screen is shown
    scrollback: seq<Cell>,          // rows that commands pushed off the main screen
    margins: Option<(nat, nat)>,    // scroll region, if not the whole screen
    origin: bool,                   // positions are relative to the scroll region
    styled: bool,                   // text attributes may be set
    sync: bool)                     // inside a synchronized update

  predicate OuterOk(t: Outer) {
    && t.cursorRow < |t.rows| && t.width > 0 && |t.mainRows| == |t.rows|
    && (t.margins.Some? ==> t.margins.value.0 <= t.margins.value.1 < |t.rows|)
  }

  datatype Command =
    | OriginOff                     // CSI ?6l
    | MarginsReset                  // CSI r
    | MoveTo(line: nat, column: nat)  // CSI line;column H, one-based
    | SgrReset                      // CSI 0m
    | Text(row: Row)                // a styled row, then CSI K
    | CrLf
    | AltBuffer(on: bool)           // CSI ?1049h / l
    | EraseScrollback               // CSI 3J
    | ShowCursor(on: bool)          // CSI ?25h / l
    | Sync(on: bool)                // CSI ?2026h / l
    | Signal                        // title, progress and cursor-shape sequences

  function Top(t: Outer): (r: nat) {
    if t.margins.Some? then t.margins.value.0 else 0
  }

  function Bottom(t: Outer): (r: nat)
    requires OuterOk(t)
    ensures Top(t) <= r < |t.rows|
  {
    if t.margins.Some? then t.margins.value.1 else |t.rows| - 1
  }

  function Scrolled(rows: seq<Cell>, top: nat, bottom: nat): (r: seq<Cell>)
    requires top <= bottom < |rows|
    ensures |r| == |rows|
  {
    seq(|rows|, i requires 0 <= i < |rows| =>
      if top <= i < bottom then rows[i + 1] else if i == bottom then Unknown else rows[i])
  }

  /** A line feed on the last line of the region scrolls it; only a whole main screen feeds scrollback. */
  function LineFeed(t: Outer): (r: Outer)
    requires OuterOk(t)
    ensures OuterOk(r) && |r.rows| == |t.rows| && r.width == t.width
  {
    if t.cursorRow == Bottom(t) then
      t.(rows := Scrolled(t.rows, Top(t), Bottom(t)),
         scrollback := if t.alt || t.margins.Some? then t.scrollback else t.scrollback + [t.rows[0]])
    else if t.cursorRow + 1 < |t.rows| then t.(cursorRow := t.cursorRow + 1)
    else t
  }

  /** Absolute positioning, clamped to the screen. */
  function Moved(t: Outer, line: nat, column: nat): (r: Outer)
    requires OuterOk(t)
    ensures OuterOk(r) && |r.rows| == |t.rows| && r.width == t.width
  {
    var target := Max(line, 1) - 1 + (if t.origin then Top(t) else 0);
    t.(cursorRow := Min(target, |t.rows| - 1), cursorCol := At(Min(Max(column, 1) - 1, t.width - 1)))
  }

  /** Text is shown as written only from the first column and with attributes reset. */
  function Drawn(t: Outer, row: Row): (r: Outer)
    requires OuterOk(t)
    ensures OuterOk(r) && |r.rows| == |t.rows| && r.width == t.width
  {
    var cell := if t.cursorCol == At(0) && !t.styled then Shown(row) else Unknown;
    t.(rows := t.rows[t.cursorRow := cell], cursorCol := Somewhere, styled := true)
  }

  function Switched(t: Outer, on: bool): (r: Outer)
    requires OuterOk(t)
    ensures OuterOk(r) && |r.rows| == |t.rows| && r.width == t.width
  {
    if on then
      t.(alt := true, mainRows := if t.alt then t.mainRows else t.rows,
         rows := seq(|t.rows|, _ => Unknown), cursorCol := Somewhere)
    else
      t.(alt := false, rows := if t.alt then t.mainRows else t.rows, cursorCol := Somewhere)
  }

  function Exec(t: Outer, c: Command): (r: Outer)
    requires OuterOk(t)
    ensures OuterOk(r) && |r.rows| == |t.rows| && r.width == t.width
  {
    match c
    case OriginOff => t.(origin := false, cursorRow := 0, cursorCol := At(0))
    case MarginsReset => t.(margins := None, cursorRow := 0, cursorCol := At(0))
    case MoveTo(line, column) => Moved(t, line, column)
    case SgrReset => t.(styled := false)
    case Text(row) => Drawn(t, row)
    case CrLf => LineFeed(t.(cursorCol := At(0)))
    case AltBuffer(on) => Switched(t, on)
    case EraseScrollback => t.(scrollback := [])
    case ShowCursor(on) => t.(visible := on)
    case Sync(on) => t.(sync := on)
    case Signal => t
  }

  function Run(t: Outer, commands: seq<Command>): (r: Outer)
    requires OuterOk(t)
    ensures OuterOk(r) && |r.rows| == |t.rows| && r.width == t.width
    decreases |commands|
  {
    if commands == [] then t else Run(Exec(t, commands[0]), commands[1..])
  }

  lemma {:induction false} RunConcat(t: Outer, a: seq<Command>, b: seq<Command>)
    requires OuterOk(t)
    ensures Run(t, a + b) == Run(Run(t, a), b)
    decreases |a|
  {
    if a == [] {
      assert a + b == b;
    } else {
      RunConcat(Exec(t, a[0]), a[1..], b);
      assert (a + b)[1..] == a[1..] + b;
    }
  }

  lemma Run2(t: Outer, c: Command, d: Command)
    requires OuterOk(t)
    ensures Run(t, [c, d]) == Exec(Exec(t, c), d)
  {
    assert [c, d][1..] == [d] && [d][1..] == [];
    assert Run(Exec(t, c), [d]) == Run(Exec(Exec(t, c), d), []);
  }

  lemma Run3(t: Outer, c: Command, d: Command, e: Command)
    requires OuterOk(t)
    ensures Run(t, [c, d, e]) == Exec(Exec(Exec(t, c), d), e)
  {
    assert [c, d, e][1..] == [d, e];
    Run2(Exec(t, c), d, e);
  }

  // ----- what the outer terminal should show -----

  predicate ShowsRows(t: Outer, rows: seq<Row>) {
    |t.rows| == |rows| && forall i :: 0 <= i < |rows| ==> t.rows[i] == Shown(rows[i])
  }

  predicate ShowsCursor(t: Outer, row: nat, col: nat, visible: bool) {
    t.cursorRow == row && t.cursorCol == At(col) && t.visible == visible
  }

  /** The outer terminal shows the engine's screen exactly. */
  predicate Faithful(t: Outer, s: Screen) {
    && t.width == s.width && t.alt == s.alt
    && ShowsRows(t, s.rows)
    && ShowsCursor(t, s.cursorRow, s.cursorCol, s.visible)
  }

  /** Absolute positions mean what they say. */
  predicate Plain(t: Outer) {
    t.margins.None? && !t.origin
  }

  /** The terminal has the size of the screen. */
  predicate Fits(t: Outer, s: Screen) {
    |t.rows| == |s.rows| && t.width == s.width
  }

  /** Everything but what is drawn: buffer, scrollback, modes. */
  predicate SameBackdrop(a: Outer, b: Outer) {
    && a.alt == b.alt && a.mainRows == b.mainRows && a.scrollback == b.scrollback
    && a.margins == b.margins && a.origin == b.origin && a.sync == b.sync
  }

  lemma Extend(t: Outer, out: seq<Command>, now: Outer, more: seq<Command>)
    requires OuterOk(t) && now == Run(t, out)
    ensures Run(t, out + more) == Run(now, more)
  {
    RunConcat(t, out, more);
  }

  lemma Extend1(t: Outer, out: seq<Command>, now: Outer, c: Command)
    requires OuterOk(t) && now == Run(t, out)
    ensures Run(t, out + [c]) == Exec(now, c)
  {
    RunConcat(t, out, [c]);
    Run1(now, [c]);
  }

  lemma Run1(t: Outer, step: seq<Command>)
    requires OuterOk(t)
    ensures step == [] ==> Run(t, step) == t
    ensures |step| == 1 ==> Run(t, step) == Exec(t, step[0])
  {
  }

  // ----- synchronized updates -----

  predicate Draws(c: Command) {
    !c.Signal? && !c.Sync?
  }

  predicate AllDraw(commands: seq<Command>) {
    forall i :: 0 <= i < |commands| ==> Draws(commands[i])
  }

  lemma DrawConcat(a: seq<Command>, b: seq<Command>)
    ensures AllDraw(a + b) <==> AllDraw(a) && AllDraw(b)
  {
    assert forall i :: 0 <= i < |a| ==> (a + b)[i] == a[i];
    assert forall i :: 0 <= i < |b| ==> (a + b)[|a| + i] == b[i];
  }

  /** Signals only, or everything else in one synchronized update. */
  predicate OneUpdate(out: seq<Command>) {
    out == [Signal] ||
    (|out| >= 3 && out[..2] == [Signal, Sync(true)] && AllDraw(out[2..|out| - 1]) && out[|out| - 1] == Sync(false))
  }

  /** No command draws while no synchronized update is open. */
  ghost predicate DrawsInside(t: Outer, out: seq<Command>)
    requires OuterOk(t)
  {
    forall i :: 0 <= i < |out| && Draws(out[i]) ==> Run(t, out[..i]).sync
  }

  lemma {:induction false} DrawingKeepsSync(t: Outer, body: seq<Command>)
    requires OuterOk(t) && AllDraw(body)
    ensures Run(t, body).sync == t.sync
    decreases |body|
  {
    if body != [] {
      assert Draws(body[0]);
      ExecKeepsSync(t, body[0]);
      assert forall i :: 0 <= i < |body| - 1 ==> body[1..][i] == body[i + 1];
      DrawingKeepsSync(Exec(t, body[0]), body[1..]);
    }
  }

  lemma ExecKeepsSync(t: Outer, c: Command)
    requires OuterOk(t) && Draws(c)
    ensures Exec(t, c).sync == t.sync
  {
    hide Scrolled;
  }

  lemma OneUpdateDrawsInside(t: Outer, out: seq<Command>)
    requires OuterOk(t) && OneUpdate(out)
    ensures DrawsInside(t, out)
  {
    hide Run;
    if out != [Signal] {
      var head := [Signal, Sync(true)];
      assert out[0] == out[..2][0] && out[1] == out[..2][1];
      forall i | 0 <= i < |out| && Draws(out[i]) ensures Run(t, out[..i]).sync {
        var body := out[2..i];
        assert forall j :: 0 <= j < |body| ==> body[j] == out[2..|out| - 1][j];
        assert out[..i] == head + body;
        Run2(t, Signal, Sync(true));
        RunConcat(t, head, body);
        DrawingKeepsSync(Run(t, head), body);
      }
    }
  }
}
