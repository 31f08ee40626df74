/**
  * The terminal engine as its renderer sees it: a screen, retained history, and the adapter that
  * reports scrolled-off rows and buffer switches while the engine runs. What the engine does to
  * its screen is not modelled: every operation carries the screen that results from it.
  */
module TerminalEngine {
  import opened Bytes

  type Row = seq<byte>

  /** A line as a viewer sees it; `Unknown` stands for whatever a terminal happens to show. */
  datatype Cell = Shown(row: Row) | Unknown

  datatype Screen = Screen(rows: seq<Row>, width: nat, cursorRow: nat, cursorCol: nat, visible: bool, alt: bool)

  predicate ScreenOk(s: Screen) {
    s.cursorRow < |s.rows| && s.cursorCol < s.width
  }

  predicate SameSize(a: Screen, b: Screen) {
    |a.rows| == |b.rows| && a.width == b.width
  }

  /** `history` belongs to the main buffer and keeps at most `limit` rows, newest last. */
  datatype Engine = Engine(screen: Screen, history: seq<Row>, limit: nat)

  predicate EngineOk(e: Engine) {
    ScreenOk(e.screen) && |e.history| <= e.limit
  }

  /** One operation of the engine, by its effect on history and buffer. */
  datatype Op =
    | Draw(after: Screen)                     // no row leaves the main screen
    | Scroll(scrolled: seq<Row>, after: Screen)
    | SwitchBuffer(after: Screen)
    | ClearSaved(after: Screen)
    | Reset(after: Screen)

  /** An operation keeps the size, and scrolls at most one screenful off the main screen. */
  predicate OpOk(before: Screen, op: Op) {
    && ScreenOk(op.after) && SameSize(before, op.after)
    && match op
       case Draw(after) => after.alt == before.alt
       case Scroll(scrolled, after) => !before.alt && !after.alt && |scrolled| <= |before.rows|
       case SwitchBuffer(after) => after.alt != before.alt
       case ClearSaved(after) => after.alt == before.alt
       case Reset(after) => !after.alt
  }

  predicate OpsOk(before: Screen, ops: seq<Op>)
    decreases |ops|
  {
    ops != [] ==> OpOk(before, ops[0]) && OpsOk(ops[0].after, ops[1..])
  }

  datatype Effect = HistoryRow(row: Row) | AlternateScreen(alt: bool) | ClearHistory

  function Newest(rows: seq<Row>, limit: nat): (r: seq<Row>)
    ensures |r| == Min(|rows|, limit)
  {
    if |rows| <= limit then rows else rows[|rows| - limit..]
  }

  /** The engine itself: history takes the scrolled rows and drops its oldest at the limit. */
  function Operate(e: Engine, op: Op): (r: Engine)
    requires OpOk(e.screen, op)
  {
    match op
    case Scroll(scrolled, after) => Engine(after, Newest(e.history + scrolled, e.limit), e.limit)
    case ClearSaved(after) => Engine(after, if e.screen.alt then e.history else [], e.limit)
    case Reset(after) => Engine(after, [], e.limit)
    case _ => e.(screen := op.after)
  }

  /** All rows that left the main screen since the last clear there, before any is dropped. */
  function NextMemory(memory: seq<Row>, before: Screen, op: Op): (r: seq<Row>) {
    match op
    case Scroll(scrolled, _) => memory + scrolled
    case ClearSaved(_) => if before.alt then memory else []
    case Reset(_) => []
    case _ => memory
  }

  function Memory(memory: seq<Row>, before: Screen, ops: seq<Op>): (r: seq<Row>)
    decreases |ops|
  {
    if ops == [] then memory else Memory(NextMemory(memory, before, ops[0]), ops[0].after, ops[1..])
  }

  function UpdateHistory(e: Engine, limit: nat): (r: Engine) {
    Engine(e.screen, Newest(e.history, limit), limit)
  }

  function HistoryRows(rows: seq<Row>): (r: seq<Effect>)
    ensures |r| == |rows|
  {
    seq(|rows|, i requires 0 <= i < |rows| => HistoryRow(rows[i]))
  }

  /** The adapter around one operation: give history headroom, run, report what grew, trim. */
  method Apply(e: Engine, op: Op) returns (e': Engine, effects: seq<Effect>)
    requires EngineOk(e) && OpOk(e.screen, op)
    ensures EngineOk(e') && e'.screen == op.after
    ensures effects == Reported(e.screen, op)
    // on the main buffer one screenful is kept, on the alternate one nothing is dropped
    ensures e'.history == if op.after.alt then NextMemory(e.history, e.screen, op)
                          else Newest(NextMemory(e.history, e.screen, op), |e.screen.rows|)
  {
    hide Operate, Newest, Reported, OpOk, NextMemory;
    effects := if op.ClearSaved? || op.Reset? then [ClearHistory] else [];
    var altBefore := e.screen.alt;
    var retained := |e.screen.rows|;
    var before := if altBefore then 0 else |e.history|;
    e' := e;
    if !altBefore {
      e' := UpdateHistory(e', before + retained);
    }
    e' := Operate(e', op);
    OperateShows(if altBefore then e else UpdateHistory(e, before + retained), op);
    OperateRemembers(e, op, e', retained);
    var altAfter := e'.screen.alt;
    if altAfter != altBefore {
      effects := effects + [AlternateScreen(altAfter)];
    }
    if !altAfter {
      var added := if altBefore then 0 else Max(0, |e'.history| - before);
      GrownIsScrolled(e, op, e', added);
      var grown := e'.history[|e'.history| - added..];
      effects := effects + HistoryRows(grown);
      e' := UpdateHistory(e', retained);
    }
    ReportedParts(e.screen, op);
  }

  lemma OperateShows(e: Engine, op: Op)
    requires OpOk(e.screen, op)
    ensures Operate(e, op).screen == op.after && Operate(e, op).limit == e.limit && ScreenOk(op.after)
    ensures |e.history| <= e.limit ==> |Operate(e, op).history| <= e.limit
  {
  }

  /** With that headroom nothing is dropped. */
  lemma OperateRemembers(e: Engine, op: Op, e': Engine, retained: nat)
    requires EngineOk(e) && OpOk(e.screen, op) && retained == |e.screen.rows|
    requires e' == Operate(if e.screen.alt then e else UpdateHistory(e, |e.history| + retained), op)
    ensures e'.history == NextMemory(e.history, e.screen, op)
  {
    assert e.history + [] == e.history;
  }

  /** A report is a clear, a switch and the scrolled rows, each only if it applies. */
  lemma ReportedParts(before: Screen, op: Op)
    requires OpOk(before, op)
    ensures Reported(before, op) ==
      (if op.ClearSaved? || op.Reset? then [ClearHistory] else []) +
      (if before.alt != op.after.alt then [AlternateScreen(op.after.alt)] else []) +
      (if op.after.alt then [] else HistoryRows(if op.Scroll? then op.scrolled else []))
  {
  }

  /** With a screenful of headroom, history grows by exactly the rows that scrolled off. */
  lemma GrownIsScrolled(e: Engine, op: Op, e': Engine, added: nat)
    requires EngineOk(e) && OpOk(e.screen, op) && !op.after.alt
    requires e' == Operate(if e.screen.alt then e else UpdateHistory(e, |e.history| + |e.screen.rows|), op)
    requires added == if e.screen.alt then 0 else Max(0, |e'.history| - |e.history|)
    ensures added <= |e'.history|
    ensures e'.history[|e'.history| - added..] == if op.Scroll? then op.scrolled else []
  {
    if op.Scroll? {
      assert e'.history == e.history + op.scrolled;
    }
  }

  /** What the renderer must hear about one operation: each row that scrolled off, and no other. */
  function Reported(before: Screen, op: Op): (r: seq<Effect>) {
    var switch := if before.alt != op.after.alt then [AlternateScreen(op.after.alt)] else [];
    match op
    case Scroll(scrolled, _) => HistoryRows(scrolled)
    case ClearSaved(_) => [ClearHistory]
    case Reset(_) => [ClearHistory] + switch
    case _ => switch
  }

  function ReportedAll(before: Screen, ops: seq<Op>): (r: seq<Effect>)
    decreases |ops|
  {
    if ops == [] then [] else Reported(before, ops[0]) + ReportedAll(ops[0].after, ops[1..])
  }

  function FinalScreen(before: Screen, ops: seq<Op>): (r: Screen)
    decreases |ops|
  {
    if ops == [] then before else FinalScreen(ops[0].after, ops[1..])
  }

  /** Operations that change nothing on the screen and nothing in history. */
  predicate Invisible(before: Screen, ops: seq<Op>) {
    FinalScreen(before, ops) == before && ReportedAll(before, ops) == []
  }

  /** Feeding a chunk runs the adapter over the operations that its bytes parse to. */
  method FeedRender(e: Engine, ops: seq<Op>) returns (e': Engine, effects: seq<Effect>)
    requires EngineOk(e) && OpsOk(e.screen, ops)
    ensures EngineOk(e') && e'.screen == FinalScreen(e.screen, ops)
    ensures effects == ReportedAll(e.screen, ops)
    ensures Newest(e'.history, |e.screen.rows|) == Newest(Memory(e.history, e.screen, ops), |e.screen.rows|)
    ensures ops != [] && !e'.screen.alt ==> |e'.history| <= |e.screen.rows|
  {
    hide Newest, Reported, NextMemory;
    ghost var height := |e.screen.rows|;
    e', effects := e, [];
    var rest := ops;
    while rest != []
      invariant EngineOk(e') && OpsOk(e'.screen, rest)
      invariant FinalScreen(e'.screen, rest) == FinalScreen(e.screen, ops)
      invariant effects + ReportedAll(e'.screen, rest) == ReportedAll(e.screen, ops)
      invariant |e'.screen.rows| == height
      invariant Newest(Memory(e'.history, e'.screen, rest), height) == Newest(Memory(e.history, e.screen, ops), height)
      invariant rest != ops && !e'.screen.alt ==> |e'.history| <= height
      decreases |rest|
    {
      ghost var before := e';
      var more;
      e', more := Apply(e', rest[0]);
      ConcatAssoc(effects, more, ReportedAll(rest[0].after, rest[1..]));
      NewestTwice(NextMemory(before.history, before.screen, rest[0]), height);
      SameMemory(NextMemory(before.history, before.screen, rest[0]), e'.history, e'.screen, rest[1..], height);
      effects := effects + more;
      rest := rest[1..];
    }
    assert effects + [] == effects;
  }

  /** Rows are dropped from the oldest on. */
  lemma NewestIs(rows: seq<Row>, limit: nat)
    ensures Newest(rows, limit) == rows[|rows| - |Newest(rows, limit)|..]
  {
  }

  lemma NewestTwice(rows: seq<Row>, height: nat)
    ensures Newest(Newest(rows, height), height) == Newest(rows, height)
  {
  }

  lemma NewestAfter(a: seq<Row>, more: seq<Row>, height: nat)
    ensures Newest(a + more, height) == Newest(Newest(a, height) + more, height)
  {
  }

  /** What was dropped from further back than a screenful is never missed. */
  lemma {:induction false} SameMemory(a: seq<Row>, b: seq<Row>, before: Screen, ops: seq<Op>, height: nat)
    requires Newest(a, height) == Newest(b, height)
    ensures Newest(Memory(a, before, ops), height) == Newest(Memory(b, before, ops), height)
    decreases |ops|
  {
    if ops != [] {
      if ops[0].Scroll? {
        NewestAfter(a, ops[0].scrolled, height);
        NewestAfter(b, ops[0].scrolled, height);
      }
      SameMemory(NextMemory(a, before, ops[0]), NextMemory(b, before, ops[0]), ops[0].after, ops[1..], height);
    }
  }

  // ----- what a list of effects means -----

  /** Some row scrolls off or the buffer is switched: the renderer has to draw everything again. */
  predicate Repaints(effects: seq<Effect>) {
    effects != [] && (!effects[0].ClearHistory? || Repaints(effects[1..]))
  }

  /** The same, of the operations. */
  predicate Stirs(before: Screen, ops: seq<Op>)
    decreases |ops|
  {
    ops != [] &&
    ((ops[0].Scroll? && ops[0].scrolled != []) || ops[0].after.alt != before.alt || Stirs(ops[0].after, ops[1..]))
  }

  lemma {:induction false} RepaintsConcat(a: seq<Effect>, b: seq<Effect>)
    ensures Repaints(a + b) <==> Repaints(a) || Repaints(b)
  {
    if a == [] {
      assert a + b == b;
    } else {
      RepaintsConcat(a[1..], b);
      assert (a + b)[1..] == a[1..] + b;
    }
  }

  lemma OneStir(before: Screen, op: Op)
    requires OpOk(before, op)
    ensures Repaints(Reported(before, op)) <==> (op.Scroll? && op.scrolled != []) || op.after.alt != before.alt
  {
    if op.Reset? {
      var switch := Reported(before, op)[1..];
      assert switch == if before.alt != op.after.alt then [AlternateScreen(op.after.alt)] else [];
    }
    if op.ClearSaved? {
      assert Reported(before, op)[1..] == [];
    }
  }

  lemma {:induction false} StirsRepaints(before: Screen, ops: seq<Op>)
    requires OpsOk(before, ops)
    ensures Repaints(ReportedAll(before, ops)) <==> Stirs(before, ops)
    decreases |ops|
  {
    if ops != [] {
      OneStir(before, ops[0]);
      RepaintsConcat(Reported(before, ops[0]), ReportedAll(ops[0].after, ops[1..]));
      StirsRepaints(ops[0].after, ops[1..]);
    }
  }

  /** A history row is reported only on the main buffer, and every switch is reported. */
  predicate EffectsOk(alt: bool, effects: seq<Effect>, altAfter: bool)
    decreases |effects|
  {
    if effects == [] then alt == altAfter
    else
      match effects[0]
      case HistoryRow(_) => !alt && EffectsOk(alt, effects[1..], altAfter)
      case AlternateScreen(a) => a != alt && EffectsOk(a, effects[1..], altAfter)
      case ClearHistory => EffectsOk(alt, effects[1..], altAfter)
  }

  lemma {:induction false} EffectsConcat(alt: bool, a: seq<Effect>, mid: bool, b: seq<Effect>, altAfter: bool)
    requires EffectsOk(alt, a, mid) && EffectsOk(mid, b, altAfter)
    ensures EffectsOk(alt, a + b, altAfter)
    decreases |a|
  {
    if a == [] {
      assert a + b == b;
    } else {
      assert (a + b)[1..] == a[1..] + b;
      match a[0]
      case AlternateScreen(next) => EffectsConcat(next, a[1..], mid, b, altAfter);
      case _ => EffectsConcat(alt, a[1..], mid, b, altAfter);
    }
  }

  lemma {:induction false} HistoryRowsOk(rows: seq<Row>)
    ensures EffectsOk(false, HistoryRows(rows), false)
  {
    if rows != [] {
      HistoryRowsOk(rows[1..]);
      assert HistoryRows(rows)[1..] == HistoryRows(rows[1..]);
    }
  }

  /** The contract of the engine towards the renderer follows from the adapter. */
  lemma {:induction false} ReportedIsOk(before: Screen, ops: seq<Op>)
    requires ScreenOk(before) && OpsOk(before, ops)
    ensures EffectsOk(before.alt, ReportedAll(before, ops), FinalScreen(before, ops).alt)
    ensures SameSize(before, FinalScreen(before, ops)) && ScreenOk(FinalScreen(before, ops))
    decreases |ops|
  {
    if ops != [] {
      var op := ops[0];
      ReportedIsOk(op.after, ops[1..]);
      if op.Scroll? {
        HistoryRowsOk(op.scrolled);
      }
      assert EffectsOk(before.alt, Reported(before, op), op.after.alt);
      EffectsConcat(before.alt, Reported(before, op), op.after.alt, ReportedAll(op.after, ops[1..]),
                    FinalScreen(before, ops).alt);
    }
  }

  function Cells(rows: seq<Row>): (r: seq<Cell>)
    ensures |r| == |rows|
  {
    seq(|rows|, i requires 0 <= i < |rows| => Shown(rows[i]))
  }

  /**
    * Scrollback as the effects describe it, for a viewer that keeps the rows it is sent or for one
    * that loses them.
    */
  function HistoryAfter(history: seq<Cell>, effects: seq<Effect>, kept: bool): (r: seq<Cell>)
    decreases |effects|
  {
    if effects == [] then history
    else
      match effects[0]
      case HistoryRow(row) => HistoryAfter(if kept then history + [Shown(row)] else history, effects[1..], kept)
      case AlternateScreen(_) => HistoryAfter(history, effects[1..], kept)
      case ClearHistory => HistoryAfter([], effects[1..], kept)
  }

  /** One operation: the rows it scrolls off the main screen join history, a clear empties it. */
  function NextHistory(history: seq<Cell>, op: Op, kept: bool): (r: seq<Cell>) {
    match op
    case Scroll(scrolled, _) => if kept then history + Cells(scrolled) else history
    case ClearSaved(_) => []
    case Reset(_) => []
    case _ => history
  }

  /** Scrollback as the operations mean it: if kept, all rows that left the main screen since the last clear. */
  function Scrollback(history: seq<Cell>, ops: seq<Op>, kept: bool): (r: seq<Cell>)
    decreases |ops|
  {
    if ops == [] then history
    else Scrollback(NextHistory(history, ops[0], kept), ops[1..], kept)
  }

  /** Rows lost since the last clear. */
  function LostRows(lost: nat, ops: seq<Op>, kept: bool): (r: nat)
    decreases |ops|
  {
    if ops == [] then lost else LostRows(NextLost(lost, ops[0], kept), ops[1..], kept)
  }

  function NextLost(lost: nat, op: Op, kept: bool): (r: nat) {
    match op
    case Scroll(scrolled, _) => if kept then lost else lost + |scrolled|
    case ClearSaved(_) => 0
    case Reset(_) => 0
    case _ => lost
  }

  /** What separates scrollback from the true history is exactly the number of rows lost. */
  ghost predicate Behind(scrollback: seq<Cell>, history: seq<Cell>, lost: nat) {
    |scrollback| + lost == |history| && (lost == 0 ==> scrollback == history)
  }

  lemma {:induction false} StaysBehind(scrollback: seq<Cell>, history: seq<Cell>, lost: nat, ops: seq<Op>, kept: bool)
    requires Behind(scrollback, history, lost)
    ensures Behind(Scrollback(scrollback, ops, kept), Scrollback(history, ops, true), LostRows(lost, ops, kept))
    decreases |ops|
  {
    if ops != [] {
      var op := ops[0];
      StaysBehind(NextHistory(scrollback, op, kept), NextHistory(history, op, true), NextLost(lost, op, kept),
                  ops[1..], kept);
    }
  }

  lemma {:induction false} HistoryAfterConcat(history: seq<Cell>, a: seq<Effect>, b: seq<Effect>, kept: bool)
    ensures HistoryAfter(history, a + b, kept) == HistoryAfter(HistoryAfter(history, a, kept), b, kept)
    decreases |a|
  {
    if a == [] {
      assert a + b == b;
    } else {
      assert (a + b)[1..] == a[1..] + b;
      match a[0]
      case HistoryRow(row) => HistoryAfterConcat(if kept then history + [Shown(row)] else history, a[1..], b, kept);
      case AlternateScreen(_) => HistoryAfterConcat(history, a[1..], b, kept);
      case ClearHistory => HistoryAfterConcat([], a[1..], b, kept);
    }
  }

  lemma {:induction false} HistoryAfterRows(history: seq<Cell>, rows: seq<Row>, kept: bool)
    ensures HistoryAfter(history, HistoryRows(rows), kept) == if kept then history + Cells(rows) else history
    decreases |rows|
  {
    if rows == [] {
      assert history + Cells(rows) == history;
    } else {
      HistoryAfterRows(if kept then history + [Shown(rows[0])] else history, rows[1..], kept);
      assert HistoryRows(rows)[1..] == HistoryRows(rows[1..]);
      ConcatAssoc(history, [Shown(rows[0])], Cells(rows[1..]));
      assert [Shown(rows[0])] + Cells(rows[1..]) == Cells(rows);
    }
  }

  lemma SwitchKeepsHistory(history: seq<Cell>, alt: bool, kept: bool)
    ensures HistoryAfter(history, [AlternateScreen(alt)], kept) == history
  {
    assert [AlternateScreen(alt)][1..] == [];
  }

  lemma OneReport(history: seq<Cell>, before: Screen, op: Op, kept: bool)
    ensures HistoryAfter(history, Reported(before, op), kept) == NextHistory(history, op, kept)
  {
    SwitchKeepsHistory(history, op.after.alt, kept);
    SwitchKeepsHistory([], op.after.alt, kept);
    match op
    case Scroll(scrolled, _) =>
      HistoryAfterRows(history, scrolled, kept);
    case ClearSaved(_) =>
      assert [ClearHistory][1..] == [];
    case Reset(_) =>
      var switch := Reported(before, op)[1..];
      assert switch == [] || switch == [AlternateScreen(op.after.alt)];
    case _ =>
  }

  /** The effects lose, add and duplicate nothing. */
  lemma {:induction false} EffectsTellHistory(history: seq<Cell>, before: Screen, ops: seq<Op>, kept: bool)
    requires OpsOk(before, ops)
    ensures HistoryAfter(history, ReportedAll(before, ops), kept) == Scrollback(history, ops, kept)
    decreases |ops|
  {
    if ops != [] {
      var op := ops[0];
      HistoryAfterConcat(history, Reported(before, op), ReportedAll(op.after, ops[1..]), kept);
      OneReport(history, before, op, kept);
      EffectsTellHistory(NextHistory(history, op, kept), op.after, ops[1..], kept);
    }
  }
}
