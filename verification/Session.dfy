/**
 Whole sessions of the installer's screen: any interleaving of drawing, forced
 redraws and flushes, with the terminal at the other end.
 */
module Session {
  import opened Terminal
  import opened Repaint

  datatype Event = Draw(text: string) | Redraw | Flush

  datatype State = State(front: Grid, drawing: Screen, force: bool, tty: Screen)

  /** What the front grid is filled with when the screen is to be redrawn. */
  const STALE := Cell('\U{ff}', UNKNOWN_PEN)

  function Stale(g: Grid): Grid {
    seq(|g|, r requires 0 <= r < |g| => seq(|g[r]|, _ => STALE))
  }

  function Step(s: State, e: Event): State
    requires SameSize(s.front, s.drawing.grid)
  {
    match e
    case Draw(text) => s.(drawing := Interp(s.drawing, text))
    case Redraw => s.(front := Stale(s.front), force := true)
    case Flush =>
      s.(front := s.drawing.grid, force := false, tty := Interp(s.tty, Emit(s.front, s.drawing.grid, s.force)))
  }

  /** Front grid and terminal agree, or everything is due for redrawing. */
  ghost predicate Ready(s: State, rows: nat, cols: nat) {
    && rows <= MAX_ROWS && cols <= MAX_COLS
    && HasSize(s.front, rows, cols) && HasSize(s.drawing.grid, rows, cols) && HasSize(s.tty.grid, rows, cols)
    && ValidPen(s.drawing.pen) && DrawableGrid(s.drawing.grid)
    && (!s.force ==> s.tty.grid == Shown(s.front))
  }

  /** A flush now would not drop anything. */
  predicate Fits(s: State)
    requires SameSize(s.front, s.drawing.grid)
  {
    |Emit(s.front, s.drawing.grid, s.force)| < RAW_CAPACITY
  }

  /** A flush now sends no ESC directly in front of a bracket that belongs to another cell. */
  ghost predicate Clear(s: State)
    requires SameSize(s.front, s.drawing.grid)
  {
    Unambiguous(s.front, s.drawing.grid, s.force)
  }

  /** One event.  A flush sends all its output, as the renderer does exactly when it fits. */
  predicate Follows(s: State, e: Event, s': State) { SameSize(s.front, s.drawing.grid) && s' == Step(s, e) }

  ghost predicate ClearAt(s: State, e: Event) { e.Flush? && SameSize(s.front, s.drawing.grid) ==> Clear(s) }

  ghost predicate IsRun(states: seq<State>, events: seq<Event>) {
    |states| == |events| + 1 && forall i :: 0 <= i < |events| ==> Follows(states[i], events[i], states[i + 1])
  }

  lemma DrawableHasPens(g: Grid)
    requires DrawableGrid(g)
    ensures ValidPens(g)
  {
    forall r, c | 0 <= r < |g| && 0 <= c < |g[r]| ensures ValidPen(g[r][c].pen) {
      assert Drawable(g[r][c]);
    }
  }

  lemma {:induction false} StepStaysReady(s: State, e: Event, rows: nat, cols: nat)
    requires Ready(s, rows, cols) && (e.Flush? ==> Clear(s))
    ensures Ready(Step(s, e), rows, cols)
    ensures e.Flush? ==> Step(s, e).tty.grid == Shown(s.drawing.grid)
  {
    match e {
      case Draw(text) =>
        DrawableHasPens(s.drawing.grid);
        InterpKeepsPens(s.drawing, text);
        InterpKeepsSize(s.drawing, text, rows, cols);
        InterpKeepsDrawable(s.drawing, text);
      case Redraw =>
      case Flush =>
        EmitRepaints(s.tty, s.front, s.drawing.grid, s.force);
    }
  }

  /** After a forced redraw one flush shows the drawing, whatever the terminal has come to show. */
  lemma {:induction false} RedrawRecovers(s: State, tty: Screen, rows: nat, cols: nat)
    requires Ready(s, rows, cols) && HasSize(tty.grid, rows, cols) && Clear(Step(s, Redraw))
    ensures var t := Step(Step(s, Redraw).(tty := tty), Flush);
      t.tty.grid == Shown(s.drawing.grid) && Ready(t, rows, cols)
  {
    var redrawn := Step(s, Redraw).(tty := tty);
    EmitRepaints(tty, redrawn.front, s.drawing.grid, true);
  }

  lemma {:induction false} SmallScreensFit(s: State, rows: nat, cols: nat)
    requires Ready(s, rows, cols) && rows * cols <= 2184
    ensures Fits(s)
  {
    DrawableHasPens(s.drawing.grid);
    EmitCost(s.front, s.drawing.grid, s.force, rows, cols);
  }

  /**
   In every run with clear flushes the terminal shows the drawing after each flush,
   whatever was drawn, redrawn and flushed before, and on screens of at most 2184 cells
   a flush fits the output buffer at any time.
   */
  lemma {:induction false} SessionShowsDrawing(states: seq<State>, events: seq<Event>, rows: nat, cols: nat, i: nat)
    requires IsRun(states, events) && Ready(states[0], rows, cols) && i <= |events|
    requires forall j :: 0 <= j < |events| ==> ClearAt(states[j], events[j])
    ensures Ready(states[i], rows, cols)
    ensures i > 0 && events[i - 1].Flush? ==> states[i].tty.grid == Shown(states[i].drawing.grid)
    ensures rows * cols <= 2184 ==> Fits(states[i])
    decreases i
  {
    if i > 0 {
      SessionShowsDrawing(states, events, rows, cols, i - 1);
      assert Follows(states[i - 1], events[i - 1], states[i - 1 + 1]) && ClearAt(states[i - 1], events[i - 1]);
      StepStaysReady(states[i - 1], events[i - 1], rows, cols);
    }
    if rows * cols <= 2184 {
      SmallScreensFit(states[i], rows, cols);
    }
  }

  /**
   On a screen of at most 2184 cells without ESC in its cells, every run that only draws
   text whose ESCs all open control sequences has only flushes that fit and are clear,
   and each of them shows the drawing.
   */
  lemma {:induction false} PlainTextIsShown(states: seq<State>, events: seq<Event>, rows: nat, cols: nat, i: nat)
    requires IsRun(states, events) && i <= |events|
    requires Ready(states[0], rows, cols) && NoEscCells(states[0].drawing.grid) && rows * cols <= 2184
    requires forall j :: 0 <= j < |events| && events[j].Draw? ==> EscOpensCsi(events[j].text)
    ensures Ready(states[i], rows, cols) && NoEscCells(states[i].drawing.grid) && Fits(states[i]) && Clear(states[i])
    ensures i > 0 && events[i - 1].Flush? ==> states[i].tty.grid == Shown(states[i].drawing.grid)
    decreases i
  {
    if i > 0 {
      PlainTextIsShown(states, events, rows, cols, i - 1);
      assert Follows(states[i - 1], events[i - 1], states[i - 1 + 1]);
      StepStaysReady(states[i - 1], events[i - 1], rows, cols);
      if events[i - 1].Draw? {
        InterpLeavesNoEsc(states[i - 1].drawing, events[i - 1].text);
      }
    }
    SmallScreensFit(states[i], rows, cols);
    NoEscIsClear(states[i]);
  }

  lemma NoEscIsClear(s: State)
    requires NoEscCells(s.drawing.grid)
    ensures SameSize(s.front, s.drawing.grid) ==> Clear(s)
  {
    if SameSize(s.front, s.drawing.grid) {
      var g := s.drawing.grid;
      forall r, c | 0 <= r < |g| && 0 <= c < |g[r]| - 1 ensures !Clash(s.front[r], g[r], s.force, c) {
        assert g[r][c].ch != ESC;
      }
    }
  }
}
