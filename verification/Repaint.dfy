/**
 What `tui_flush` emits, as a function of the two grids, and why a terminal that
 interprets it ends up showing the back grid.
 */
module Repaint {
  import opened Terminal

  /** What the flush knows of the terminal: row -1 and pen 255 mean "nothing". */
  datatype Hw = Hw(row: int, col: int, pen: Pen)

  const UNKNOWN_PEN := Pen(255, 255, 255)
  const UNKNOWN_HW := Hw(-1, -1, UNKNOWN_PEN)

  // ----- The bytes

  function Jump(r: nat, c: nat): string {
    [ESC, '['] + Decimal(r + 1) + ";" + Decimal(c + 1) + "H"
  }

  function SgrBytes(a: nat): string {
    [ESC, '['] + Decimal(a) + "m"
  }

  function PenBytes(p: Pen): string {
    SgrBytes(0)
    + (if p.bold != 0 then SgrBytes(1) else "")
    + (if p.fg != 0 then SgrBytes(p.fg) else "")
    + (if p.bg != 0 then SgrBytes(p.bg) else "")
  }

  function ShownCh(ch: char): char { if ch == NUL then ' ' else ch }

  /** A cell that has to be redrawn: jump and pen change only where needed. */
  function CellBytes(hw: Hw, r: nat, c: nat, cell: Cell): string {
    (if hw.row != r || hw.col != c then Jump(r, c) else "")
    + (if cell.pen != hw.pen then PenBytes(cell.pen) else "")
    + [ShownCh(cell.ch)]
  }

  predicate Dirty(front: Cell, back: Cell, force: bool) { force || back != front }

  datatype Out = Out(bytes: string, hw: Hw)

  /** The first `n` columns of row `r`. */
  function EmitRow(front: seq<Cell>, back: seq<Cell>, force: bool, r: nat, n: nat, hw: Hw): Out
    requires n <= |front| == |back|
  {
    if n == 0 then Out("", hw)
    else
      var o := EmitRow(front, back, force, r, n - 1, hw);
      if Dirty(front[n - 1], back[n - 1], force)
      then Out(o.bytes + CellBytes(o.hw, r, n - 1, back[n - 1]), Hw(r, n, back[n - 1].pen))
      else o
  }

  predicate SameSize(a: Grid, b: Grid) {
    |a| == |b| && forall r :: 0 <= r < |a| ==> |a[r]| == |b[r]|
  }

  /** The first `n` rows. */
  function EmitRows(front: Grid, back: Grid, force: bool, n: nat): Out
    requires SameSize(front, back) && n <= |back|
  {
    if n == 0 then Out("", UNKNOWN_HW)
    else
      var o := EmitRows(front, back, force, n - 1);
      var row := EmitRow(front[n - 1], back[n - 1], force, n - 1, |back[n - 1]|, o.hw);
      Out(o.bytes + row.bytes, row.hw)
  }

  function Emit(front: Grid, back: Grid, force: bool): string
    requires SameSize(front, back)
  {
    EmitRows(front, back, force, |back|).bytes
  }

  /** The cell is on the terminal as it is. */
  predicate Current(front: Cell, back: Cell, force: bool) { !force && front == back }

  predicate Same(front: seq<Cell>, back: seq<Cell>, force: bool, n: nat)
    requires n <= |front| == |back|
  {
    forall c :: 0 <= c < n ==> Current(front[c], back[c], force)
  }

  lemma {:induction false} RowSilent(front: seq<Cell>, back: seq<Cell>, force: bool, r: nat, n: nat, hw: Hw)
    requires n <= |front| == |back|
    ensures |EmitRow(front, back, force, r, n, hw).bytes| == 0 <==> Same(front, back, force, n)
  {
    if n > 0 {
      RowSilent(front, back, force, r, n - 1, hw);
    }
  }

  lemma {:induction false} RowsSilent(front: Grid, back: Grid, force: bool, n: nat)
    requires SameSize(front, back) && n <= |back|
    ensures |EmitRows(front, back, force, n).bytes| == 0
      <==> forall r :: 0 <= r < n ==> Same(front[r], back[r], force, |back[r]|)
  {
    if n > 0 {
      RowsSilent(front, back, force, n - 1);
      RowSilent(front[n - 1], back[n - 1], force, n - 1, |back[n - 1]|, EmitRows(front, back, force, n - 1).hw);
    }
  }

  ghost predicate AllSame(front: Grid, back: Grid, force: bool)
    requires SameSize(front, back)
  {
    forall r, c :: 0 <= r < |back| && 0 <= c < |back[r]| ==> Current(front[r][c], back[r][c], force)
  }

  lemma SameRows(front: Grid, back: Grid, force: bool)
    requires SameSize(front, back)
    ensures AllSame(front, back, force) <==> forall r :: 0 <= r < |back| ==> Same(front[r], back[r], force, |back[r]|)
  {
    if AllSame(front, back, force) {
      forall r | 0 <= r < |back| ensures Same(front[r], back[r], force, |back[r]|) {
        forall c | 0 <= c < |back[r]| ensures Current(front[r][c], back[r][c], force) { }
      }
    }
    if forall r :: 0 <= r < |back| ==> Same(front[r], back[r], force, |back[r]|) {
      forall r, c | 0 <= r < |back| && 0 <= c < |back[r]| ensures Current(front[r][c], back[r][c], force) {
        assert Same(front[r], back[r], force, |back[r]|);
      }
    }
  }

  /** Nothing is sent if and only if no cell differs and nothing is to be redrawn. */
  lemma {:induction false} SilentIfClean(front: Grid, back: Grid, force: bool)
    requires SameSize(front, back)
    ensures Emit(front, back, force) == "" <==> AllSame(front, back, force)
  {
    RowsSilent(front, back, force, |back|);
    SameRows(front, back, force);
  }

  // ----- One control sequence

  /** A control sequence is scanned, obeyed and left behind. */
  lemma {:induction false} CsiRuns(s: Screen, p: string, args: seq<nat>, argc: nat, cmd: char, rest: string)
    requires AtCsi(p) && cmd != NUL && |args| == 8 && argc < 8
    requires ScanArgs(p[2..], NO_ARGS, 0) == Scan(args, argc, [cmd] + rest)
    ensures Interp(s, p) == Interp(Command(s, cmd, args[..argc + 1]), rest)
  {
    assert ([cmd] + rest)[1..] == rest;
  }

  lemma Pieces(a: string, b: string, rest: string)
    ensures ([ESC, '['] + a + ";" + b + "H" + rest)[2..] == a + ([';'] + (b + (['H'] + rest)))
  {
  }

  lemma {:induction false} ScanJump(r: nat, c: nat, rest: string)
    ensures ScanArgs((Jump(r, c) + rest)[2..], NO_ARGS, 0) == Scan([r + 1, c + 1, 0, 0, 0, 0, 0, 0], 1, ['H'] + rest)
  {
    var tail := ['H'] + rest;
    var sep := [';'] + (Decimal(c + 1) + tail);
    Pieces(Decimal(r + 1), Decimal(c + 1), rest);
    ScanDecimal(r + 1, sep, NO_ARGS, 0);
    var args := NO_ARGS[0 := r + 1];
    assert sep[1..] == Decimal(c + 1) + tail;
    ScanDecimal(c + 1, tail, args, 1);
    assert args[1 := c + 1] == [r + 1, c + 1, 0, 0, 0, 0, 0, 0];
  }

  lemma {:induction false} JumpRuns(s: Screen, r: nat, c: nat, rest: string)
    ensures Interp(s, Jump(r, c) + rest) == Interp(s.(row := r, col := c), rest)
  {
    var args := [r + 1, c + 1, 0, 0, 0, 0, 0, 0];
    ScanJump(r, c, rest);
    CsiRuns(s, Jump(r, c) + rest, args, 1, 'H', rest);
    assert Command(s, 'H', args[..2]) == s.(row := r, col := c);
  }

  lemma {:induction false} SgrRuns(s: Screen, a: nat, rest: string)
    ensures Interp(s, SgrBytes(a) + rest) == Interp(s.(pen := Sgr1(s.pen, a)), rest)
  {
    var tail := ['m'] + rest;
    var args := NO_ARGS[0 := a];
    assert (SgrBytes(a) + rest)[2..] == Decimal(a) + tail;
    ScanDecimal(a, tail, NO_ARGS, 0);
    CsiRuns(s, SgrBytes(a) + rest, args, 0, 'm', rest);
    assert args[..1] == [a];
    assert Sgr(s.pen, [a]) == Sgr1(s.pen, a);
  }

  lemma Assoc(a: string, b: string, rest: string)
    ensures a + b + rest == a + (b + rest)
  {
  }

  lemma Assoc3(a: string, b: string, c: string, rest: string)
    ensures a + b + c + rest == a + (b + (c + rest))
  {
  }

  /** A sequence that is only sent when its argument is not 0. */
  lemma {:induction false} SgrIfRuns(s: Screen, a: nat, send: bool, rest: string)
    ensures Interp(s, (if send then SgrBytes(a) else "") + rest)
         == Interp(if send then s.(pen := Sgr1(s.pen, a)) else s, rest)
  {
    if send { SgrRuns(s, a, rest); } else { assert "" + rest == rest; }
  }

  lemma Assoc4(a: string, b: string, c: string, d: string, rest: string)
    ensures a + b + c + d + rest == a + (b + (c + (d + rest)))
  {
  }

  lemma {:induction false} ColoursRun(s: Screen, p: Pen, rest: string)
    requires ValidPen(p)
    ensures var fg := if p.fg != 0 then SgrBytes(p.fg) else ""; var bg := if p.bg != 0 then SgrBytes(p.bg) else "";
      Interp(s.(pen := Pen(0, 0, p.bold)), fg + (bg + rest)) == Interp(s.(pen := p), rest)
  {
    var bg := if p.bg != 0 then SgrBytes(p.bg) else "";
    SgrIfRuns(s.(pen := Pen(0, 0, p.bold)), p.fg, p.fg != 0, bg + rest);
    SgrIfRuns(s.(pen := Pen(p.fg, 0, p.bold)), p.bg, p.bg != 0, rest);
  }

  /** Resetting and building up again reaches every valid pen from any pen. */
  lemma {:induction false} PenRuns(s: Screen, p: Pen, rest: string)
    requires ValidPen(p)
    ensures Interp(s, PenBytes(p) + rest) == Interp(s.(pen := p), rest)
  {
    var bold := if p.bold != 0 then SgrBytes(1) else "";
    var fg := if p.fg != 0 then SgrBytes(p.fg) else "";
    var bg := if p.bg != 0 then SgrBytes(p.bg) else "";
    Assoc4(SgrBytes(0), bold, fg, bg, rest);
    SgrRuns(s, 0, bold + (fg + (bg + rest)));
    SgrIfRuns(s.(pen := DEFAULT_PEN), 1, p.bold != 0, fg + (bg + rest));
    ColoursRun(s, p, rest);
  }

  // ----- One cell

  /** The terminal agrees with what the flush knows of it. */
  predicate Tracks(s: Screen, hw: Hw) {
    (hw.row >= 0 ==> s.row == hw.row && s.col == hw.col)
    && (hw.pen != UNKNOWN_PEN ==> s.pen == hw.pen)
  }

  function Paint(s: Screen, r: nat, c: nat, cell: Cell): Screen {
    Put(s.(row := r, col := c, pen := cell.pen), ShownCh(cell.ch))
  }

  predicate EndsInEsc(s: string) { s != "" && s[|s| - 1] == ESC }

  predicate StartsWithBracket(s: string) { s != "" && s[0] == '[' }

  /** A control sequence would be read across the border of two pieces of output. */
  predicate OpensCsi(before: string, after: string) { EndsInEsc(before) && StartsWithBracket(after) }

  lemma {:induction false} CharRuns(s: Screen, ch: char, rest: string)
    requires ch != '\n' && ch != '\r' && ch != NUL && !OpensCsi([ch], rest)
    ensures Interp(s, [ch] + rest) == Interp(Put(s, ch), rest)
  {
    assert ([ch] + rest)[1..] == rest;
  }

  /** Jump and attributes take the terminal to the cell with its pen. */
  lemma {:induction false} CellLeadIn(s: Screen, hw: Hw, r: nat, c: nat, cell: Cell, rest: string)
    requires Tracks(s, hw) && ValidPen(cell.pen)
    ensures Interp(s, CellBytes(hw, r, c, cell) + rest)
         == Interp(s.(row := r, col := c, pen := cell.pen), [ShownCh(cell.ch)] + rest)
  {
    var jump := if hw.row != r || hw.col != c then Jump(r, c) else "";
    var pen := if cell.pen != hw.pen then PenBytes(cell.pen) else "";
    var ch := [ShownCh(cell.ch)];
    Assoc3(jump, pen, ch, rest);
    JumpIfRuns(s, r, c, hw.row != r || hw.col != c, pen + (ch + rest));
    PenIfRuns(s.(row := r, col := c), cell.pen, cell.pen != hw.pen, ch + rest);
  }

  lemma {:induction false} CellRuns(s: Screen, hw: Hw, r: nat, c: nat, cell: Cell, rest: string)
    requires Tracks(s, hw) && Drawable(cell) && !OpensCsi([cell.ch], rest)
    ensures Interp(s, CellBytes(hw, r, c, cell) + rest) == Interp(Paint(s, r, c, cell), rest)
    ensures Tracks(Paint(s, r, c, cell), Hw(r, c + 1, cell.pen))
  {
    CellLeadIn(s, hw, r, c, cell, rest);
    CharRuns(s.(row := r, col := c, pen := cell.pen), ShownCh(cell.ch), rest);
  }

  lemma {:induction false} JumpIfRuns(s: Screen, r: nat, c: nat, send: bool, rest: string)
    requires !send ==> s.row == r && s.col == c
    ensures Interp(s, (if send then Jump(r, c) else "") + rest) == Interp(s.(row := r, col := c), rest)
  {
    if send { JumpRuns(s, r, c, rest); } else { assert "" + rest == rest; }
  }

  lemma {:induction false} PenIfRuns(s: Screen, p: Pen, send: bool, rest: string)
    requires ValidPen(p) && (!send ==> s.pen == p)
    ensures Interp(s, (if send then PenBytes(p) else "") + rest) == Interp(s.(pen := p), rest)
  {
    if send { PenRuns(s, p, rest); } else { assert "" + rest == rest; }
  }

  // ----- Rows and grids

  function PaintRow(s: Screen, front: seq<Cell>, back: seq<Cell>, force: bool, r: nat, n: nat): Screen
    requires n <= |front| == |back|
  {
    if n == 0 then s
    else
      var t := PaintRow(s, front, back, force, r, n - 1);
      if Dirty(front[n - 1], back[n - 1], force) then Paint(t, r, n - 1, back[n - 1]) else t
  }

  /**
   Two neighbouring sent cells of one pen hold ESC and '[': nothing is sent between
   the two characters.
   */
  predicate Clash(front: seq<Cell>, back: seq<Cell>, force: bool, c: nat)
    requires |front| == |back| && c + 1 < |back|
  {
    Dirty(front[c], back[c], force) && Dirty(front[c + 1], back[c + 1], force)
    && back[c].pen == back[c + 1].pen && back[c].ch == ESC && back[c + 1].ch == '['
  }

  predicate NoClash(front: seq<Cell>, back: seq<Cell>, force: bool)
    requires |front| == |back|
  {
    forall c :: 0 <= c < |back| - 1 ==> !Clash(front, back, force, c)
  }

  /** The cell that `hw` remembers is the last one sent. */
  predicate Remembers(o: Out, front: seq<Cell>, back: seq<Cell>, force: bool, r: nat, n: nat)
    requires n <= |front| == |back|
  {
    && o.bytes != "" && o.hw.row == r && 0 < o.hw.col <= n
    && var d := o.hw.col - 1;
    && Dirty(front[d], back[d], force)
    && o.hw.pen == back[d].pen && o.bytes[|o.bytes| - 1] == ShownCh(back[d].ch)
  }

  lemma CellEnd(before: string, hw: Hw, r: nat, c: nat, cell: Cell)
    ensures var s := before + CellBytes(hw, r, c, cell); s != "" && s[|s| - 1] == ShownCh(cell.ch)
  {
  }

  lemma SentNow(before: string, hw: Hw, front: seq<Cell>, back: seq<Cell>, force: bool, r: nat, c: nat)
    requires c < |front| == |back| && Dirty(front[c], back[c], force)
    ensures Remembers(Out(before + CellBytes(hw, r, c, back[c]), Hw(r, c + 1, back[c].pen)), front, back, force, r, c + 1)
  {
    CellEnd(before, hw, r, c, back[c]);
  }

  /** The output of a row ends with its last dirty cell, and `hw` remembers that cell. */
  lemma {:induction false} LastSent(front: seq<Cell>, back: seq<Cell>, force: bool, r: nat, n: nat, hw: Hw)
    requires n <= |front| == |back|
    ensures var o := EmitRow(front, back, force, r, n, hw);
      if o.bytes == "" then o.hw == hw else Remembers(o, front, back, force, r, n)
  {
    if n > 0 {
      LastSent(front, back, force, r, n - 1, hw);
      if Dirty(front[n - 1], back[n - 1], force) {
        var o := EmitRow(front, back, force, r, n - 1, hw);
        SentNow(o.bytes, o.hw, front, back, force, r, n - 1);
      }
    }
  }

  /** Only the character of a cell can be a bracket at its start. */
  lemma CellStart(hw: Hw, r: nat, c: nat, cell: Cell)
    ensures CellBytes(hw, r, c, cell) != ""
    ensures CellBytes(hw, r, c, cell)[0]
      == if hw.row != r || hw.col != c || cell.pen != hw.pen then ESC else ShownCh(cell.ch)
  {
  }

  /** Without clashes no control sequence is read across the border between two cells. */
  lemma {:induction false} CellsApart(front: seq<Cell>, back: seq<Cell>, force: bool, r: nat, n: nat, hw: Hw, rest: string)
    requires n < |front| == |back| && NoClash(front, back, force) && Dirty(front[n], back[n], force)
    ensures var o := EmitRow(front, back, force, r, n, hw);
      !OpensCsi(o.bytes, CellBytes(o.hw, r, n, back[n]) + rest)
  {
    LastSent(front, back, force, r, n, hw);
    CellStart(EmitRow(front, back, force, r, n, hw).hw, r, n, back[n]);
    assert n > 0 ==> !Clash(front, back, force, n - 1);
  }

  lemma {:induction false} RowRuns(s: Screen, hw: Hw, front: seq<Cell>, back: seq<Cell>, force: bool, r: nat, n: nat,
                                   rest: string)
    requires n <= |front| == |back| && Tracks(s, hw) && NoClash(front, back, force)
    requires forall c :: 0 <= c < n ==> Drawable(back[c])
    requires !OpensCsi(EmitRow(front, back, force, r, n, hw).bytes, rest)
    ensures Interp(s, EmitRow(front, back, force, r, n, hw).bytes + rest)
         == Interp(PaintRow(s, front, back, force, r, n), rest)
    ensures Tracks(PaintRow(s, front, back, force, r, n), EmitRow(front, back, force, r, n, hw).hw)
  {
    if n == 0 {
      assert "" + rest == rest;
    } else if Dirty(front[n - 1], back[n - 1], force) {
      var o := EmitRow(front, back, force, r, n - 1, hw);
      var cell := CellBytes(o.hw, r, n - 1, back[n - 1]);
      CellsApart(front, back, force, r, n - 1, hw, rest);
      RowRuns(s, hw, front, back, force, r, n - 1, cell + rest);
      CellAfterRuns(s, PaintRow(s, front, back, force, r, n - 1), o, r, n - 1, back[n - 1], rest);
    } else {
      RowRuns(s, hw, front, back, force, r, n - 1, rest);
    }
  }

  /** One more cell behind output that has been understood. */
  lemma {:induction false} CellAfterRuns(s: Screen, t: Screen, o: Out, r: nat, c: nat, b: Cell, rest: string)
    requires var cell := CellBytes(o.hw, r, c, b);
      Interp(s, o.bytes + (cell + rest)) == Interp(t, cell + rest) && !OpensCsi(o.bytes + cell, rest)
    requires Tracks(t, o.hw) && Drawable(b)
    ensures Interp(s, o.bytes + CellBytes(o.hw, r, c, b) + rest) == Interp(Paint(t, r, c, b), rest)
    ensures Tracks(Paint(t, r, c, b), Hw(r, c + 1, b.pen))
  {
    var cell := CellBytes(o.hw, r, c, b);
    Assoc(o.bytes, cell, rest);
    CellEnd(o.bytes, o.hw, r, c, b);
    CellRuns(t, o.hw, r, c, b, rest);
  }

  function ShownCell(cell: Cell): Cell { cell.(ch := ShownCh(cell.ch)) }

  function ShownRow(row: seq<Cell>): (s: seq<Cell>)
    ensures |s| == |row|
  {
    seq(|row|, c requires 0 <= c < |row| => ShownCell(row[c]))
  }

  /** A grid as the terminal displays it: NUL cells are blank. */
  function Shown(g: Grid): (s: Grid)
    ensures |s| == |g|
  {
    seq(|g|, r requires 0 <= r < |g| => ShownRow(g[r]))
  }

  /** Painting a row touches that row only, and there the first `n` columns. */
  lemma {:induction false} PaintRowShows(s: Screen, front: seq<Cell>, back: seq<Cell>, force: bool, r: nat, n: nat)
    requires n <= |front| == |back| && r < |s.grid| && |s.grid[r]| == |back|
    requires !force ==> s.grid[r] == ShownRow(front)
    ensures var t := PaintRow(s, front, back, force, r, n);
      t.grid == s.grid[r := ShownRow(back)[..n] + s.grid[r][n..]]
  {
    if n == 0 {
      assert s.grid[r] == ShownRow(back)[..0] + s.grid[r][0..];
    } else {
      PaintRowShows(s, front, back, force, r, n - 1);
      var row := ShownRow(back)[..n - 1] + s.grid[r][n - 1..];
      assert row[n - 1 := ShownCell(back[n - 1])] == ShownRow(back)[..n] + s.grid[r][n..];
      if !Dirty(front[n - 1], back[n - 1], force) {
        assert row[n - 1] == ShownCell(back[n - 1]);
        assert row == row[n - 1 := ShownCell(back[n - 1])];
      }
    }
  }

  function PaintRows(s: Screen, front: Grid, back: Grid, force: bool, n: nat): Screen
    requires SameSize(front, back) && n <= |back|
  {
    if n == 0 then s
    else
      PaintRow(PaintRows(s, front, back, force, n - 1), front[n - 1], back[n - 1], force, n - 1, |back[n - 1]|)
  }

  /** No row of the flush has a clash. */
  ghost predicate Unambiguous(front: Grid, back: Grid, force: bool)
    requires SameSize(front, back)
  {
    forall r :: 0 <= r < |back| ==> NoClash(front[r], back[r], force)
  }

  /** The output of a row begins with a jump when the terminal was in another row. */
  lemma {:induction false} RowStart(front: seq<Cell>, back: seq<Cell>, force: bool, r: nat, n: nat, hw: Hw)
    requires n <= |front| == |back| && hw.row != r
    ensures var o := EmitRow(front, back, force, r, n, hw); o.bytes != "" ==> o.bytes[0] == ESC
  {
    if n > 0 {
      RowStart(front, back, force, r, n - 1, hw);
      LastSent(front, back, force, r, n - 1, hw);
      CellStart(EmitRow(front, back, force, r, n - 1, hw).hw, r, n - 1, back[n - 1]);
    }
  }

  lemma {:induction false} RowsSent(front: Grid, back: Grid, force: bool, n: nat)
    requires SameSize(front, back) && n <= |back|
    ensures EmitRows(front, back, force, n).hw.row < n
  {
    if n > 0 {
      RowsSent(front, back, force, n - 1);
      LastSent(front[n - 1], back[n - 1], force, n - 1, |back[n - 1]|, EmitRows(front, back, force, n - 1).hw);
    }
  }

  /** No control sequence is read across the border between a row and what precedes or follows it. */
  lemma RowsApart(before: string, row: string, rest: string)
    requires row != "" ==> row[0] == ESC
    requires !OpensCsi(before + row, rest)
    ensures !OpensCsi(before, row + rest) && !OpensCsi(row, rest)
  {
    if row == "" {
      assert before + row == before && row + rest == rest;
    }
  }

  lemma {:induction false} RowsRun(s: Screen, front: Grid, back: Grid, force: bool, n: nat, rest: string)
    requires n <= |back| && SameSize(front, back) && DrawableGrid(back) && Unambiguous(front, back, force)
    requires !OpensCsi(EmitRows(front, back, force, n).bytes, rest)
    ensures var o := EmitRows(front, back, force, n); var t := PaintRows(s, front, back, force, n);
      Interp(s, o.bytes + rest) == Interp(t, rest) && Tracks(t, o.hw)
  {
    if n == 0 {
      assert "" + rest == rest;
    } else {
      var o := EmitRows(front, back, force, n - 1);
      var t := PaintRows(s, front, back, force, n - 1);
      var f, b := front[n - 1], back[n - 1];
      var row := EmitRow(f, b, force, n - 1, |b|, o.hw);
      RowsSent(front, back, force, n - 1);
      RowStart(f, b, force, n - 1, |b|, o.hw);
      RowsApart(o.bytes, row.bytes, rest);
      RowsRun(s, front, back, force, n - 1, row.bytes + rest);
      RowRuns(t, o.hw, f, b, force, n - 1, |b|, rest);
      Assoc(o.bytes, row.bytes, rest);
    }
  }

  lemma Replaced<T>(s: seq<T>, t: seq<T>)
    requires |s| == |t|
    ensures s[..|t|] + t[|t|..] == s
  {
  }

  lemma Advance<T>(s: seq<T>, t: seq<T>, n: nat)
    requires n < |s| == |t|
    ensures (s[..n] + t[n..])[n := s[n]] == s[..n + 1] + t[n + 1..]
    ensures (s[..n] + t[n..])[n] == t[n]
  {
  }

  lemma {:induction false} PaintRowsShows(s: Screen, front: Grid, back: Grid, force: bool, n: nat)
    requires n <= |back| && SameSize(front, back) && SameSize(s.grid, back)
    requires !force ==> s.grid == Shown(front)
    ensures PaintRows(s, front, back, force, n).grid == Shown(back)[..n] + s.grid[n..]
  {
    if n == 0 {
      assert s.grid == Shown(back)[..0] + s.grid[0..];
    } else {
      PaintRowsShows(s, front, back, force, n - 1);
      var t := PaintRows(s, front, back, force, n - 1);
      Advance(Shown(back), s.grid, n - 1);
      assert !force ==> s.grid[n - 1] == Shown(front)[n - 1];
      PaintRowShows(t, front[n - 1], back[n - 1], force, n - 1, |back[n - 1]|);
      Replaced(ShownRow(back[n - 1]), t.grid[n - 1]);
    }
  }

  // ----- Main results

  /**
   A terminal that shows the front grid (any terminal at all under a forced
   redraw) shows the back grid once it has interpreted what a flush emits.
   */
  lemma {:induction false} EmitRepaints(s: Screen, front: Grid, back: Grid, force: bool)
    requires SameSize(front, back) && SameSize(s.grid, back) && DrawableGrid(back) && Unambiguous(front, back, force)
    requires !force ==> s.grid == Shown(front)
    ensures Interp(s, Emit(front, back, force)).grid == Shown(back)
  {
    var bytes := Emit(front, back, force);
    RowsRun(s, front, back, force, |back|, "");
    assert bytes + "" == bytes;
    PaintRowsShows(s, front, back, force, |back|);
    assert Shown(back)[..|back|] + s.grid[|back|..] == Shown(back);
  }

  /** The incremental redraw and the full repaint of any terminal agree. */
  lemma {:induction false} IncrementalEqualsFull(s: Screen, other: Screen, front: Grid, stale: Grid, back: Grid)
    requires SameSize(front, back) && SameSize(stale, back)
    requires s.grid == Shown(front) && SameSize(other.grid, back) && DrawableGrid(back)
    requires Unambiguous(stale, back, true)
    ensures Interp(s, Emit(front, back, false)).grid == Interp(other, Emit(stale, back, true)).grid
  {
    forall r | 0 <= r < |back| ensures NoClash(front[r], back[r], false) {
      assert NoClash(stale[r], back[r], true);
      forall c | 0 <= c < |back[r]| - 1 ensures !Clash(front[r], back[r], false, c) {
        assert !Clash(stale[r], back[r], true, c);
      }
    }
    EmitRepaints(s, front, back, false);
    EmitRepaints(other, stale, back, true);
  }

  /** The bytes of two neighbouring sent cells of one pen. */
  function PairBytes(hw: Hw, r: nat, c: nat, a: Cell, b: Cell): string {
    CellBytes(hw, r, c, a) + CellBytes(Hw(r, c + 1, a.pen), r, c + 1, b)
  }

  /**
   The guard is the exact one.  The bytes of two neighbouring sent cells of one pen paint
   both if and only if they are not ESC and '['; if they are, they paint neither.
   */
  lemma {:induction false} PairPaints(s: Screen, hw: Hw, r: nat, c: nat, a: Cell, b: Cell)
    requires Tracks(s, hw) && Drawable(a) && Drawable(b) && a.pen == b.pen
    ensures var t := Interp(s, PairBytes(hw, r, c, a, b)); var clash := a.ch == ESC && b.ch == '[';
      && (t == Paint(Paint(s, r, c, a), r, c + 1, b) <==> !clash)
      && (clash ==> t.grid == s.grid)
  {
    var first, second := CellBytes(hw, r, c, a), CellBytes(Hw(r, c + 1, a.pen), r, c + 1, b);
    assert second == [ShownCh(b.ch)];
    assert second + "" == second;
    if a.ch == ESC && b.ch == '[' {
      CellLeadIn(s, hw, r, c, a, "[");
      assert Interp(s.(row := r, col := c, pen := a.pen), [ESC, '[']) == s.(row := r, col := c, pen := a.pen);
    } else {
      CellRuns(s, hw, r, c, a, second);
      CellRuns(Paint(s, r, c, a), Hw(r, c + 1, a.pen), r, c + 1, b, "");
    }
  }

  // ----- Size of the output

  lemma DecimalLength(n: nat)
    ensures n < 10 ==> |Decimal(n)| == 1
    ensures n < 100 ==> |Decimal(n)| <= 2
    ensures n < 1000 ==> |Decimal(n)| <= 3
  {
  }

  /** Size of the output buffer. */
  const RAW_CAPACITY := 65536

  const MAX_ROWS := 128
  const MAX_COLS := 256

  /** The most one redrawn cell can cost. */
  const CELL_COST := 30

  lemma {:induction false} CellCost(hw: Hw, r: nat, c: nat, cell: Cell)
    requires r < MAX_ROWS && c < MAX_COLS && ValidPen(cell.pen)
    ensures |CellBytes(hw, r, c, cell)| <= CELL_COST
  {
    DecimalLength(r + 1);
    DecimalLength(c + 1);
    DecimalLength(0);
    DecimalLength(1);
    DecimalLength(cell.pen.fg);
    DecimalLength(cell.pen.bg);
    assert |Jump(r, c)| <= 10;
    assert |PenBytes(cell.pen)| <= 19;
  }

  lemma {:induction false} RowCost(front: seq<Cell>, back: seq<Cell>, force: bool, r: nat, n: nat, hw: Hw)
    requires n <= |front| == |back| <= MAX_COLS && r < MAX_ROWS
    requires forall c :: 0 <= c < n ==> ValidPen(back[c].pen)
    ensures |EmitRow(front, back, force, r, n, hw).bytes| <= CELL_COST * n
  {
    if n > 0 {
      RowCost(front, back, force, r, n - 1, hw);
      CellCost(EmitRow(front, back, force, r, n - 1, hw).hw, r, n - 1, back[n - 1]);
    }
  }

  lemma {:induction false} EmitCost(front: Grid, back: Grid, force: bool, n: nat, cols: nat)
    requires n <= |back| <= MAX_ROWS && cols <= MAX_COLS && ValidPens(back)
    requires HasSize(front, |back|, cols) && HasSize(back, |back|, cols)
    ensures |EmitRows(front, back, force, n).bytes| <= CELL_COST * (n * cols)
  {
    if n > 0 {
      EmitCost(front, back, force, n - 1, cols);
      RowCost(front[n - 1], back[n - 1], force, n - 1, cols, EmitRows(front, back, force, n - 1).hw);
      assert n * cols == (n - 1) * cols + cols;
    }
  }
}
