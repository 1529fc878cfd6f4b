/**
 The double-buffered renderer of the installer: drawing goes to the back grid,
 a flush sends the difference to the terminal through a fixed output buffer.
 */
module Tui {
  import opened Terminal
  import opened Repaint
  import S = Session

  /** `tui_raw_write` on the buffer's contents: text that does not fit is dropped whole. */
  function Append(raw: string, s: string): string {
    if |raw| + |s| < RAW_CAPACITY then raw + s else raw
  }

  /** The buffer holds `full`, unless `full` has outgrown it. */
  predicate Holds(raw: string, full: string) {
    |raw| < RAW_CAPACITY && (|full| < RAW_CAPACITY ==> raw == full)
  }

  lemma Regroup(full: string, a: string, b: string, c: string, d: string)
    ensures full + a + b + c + d == full + (a + b + c + d)
  {
  }

  /** Extends the stretch from `a` that is taken from `t` instead of `s`. */
  lemma RowStep<T>(s: seq<T>, t: seq<T>, a: nat, c: nat)
    requires a <= c < |s| == |t|
    ensures (s[..a] + t[a..c] + s[c..])[c := t[c]] == s[..a] + t[a..c + 1] + s[c + 1..]
    ensures s[c] == t[c] ==> s[..a] + t[a..c] + s[c..] == s[..a] + t[a..c + 1] + s[c + 1..]
  {
  }

  lemma RowDone<T>(s: seq<T>, t: seq<T>, a: nat, c: nat)
    requires a <= c <= |s| == |t|
    requires forall i :: 0 <= i < |s| && !(a <= i < c) ==> s[i] == t[i]
    ensures s[..a] + t[a..c] + s[c..] == t
  {
  }

  lemma KeepCell(g: Grid, r: nat, c: nat)
    requires r < |g| && c < |g[r]|
    ensures g[r := g[r][c := g[r][c]]] == g
  {
    assert g[r][c := g[r][c]] == g[r];
  }

  lemma Overwrite<T>(s: seq<T>, i: nat, x: T, y: T)
    requires i < |s|
    ensures s[i := x][i := y] == s[i := y] && s[i := x][i] == x
  {
  }

  /** What one cell adds. */
  function EmitCell(front: Cell, back: Cell, force: bool, r: nat, c: nat, hw: Hw): Out {
    if Dirty(front, back, force) then Out(CellBytes(hw, r, c, back), Hw(r, c + 1, back.pen)) else Out("", hw)
  }

  /** Output so far, and one more piece. */
  predicate Grows(o: Out, o': Out, piece: Out) { o' == Out(o.bytes + piece.bytes, piece.hw) }

  /** The output of a row after each column, and what each column adds. */
  datatype Plan = Plan(outs: seq<Out>, pieces: seq<Out>)

  predicate RowPlan(p: Plan, front: seq<Cell>, back: seq<Cell>, force: bool, r: nat, hw: Hw) {
    && |front| == |back| == |p.pieces| && |p.outs| == |back| + 1 && p.outs[0] == Out("", hw)
    && forall c {:trigger p.pieces[c]} :: 0 <= c < |back| ==>
      && p.pieces[c] == EmitCell(front[c], back[c], force, r, c, p.outs[c].hw)
      && Grows(p.outs[c], p.outs[c + 1], p.pieces[c])
  }

  function PlanOf(front: seq<Cell>, back: seq<Cell>, force: bool, r: nat, hw: Hw): Plan
    requires |front| == |back|
  {
    Plan(seq(|back| + 1, c requires 0 <= c <= |back| => EmitRow(front, back, force, r, c, hw)),
         seq(|back|, c requires 0 <= c < |back| =>
           EmitCell(front[c], back[c], force, r, c, EmitRow(front, back, force, r, c, hw).hw)))
  }

  lemma {:induction false} EmitRowStep(front: seq<Cell>, back: seq<Cell>, force: bool, r: nat, c: nat, hw: Hw)
    requires c < |front| == |back|
    ensures var o := EmitRow(front, back, force, r, c, hw);
      Grows(o, EmitRow(front, back, force, r, c + 1, hw), EmitCell(front[c], back[c], force, r, c, o.hw))
  {
    var o := EmitRow(front, back, force, r, c, hw);
    assert o.bytes + "" == o.bytes;
  }

  /** Every row has a plan that ends with its output. */
  lemma {:induction false} PlanRow(front: seq<Cell>, back: seq<Cell>, force: bool, r: nat, hw: Hw)
    requires |front| == |back|
    ensures RowPlan(PlanOf(front, back, force, r, hw), front, back, force, r, hw)
    ensures PlanOf(front, back, force, r, hw).outs[|back|] == EmitRow(front, back, force, r, |back|, hw)
  {
    var p := PlanOf(front, back, force, r, hw);
    forall c | 0 <= c < |back|
      ensures Grows(p.outs[c], p.outs[c + 1], p.pieces[c])
    {
      EmitRowStep(front, back, force, r, c, hw);
    }
  }

  /** A stretch of clean cells adds nothing. */
  lemma {:induction false} CleanStretch(p: Plan, front: seq<Cell>, back: seq<Cell>, force: bool, r: nat, hw: Hw,
                                        a: nat, b: nat)
    requires RowPlan(p, front, back, force, r, hw) && a <= b <= |back|
    requires forall c :: a <= c < b ==> !Dirty(front[c], back[c], force)
    ensures p.outs[a] == p.outs[b]
    decreases b
  {
    if a < b {
      CleanStretch(p, front, back, force, r, hw, a, b - 1);
      assert p.pieces[b - 1] == Out("", p.outs[b - 1].hw);
      assert p.outs[b - 1].bytes + "" == p.outs[b - 1].bytes;
    }
  }

  /** Only the span from the first to the last dirty cell matters. */
  lemma {:induction false} SpanIsEnough(p: Plan, front: seq<Cell>, back: seq<Cell>, force: bool, r: nat, hw: Hw,
                                        a: nat, b: nat)
    requires RowPlan(p, front, back, force, r, hw) && a <= b <= |back|
    requires forall c :: 0 <= c < |back| && !(a <= c < b) ==> !Dirty(front[c], back[c], force)
    ensures p.outs[a] == Out("", hw) && p.outs[b] == p.outs[|back|]
    ensures front[..a] + back[a..b] + front[b..] == back
  {
    CleanStretch(p, front, back, force, r, hw, 0, a);
    CleanStretch(p, front, back, force, r, hw, b, |back|);
    RowDone(front, back, a, b);
  }

  /** The output after each row. */
  predicate GridPlan(outs: seq<Out>, plans: seq<Plan>, front: Grid, back: Grid, force: bool) {
    && SameSize(front, back) && |outs| == |back| + 1 && |plans| == |back| && outs[0] == Out("", UNKNOWN_HW)
    && forall r {:trigger plans[r]} :: 0 <= r < |back| ==>
      && RowPlan(plans[r], front[r], back[r], force, r, outs[r].hw)
      && Grows(outs[r], outs[r + 1], plans[r].outs[|back[r]|])
  }

  lemma {:induction false} PlanGrid(front: Grid, back: Grid, force: bool) returns (outs: seq<Out>, plans: seq<Plan>)
    requires SameSize(front, back)
    ensures GridPlan(outs, plans, front, back, force) && outs[|back|].bytes == Emit(front, back, force)
  {
    outs := seq(|back| + 1, r requires 0 <= r <= |back| => EmitRows(front, back, force, r));
    plans := seq(|back|, r requires 0 <= r < |back| =>
      PlanOf(front[r], back[r], force, r, EmitRows(front, back, force, r).hw));
    forall r | 0 <= r < |back|
      ensures RowPlan(plans[r], front[r], back[r], force, r, outs[r].hw)
      ensures Grows(outs[r], outs[r + 1], plans[r].outs[|back[r]|])
    {
      PlanRow(front[r], back[r], force, r, outs[r].hw);
    }
  }

  /** A piece that is left out adds nothing. */
  lemma HoldsUnsent(raw: string, full: string)
    requires Holds(raw, full)
    ensures Holds(raw, full + "")
  {
    assert full + "" == full;
  }

  /** The cells can be shown and no clash stands between them and the terminal. */
  ghost predicate Paintable(v: S.State) {
    SameSize(v.front, v.drawing.grid) && DrawableGrid(v.drawing.grid) && S.Clear(v)
  }

  /** What a flush whose buffer ended up holding `out` does to the session. */
  lemma {:induction false} FlushEffect(v: S.State, out: string, full: string, w: S.State, rows: nat, cols: nat)
    requires rows <= MAX_ROWS && cols <= MAX_COLS
    requires HasSize(v.tty.grid, rows, cols) && HasSize(v.front, rows, cols) && HasSize(v.drawing.grid, rows, cols)
    requires full == Emit(v.front, v.drawing.grid, v.force) && Holds(out, full)
    requires w == S.State(v.drawing.grid, v.drawing, false, Interp(v.tty, out))
    ensures HasSize(w.tty.grid, rows, cols)
    ensures out == full <==> |full| < RAW_CAPACITY
    ensures out == full ==> w == S.Step(v, S.Flush)
    ensures out == full && Paintable(v) && (!v.force ==> v.tty.grid == Shown(v.front)) ==>
      w.tty.grid == Shown(v.drawing.grid)
    ensures rows * cols <= 2184 && ValidPens(v.drawing.grid) ==> out == full
  {
    InterpKeepsSize(v.tty, out, rows, cols);
    if out == full && Paintable(v) && (!v.force ==> v.tty.grid == Shown(v.front)) {
      EmitRepaints(v.tty, v.front, v.drawing.grid, v.force);
    }
    if ValidPens(v.drawing.grid) {
      EmitCost(v.front, v.drawing.grid, v.force, rows, cols);
    }
  }

  class Tui {
    const rows: nat
    const cols: nat
    const front: array2<Cell>
    const back: array2<Cell>
    var force: bool
    var curRow: nat
    var curCol: nat
    var pen: Pen
    const rawBuf: array<char>
    var rawLen: nat
    ghost var tty: Screen  // the terminal, fed with everything that is flushed

    ghost predicate Sized() {
      rows <= MAX_ROWS && cols <= MAX_COLS
      && front.Length0 == back.Length0 == MAX_ROWS && front.Length1 == back.Length1 == MAX_COLS
      && front != back && rawBuf.Length == RAW_CAPACITY
    }

    ghost predicate Valid()
      reads this
    {
      Sized() && rawLen < RAW_CAPACITY
      && ValidPen(pen)
    }

    /** The terminal has the size of the grids. */
    ghost predicate Attached() reads this { HasSize(tty.grid, rows, cols) }

    /** The part of a grid that is on screen. */
    ghost function GridOf(a: array2<Cell>): (g: Grid)
      reads a
      requires rows <= a.Length0 && cols <= a.Length1
      ensures HasSize(g, rows, cols)
    {
      seq(rows, r requires 0 <= r < rows && rows <= a.Length0 && cols <= a.Length1 reads a =>
        seq(cols, c requires 0 <= c < cols && cols <= a.Length1 reads a => a[r, c]))
    }

    ghost function Front(): Grid reads front requires Sized() { GridOf(front) }

    ghost function Back(): Grid reads back requires Sized() { GridOf(back) }

    ghost function Raw(): string reads this, rawBuf requires Valid() { rawBuf[..rawLen] }

    /** The drawing state as a screen. */
    ghost function Drawing(): Screen
      reads this, back
      requires Valid()
    {
      Screen(Back(), curRow, curCol, pen)
    }

    /** The state of the session. */
    ghost function View(): S.State
      reads this, front, back
      requires Valid()
    {
      S.State(Front(), Drawing(), force, tty)
    }

    /** The terminal shows the front grid, or everything is due for redrawing anyway. */
    ghost predicate InSync()
      reads this, front
      requires Valid()
    {
      !force ==> tty.grid == Shown(Front())
    }

    method PutChar(ch: char)
      requires Valid()
      modifies this`curCol, back
      ensures Valid() && Drawing() == Put(old(Drawing()), ch)
    {
      if curRow < rows && curCol < cols {
        back[curRow, curCol] := Cell(ch, pen);
      }
      curCol := curCol + 1;
      SameCells(Back(), Put(old(Drawing()), ch).grid, rows, cols);
    }

    method RunCommand(cmd: char, args: seq<nat>, argc: nat)
      requires Valid() && |args| == 8 && 1 <= argc <= 8
      modifies this`curRow, this`curCol, this`pen
      ensures Valid() && Drawing() == Command(old(Drawing()), cmd, args[..argc])
    {
      if cmd == 'm' {
        ghost var start := pen;
        if argc == 1 && args[0] == 0 {
          pen := DEFAULT_PEN;
          assert args[..1] == [0];
          assert Sgr(start, [0]) == DEFAULT_PEN;
        } else {
          for i := 0 to argc
            invariant ValidPen(pen)
            invariant Sgr(start, args[..argc]) == Sgr(pen, args[i..argc])
            invariant curRow == old(curRow) && curCol == old(curCol)
          {
            assert args[i..argc][1..] == args[i + 1..argc];
            pen := Sgr1(pen, args[i]);
          }
        }
      } else if cmd == 'H' || cmd == 'f' {
        var r := if args[0] > 0 then args[0] else 1;
        var c := if argc >= 2 && args[1] > 0 then args[1] else 1;
        curRow, curCol := r - 1, c - 1;
      }
    }

    /** Scans the arguments of a control sequence from position `p`. */
    method ScanFrom(str: string, start: nat) returns (args: seq<nat>, argc: nat, p: nat)
      requires start <= |str|
      ensures |args| == 8 && argc < 8 && start <= p <= |str|
      ensures ScanArgs(str[start..], NO_ARGS, 0) == Scan(args, argc, str[p..])
    {
      args, argc, p := NO_ARGS, 0, start;
      while p < |str| && (IsDigit(str[p]) || str[p] == ';')
        invariant |args| == 8 && argc < 8 && start <= p <= |str|
        invariant ScanArgs(str[start..], NO_ARGS, 0) == ScanArgs(str[p..], args, argc)
      {
        assert str[p..][1..] == str[p + 1..];
        if str[p] == ';' {
          if argc < 7 { argc := argc + 1; }
        } else {
          args := args[argc := args[argc] * 10 + DigitValue(str[p])];
        }
        p := p + 1;
      }
    }

    /** Obeys the control sequence at `p`; `next` is where reading goes on. */
    method WriteCsi(str: string, p: nat) returns (next: nat)
      requires Valid() && p <= |str| && AtCsi(str[p..])
      modifies this`curRow, this`curCol, this`pen
      ensures Valid() && p < next <= |str|
      ensures Interp(old(Drawing()), str[p..]) == Interp(Drawing(), str[next..])
    {
      var args, argc, q := ScanFrom(str, p + 2);
      CsiStep(Drawing(), str, p, args, argc, q);
      var cmd := if q < |str| then str[q] else NUL;
      next := if cmd != NUL then q + 1 else q;
      RunCommand(cmd, args, argc + 1);
    }

    /** Writes the ordinary character at `p`. */
    method WritePlain(str: string, p: nat)
      requires Valid() && p < |str| && !AtEnd(str[p..]) && !AtCsi(str[p..])
      modifies this`curRow, this`curCol, back
      ensures Valid() && Interp(old(Drawing()), str[p..]) == Interp(Drawing(), str[p + 1..])
    {
      PlainStep(Drawing(), str, p);
      if str[p] == '\n' {
        curRow, curCol := curRow + 1, 0;
      } else if str[p] == '\r' {
        curCol := 0;
      } else {
        PutChar(str[p]);
      }
    }

    method BufWrite(str: string)
      requires Valid()
      modifies this`curRow, this`curCol, this`pen, back
      ensures Valid() && View() == S.Step(old(View()), S.Draw(str))
    {
      var p := 0;
      assert str[0..] == str;
      while p < |str| && str[p] != NUL
        invariant p <= |str| && Valid()
        invariant Interp(old(Drawing()), str) == Interp(Drawing(), str[p..])
      {
        if str[p] == ESC && p + 1 < |str| && str[p + 1] == '[' {
          p := WriteCsi(str, p);
        } else {
          WritePlain(str, p);
          p := p + 1;
        }
      }
    }

    /** Text goes to the buffer if it fits, and is dropped otherwise. */
    method RawWrite(str: string, ghost full: string)
      requires Valid() && Holds(Raw(), full)
      modifies this`rawLen, rawBuf
      ensures Front() == old(Front())
      ensures Back() == old(Back())
      ensures Valid() && Raw() == Append(old(Raw()), str)
      ensures Holds(Raw(), full + str)
    {
      if rawLen + |str| < RAW_CAPACITY {
        forall i | 0 <= i < |str| {
          rawBuf[rawLen + i] := str[i];
        }
        rawLen := rawLen + |str|;
        assert Raw() == old(Raw()) + str;
      }
    }

    /** The first and last dirty column of a row, or -1 twice. */
    method DirtySpan(r: nat) returns (first: int, last: int)
      requires Valid() && r < rows
      ensures -1 <= first <= last < cols && (first == -1 ==> last == -1)
      ensures first >= 0 ==> forall c :: c == first || c == last ==> Dirty(Front()[r][c], Back()[r][c], force)
      ensures forall c :: 0 <= c < cols && !(first <= c <= last) ==> !Dirty(Front()[r][c], Back()[r][c], force)
    {
      first, last := -1, -1;
      for c := 0 to cols
        invariant -1 <= first <= last < c && (first == -1 ==> last == -1)
        invariant first >= 0 ==> forall k :: k == first || k == last ==> Dirty(Front()[r][k], Back()[r][k], force)
        invariant forall k :: 0 <= k < c && !(first <= k <= last) ==> !Dirty(Front()[r][k], Back()[r][k], force)
      {
        if force || back[r, c] != front[r, c] {
          if first == -1 { first := c; }
          last := c;
        }
      }
    }

    method SendPen(p: Pen, ghost full: string)
      requires Valid() && Holds(Raw(), full)
      modifies this`rawLen, rawBuf
      ensures Front() == old(Front())
      ensures Back() == old(Back())
      ensures Valid() && Holds(Raw(), full + PenBytes(p))
    {
      ghost var reset := SgrBytes(0);
      ghost var bold := if p.bold != 0 then SgrBytes(1) else "";
      ghost var fg := if p.fg != 0 then SgrBytes(p.fg) else "";
      ghost var bg := if p.bg != 0 then SgrBytes(p.bg) else "";
      RawWrite(SgrBytes(0), full);
      if p.bold != 0 { RawWrite(SgrBytes(1), full + reset); } else { HoldsUnsent(Raw(), full + reset); }
      assert Holds(Raw(), full + reset + bold);
      if p.fg != 0 { RawWrite(SgrBytes(p.fg), full + reset + bold); } else { HoldsUnsent(Raw(), full + reset + bold); }
      assert Holds(Raw(), full + reset + bold + fg);
      if p.bg != 0 { RawWrite(SgrBytes(p.bg), full + reset + bold + fg); }
      else { HoldsUnsent(Raw(), full + reset + bold + fg); }
      Regroup(full, reset, bold, fg, bg);
    }

    /** Sends one dirty cell. */
    method SendCell(r: nat, c: nat, b: Cell, hw: Hw, ghost full: string) returns (hw': Hw)
      requires Valid() && Holds(Raw(), full)
      modifies this`rawLen, rawBuf
      ensures Front() == old(Front())
      ensures Back() == old(Back())
      ensures Valid() && hw' == Hw(r, c + 1, b.pen)
      ensures Holds(Raw(), full + CellBytes(hw, r, c, b))
    {
      ghost var jump := if hw.row != r || hw.col != c then Jump(r, c) else "";
      ghost var sgr := if b.pen != hw.pen then PenBytes(b.pen) else "";
      if hw.row != r || hw.col != c { RawWrite(Jump(r, c), full); } else { HoldsUnsent(Raw(), full); }
      assert Holds(Raw(), full + jump);
      if b.pen != hw.pen { SendPen(b.pen, full + jump); } else { HoldsUnsent(Raw(), full + jump); }
      assert Holds(Raw(), full + jump + sgr);
      RawWrite([ShownCh(b.ch)], full + jump + sgr);
      HoldsUnsent(Raw(), full + jump + sgr + [ShownCh(b.ch)]);
      Regroup(full, jump, sgr, [ShownCh(b.ch)], "");
      assert jump + sgr + [ShownCh(b.ch)] + "" == CellBytes(hw, r, c, b);
      hw' := Hw(r, c + 1, b.pen);
    }

    /** Copies one cell to the front grid. */
    method CopyToFront(r: nat, c: nat)
      requires Valid() && r < rows && c < cols
      modifies front
      ensures Back() == old(Back())
      ensures Front() == old(Front())[r := old(Front())[r][c := back[r, c]]]
    {
      front[r, c] := back[r, c];
      SameCells(Front(), old(Front())[r := old(Front())[r][c := back[r, c]]], rows, cols);
    }

    /** Sends one cell if it is dirty, and copies it to the front grid. */
    method FlushCell(r: nat, c: nat, hw: Hw, ghost piece: Out, ghost full: string) returns (hw': Hw)
      requires Valid() && r < rows && c < cols && Holds(Raw(), full)
      requires piece == EmitCell(Front()[r][c], Back()[r][c], force, r, c, hw)
      modifies this`rawLen, rawBuf, front
      ensures Back() == old(Back())
      ensures Valid() && Front() == old(Front())[r := old(Front())[r][c := Back()[r][c]]]
      ensures hw' == piece.hw && Holds(Raw(), full + piece.bytes)
    {
      hw' := hw;
      if force || back[r, c] != front[r, c] {
        CopyToFront(r, c);
        hw' := SendCell(r, c, back[r, c], hw, full);
      } else {
        HoldsUnsent(Raw(), full);
        KeepCell(Front(), r, c);
        assert Front()[r][c] == Back()[r][c];
      }
    }

    /** Sends the dirty cells between two columns and copies them to the front grid. */
    method FlushSpan(r: nat, first: nat, last: nat, hw: Hw, ghost f: seq<Cell>, ghost b: seq<Cell>, ghost p: Plan,
                     ghost full: string)
      returns (hw': Hw)
      requires Valid() && r < rows && first <= last < cols && f == Front()[r] && b == Back()[r]
      requires RowPlan(p, f, b, force, r, hw) && p.outs[first] == Out("", hw)
      requires Holds(Raw(), full)
      modifies this`rawLen, rawBuf, front
      ensures Valid() && Back() == old(Back())
      ensures hw' == p.outs[last + 1].hw && Holds(Raw(), full + p.outs[last + 1].bytes)
      ensures Front() == old(Front())[r := f[..first] + b[first..last + 1] + f[last + 1..]]
    {
      hw' := hw;
      ghost var was := Front();
      ghost var row := f;
      HoldsUnsent(Raw(), full);
      for c := first to last + 1
        invariant Valid() && Back() == old(Back()) && row == f[..first] + b[first..c] + f[c..]
        invariant Front() == was[r := row]
        invariant hw' == p.outs[c].hw && Holds(Raw(), full + p.outs[c].bytes)
      {
        RowStep(f, b, first, c);
        hw' := FlushPlanned(r, c, hw', was, row, f, b, p, full);
        row := row[c := b[c]];
      }
    }

    /** Sends one cell of a planned row. */
    method FlushPlanned(r: nat, c: nat, hw: Hw, ghost was: Grid, ghost row: seq<Cell>, ghost f: seq<Cell>,
                        ghost b: seq<Cell>, ghost p: Plan, ghost full: string)
      returns (hw': Hw)
      requires Valid() && r < rows && c < cols && |was| == rows && |row| == cols && Front() == was[r := row] && Back()[r] == b
      requires |p.pieces| == cols && |p.outs| == cols + 1 && hw == p.outs[c].hw && |f| == cols && row[c] == f[c]
      requires p.pieces[c] == EmitCell(f[c], b[c], force, r, c, hw) && Grows(p.outs[c], p.outs[c + 1], p.pieces[c])
      requires Holds(Raw(), full + p.outs[c].bytes)
      modifies this`rawLen, rawBuf, front
      ensures Valid() && Back() == old(Back()) && Front() == was[r := row[c := b[c]]]
      ensures hw' == p.outs[c + 1].hw && Holds(Raw(), full + p.outs[c + 1].bytes)
    {
      ghost var piece := p.pieces[c];
      Overwrite(was, r, row, row[c := b[c]]);
      hw' := FlushCell(r, c, hw, piece, full + p.outs[c].bytes);
      Assoc(full, p.outs[c].bytes, piece.bytes);
    }

    /** Sends the dirty cells of one row and brings the front row up to date. */
    method FlushRow(r: nat, hw: Hw, ghost f: seq<Cell>, ghost b: seq<Cell>, ghost p: Plan, ghost full: string)
      returns (hw': Hw)
      requires Valid() && r < rows && f == Front()[r] && b == Back()[r] && Holds(Raw(), full)
      requires RowPlan(p, f, b, force, r, hw)
      modifies this`rawLen, rawBuf, front
      ensures Valid() && Back() == old(Back()) && Front() == old(Front())[r := b]
      ensures hw' == p.outs[cols].hw && Holds(Raw(), full + p.outs[cols].bytes)
    {
      var first, last := DirtySpan(r);
      assert Front()[r] == f && Back()[r] == b;
      if first == -1 {
        SpanIsEnough(p, f, b, force, r, hw, 0, 0);
        HoldsUnsent(Raw(), full);
        hw' := hw;
      } else {
        SpanIsEnough(p, f, b, force, r, hw, first, last + 1);
        hw' := FlushSpan(r, first, last, hw, f, b, p, full);
      }
    }

    /** Sends one row of a flush that has sent the rows above it. */
    method FlushNext(r: nat, hw: Hw, ghost f: Grid, ghost b: Grid, ghost outs: seq<Out>, ghost plans: seq<Plan>)
      returns (hw': Hw)
      requires Valid() && r < rows && |f| == |b| == rows && Back() == b && Front() == b[..r] + f[r..]
      requires GridPlan(outs, plans, f, b, force) && hw == outs[r].hw && Holds(Raw(), outs[r].bytes)
      modifies this`rawLen, rawBuf, front
      ensures Valid() && Back() == b && Front() == b[..r + 1] + f[r + 1..]
      ensures hw' == outs[r + 1].hw && Holds(Raw(), outs[r + 1].bytes)
    {
      Advance(b, f, r);
      ghost var p := plans[r];
      hw' := FlushRow(r, hw, f[r], b[r], p, outs[r].bytes);
    }

    /** Sends all rows. */
    method FlushRows(ghost f: Grid, ghost b: Grid)
      requires Valid() && rawLen == 0 && f == Front() && b == Back()
      modifies this`rawLen, rawBuf, front
      ensures Valid() && Back() == b && Front() == b
      ensures Holds(Raw(), Emit(f, b, force))
    {
      ghost var outs, plans := PlanGrid(f, b, force);
      var hw := UNKNOWN_HW;
      for r := 0 to rows
        invariant Valid() && Back() == b && Front() == b[..r] + f[r..]
        invariant hw == outs[r].hw && Holds(Raw(), outs[r].bytes)
      {
        hw := FlushNext(r, hw, f, b, outs, plans);
      }
    }

    /**
     One flush.  The front grid becomes the back grid; the terminal receives
     exactly the bytes of `Emit` if and only if they fit the buffer, which they
     always do on screens of at most 2184 cells, and then a terminal that was in
     step with the front grid shows the back grid.
     */
    method Flush() returns (out: string, ghost full: string)
      requires Valid() && Attached()
      modifies this`force, this`rawLen, this`tty, rawBuf, front
      ensures Valid() && Attached() && !force && Front() == Back()
      ensures full == Emit(old(Front()), Back(), old(force))
      ensures out == full <==> |full| < RAW_CAPACITY
      ensures tty == Interp(old(tty), out)
      ensures out == full ==> View() == S.Step(old(View()), S.Flush)
      ensures old(InSync() && Paintable(View())) && out == full ==> tty.grid == Shown(Back()) && InSync()
      ensures rows * cols <= 2184 && ValidPens(Back()) ==> out == full
    {
      rawLen := 0;
      ghost var v := View();
      FlushRows(v.front, v.drawing.grid);
      full := Emit(v.front, v.drawing.grid, force);
      out := rawBuf[..rawLen];
      rawLen, force, tty := 0, false, Interp(tty, out);
      FlushEffect(v, out, full, View(), rows, cols);
    }

    /** `tui_force_redraw`: forget what the terminal shows. */
    method ForceRedraw()
      requires Valid()
      modifies this`force, front
      ensures Valid() && force && InSync() && View() == S.Step(old(View()), S.Redraw)
    {
      forall r, c | 0 <= r < front.Length0 && 0 <= c < front.Length1 {
        front[r, c] := S.STALE;
      }
      force := true;
      SameCells(Front(), S.Stale(old(Front())), rows, cols);
    }
  }
}
