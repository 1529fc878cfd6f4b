/**
 The terminal as the installer understands it: `tui_buf_write` interprets a
 string of characters and ANSI escape sequences onto a grid of cells.  The same
 interpretation serves as the model of the terminal that receives what
 `tui_flush` emits.
 */
module Terminal {

  const ESC: char := '\U{1b}'
  const NUL: char := '\U{00}'

  type u8 = x: int | 0 <= x < 256

  /** Colours and weight; 0 stands for the default colour. */
  datatype Pen = Pen(fg: u8, bg: u8, bold: u8)

  datatype Cell = Cell(ch: char, pen: Pen)

  type Grid = seq<seq<Cell>>

  /** A grid together with the cursor (counted from 0) and the drawing pen. */
  datatype Screen = Screen(grid: Grid, row: nat, col: nat, pen: Pen)

  const DEFAULT_PEN := Pen(0, 0, 0)

  predicate IsFg(a: int) { 30 <= a <= 37 || 90 <= a <= 97 }

  predicate IsBg(a: int) { 40 <= a <= 47 || 100 <= a <= 107 }

  /** The pens that drawing can produce. */
  predicate ValidPen(p: Pen) {
    (p.fg == 0 || IsFg(p.fg)) && (p.bg == 0 || IsBg(p.bg)) && p.bold <= 1
  }

  predicate HasSize(g: Grid, rows: nat, cols: nat) {
    |g| == rows && forall r :: 0 <= r < rows ==> |g[r]| == cols
  }

  ghost predicate ValidPens(g: Grid) {
    forall r, c :: 0 <= r < |g| && 0 <= c < |g[r]| ==> ValidPen(g[r][c].pen)
  }

  // ----- Characters and control sequences

  /** An ordinary character goes to the cell under the cursor, if there is one. */
  function Put(s: Screen, ch: char): Screen {
    var grid :=
      if s.row < |s.grid| && s.col < |s.grid[s.row]|
      then s.grid[s.row := s.grid[s.row][s.col := Cell(ch, s.pen)]]
      else s.grid;
    s.(grid := grid, col := s.col + 1)
  }

  /** One character outside control sequences. */
  function Plain(s: Screen, ch: char): Screen {
    if ch == '\n' then s.(row := s.row + 1, col := 0)
    else if ch == '\r' then s.(col := 0)
    else Put(s, ch)
  }

  /** One SGR argument; arguments without a meaning are ignored. */
  function Sgr1(p: Pen, a: nat): Pen {
    if a == 0 then DEFAULT_PEN
    else if a == 1 then p.(bold := 1)
    else if a == 22 then p.(bold := 0)
    else if IsFg(a) then p.(fg := a)
    else if a == 39 then p.(fg := 0)
    else if IsBg(a) then p.(bg := a)
    else if a == 49 then p.(bg := 0)
    else p
  }

  function Sgr(p: Pen, args: seq<nat>): Pen
    decreases |args|
  {
    if args == [] then p else Sgr(Sgr1(p, args[0]), args[1..])
  }

  function Command(s: Screen, cmd: char, args: seq<nat>): Screen
    requires |args| >= 1
  {
    if cmd == 'm' then
      s.(pen := Sgr(s.pen, args))
    else if cmd == 'H' || cmd == 'f' then
      var r := if args[0] > 0 then args[0] else 1;
      var c := if |args| >= 2 && args[1] > 0 then args[1] else 1;
      s.(row := r - 1, col := c - 1)
    else
      s
  }

  predicate IsDigit(c: char) { '0' <= c <= '9' }

  function DigitValue(c: char): nat
    requires IsDigit(c)
  {
    c as int - '0' as int
  }

  /** At most eight arguments are kept; further ones run into the eighth. */
  datatype Scan = Scan(args: seq<nat>, argc: nat, rest: string)

  const NO_ARGS: seq<nat> := [0, 0, 0, 0, 0, 0, 0, 0]

  function ScanArgs(p: string, args: seq<nat>, argc: nat): (scan: Scan)
    requires |args| == 8 && argc < 8
    ensures |scan.args| == 8 && scan.argc < 8
    ensures |scan.rest| <= |p|
    decreases |p|
  {
    if p != [] && p[0] == ';' then
      ScanArgs(p[1..], args, if argc < 7 then argc + 1 else argc)
    else if p != [] && IsDigit(p[0]) then
      ScanArgs(p[1..], args[argc := args[argc] * 10 + DigitValue(p[0])], argc)
    else
      Scan(args, argc, p)
  }

  /** Where a C string ends. */
  predicate AtEnd(p: string) { p == [] || p[0] == NUL }

  predicate AtCsi(p: string) { |p| >= 2 && p[0] == ESC && p[1] == '[' }

  /** What `tui_buf_write` makes of a string. */
  function Interp(s: Screen, p: string): Screen
    decreases |p|
  {
    if AtEnd(p) then s
    else if AtCsi(p) then
      var scan := ScanArgs(p[2..], NO_ARGS, 0);
      if AtEnd(scan.rest) then s
      else Interp(Command(s, scan.rest[0], scan.args[..scan.argc + 1]), scan.rest[1..])
    else Interp(Plain(s, p[0]), p[1..])
  }

  /** One step of the interpretation from position `p` of a string. */
  lemma {:induction false} PlainStep(s: Screen, str: string, p: nat)
    requires p < |str| && !AtEnd(str[p..]) && !AtCsi(str[p..])
    ensures Interp(s, str[p..]) == Interp(Plain(s, str[p]), str[p + 1..])
  {
    assert str[p..][1..] == str[p + 1..];
  }

  lemma {:induction false} CsiStep(s: Screen, str: string, p: nat, args: seq<nat>, argc: nat, q: nat)
    requires p <= |str| && AtCsi(str[p..]) && p + 2 <= q <= |str| && |args| == 8 && argc < 8
    requires ScanArgs(str[p + 2..], NO_ARGS, 0) == Scan(args, argc, str[q..])
    ensures Interp(s, str[p..])
         == if AtEnd(str[q..]) then s else Interp(Command(s, str[q], args[..argc + 1]), str[q + 1..])
  {
    assert str[p..][2..] == str[p + 2..];
    if !AtEnd(str[q..]) {
      assert str[q..][1..] == str[q + 1..];
    }
  }

  /** Grids of one size with equal cells are equal. */
  lemma SameCells(a: Grid, b: Grid, rows: nat, cols: nat)
    requires HasSize(a, rows, cols) && HasSize(b, rows, cols)
    requires forall r, c :: 0 <= r < rows && 0 <= c < cols ==> a[r][c] == b[r][c]
    ensures a == b
  {
    forall r | 0 <= r < rows
      ensures a[r] == b[r]
    {
    }
  }

  // ----- What interpretation keeps

  lemma {:induction false} SgrKeepsPenValid(p: Pen, args: seq<nat>)
    requires ValidPen(p)
    ensures ValidPen(Sgr(p, args))
    decreases |args|
  {
    if args != [] {
      SgrKeepsPenValid(Sgr1(p, args[0]), args[1..]);
    }
  }

  /**
   Whatever is written, the pen and the pens of all cells stay among the ones a
   flush can reproduce.
   */
  lemma {:induction false} InterpKeepsPens(s: Screen, p: string)
    requires ValidPen(s.pen) && ValidPens(s.grid)
    ensures var t := Interp(s, p); ValidPen(t.pen) && ValidPens(t.grid)
    decreases |p|
  {
    if AtEnd(p) {
    } else if AtCsi(p) {
      var scan := ScanArgs(p[2..], NO_ARGS, 0);
      if !AtEnd(scan.rest) {
        var args := scan.args[..scan.argc + 1];
        SgrKeepsPenValid(s.pen, args);
        InterpKeepsPens(Command(s, scan.rest[0], args), scan.rest[1..]);
      }
    } else {
      InterpKeepsPens(Plain(s, p[0]), p[1..]);
    }
  }

  lemma {:induction false} InterpKeepsSize(s: Screen, p: string, rows: nat, cols: nat)
    requires HasSize(s.grid, rows, cols)
    ensures HasSize(Interp(s, p).grid, rows, cols)
    decreases |p|
  {
    if AtEnd(p) {
    } else if AtCsi(p) {
      var scan := ScanArgs(p[2..], NO_ARGS, 0);
      if !AtEnd(scan.rest) {
        InterpKeepsSize(Command(s, scan.rest[0], scan.args[..scan.argc + 1]), scan.rest[1..], rows, cols);
      }
    } else {
      InterpKeepsSize(Plain(s, p[0]), p[1..], rows, cols);
    }
  }

  /** Cells as drawing leaves them: any character but line ends. */
  predicate Drawable(cell: Cell) { ValidPen(cell.pen) && cell.ch != '\n' && cell.ch != '\r' }

  ghost predicate DrawableGrid(g: Grid) {
    forall r, c :: 0 <= r < |g| && 0 <= c < |g[r]| ==> Drawable(g[r][c])
  }

  /** Whatever is written, a drawable grid stays drawable. */
  lemma {:induction false} InterpKeepsDrawable(s: Screen, p: string)
    requires ValidPen(s.pen) && DrawableGrid(s.grid)
    ensures DrawableGrid(Interp(s, p).grid)
    decreases |p|
  {
    if AtEnd(p) {
    } else if AtCsi(p) {
      var scan := ScanArgs(p[2..], NO_ARGS, 0);
      if !AtEnd(scan.rest) {
        SgrKeepsPenValid(s.pen, scan.args[..scan.argc + 1]);
        InterpKeepsDrawable(Command(s, scan.rest[0], scan.args[..scan.argc + 1]), scan.rest[1..]);
      }
    } else {
      InterpKeepsDrawable(Plain(s, p[0]), p[1..]);
    }
  }

  ghost predicate NoEscCells(g: Grid) {
    forall r, c :: 0 <= r < |g| && 0 <= c < |g[r]| ==> g[r][c].ch != ESC
  }

  /** ESC occurs only where it opens a control sequence. */
  ghost predicate EscOpensCsi(p: string) {
    forall i :: 0 <= i < |p| && p[i] == ESC ==> i + 1 < |p| && p[i + 1] == '['
  }

  lemma {:induction false} ScanRestIsSuffix(p: string, args: seq<nat>, argc: nat)
    requires |args| == 8 && argc < 8
    ensures var rest := ScanArgs(p, args, argc).rest; rest == p[|p| - |rest|..]
    decreases |p|
  {
    if p != [] && p[0] == ';' {
      ScanRestIsSuffix(p[1..], args, if argc < 7 then argc + 1 else argc);
    } else if p != [] && IsDigit(p[0]) {
      ScanRestIsSuffix(p[1..], args[argc := args[argc] * 10 + DigitValue(p[0])], argc);
    }
  }

  /** Text whose ESCs all open control sequences leaves no ESC in a cell. */
  lemma {:induction false} InterpLeavesNoEsc(s: Screen, p: string)
    requires NoEscCells(s.grid) && EscOpensCsi(p)
    ensures NoEscCells(Interp(s, p).grid)
    decreases |p|
  {
    if AtEnd(p) {
    } else if AtCsi(p) {
      var scan := ScanArgs(p[2..], NO_ARGS, 0);
      if !AtEnd(scan.rest) {
        ScanRestIsSuffix(p[2..], NO_ARGS, 0);
        var rest := scan.rest[1..];
        assert rest == p[|p| - |rest|..];
        InterpLeavesNoEsc(Command(s, scan.rest[0], scan.args[..scan.argc + 1]), rest);
      }
    } else {
      InterpLeavesNoEsc(Plain(s, p[0]), p[1..]);
    }
  }

  // ----- Numbers in control sequences

  function Digit(d: nat): char
    requires d < 10
  {
    '0' + d as char
  }

  /** The `%d` of printf for a non-negative number. */
  function Decimal(n: nat): (s: string)
    ensures |s| >= 1
  {
    if n < 10 then [Digit(n)] else Decimal(n / 10) + [Digit(n % 10)]
  }

  /** Scanning a printed number gives the number back. */
  lemma {:induction false} ScanDecimal(n: nat, rest: string, args: seq<nat>, argc: nat)
    requires |args| == 8 && argc < 8 && args[argc] == 0
    ensures ScanArgs(Decimal(n) + rest, args, argc) == ScanArgs(rest, args[argc := n], argc)
    decreases n
  {
    if n < 10 {
      var p := Decimal(n) + rest;
      assert p[0] == Digit(n) && p[1..] == rest;
    } else {
      var tail := [Digit(n % 10)] + rest;
      assert Decimal(n) + rest == Decimal(n / 10) + tail;
      ScanDecimal(n / 10, tail, args, argc);
      var mid := args[argc := n / 10];
      assert tail[0] == Digit(n % 10) && tail[1..] == rest;
      assert mid[argc := mid[argc] * 10 + DigitValue(tail[0])] == args[argc := n];
    }
  }
}
