/**
 What text and control sequences do to the screen, said of the printed form: lists of
 arguments, some of them left out, attributes, cursor positions and plain lines.
 */
module Control {
  import opened Common
  import opened Terminal
  import opened Repaint

  // ----- The printed form

  function ArgText(a: Option<nat>): string { if a.Some? then Decimal(a.value) else "" }

  /** Arguments separated by semicolons. */
  function ArgsText(args: seq<Option<nat>>): string
    requires args != []
  {
    if |args| == 1 then ArgText(args[0]) else ArgText(args[0]) + ([';'] + ArgsText(args[1..]))
  }

  function Csi(args: seq<Option<nat>>, cmd: char): string
    requires args != []
  {
    [ESC, '['] + ArgsText(args) + [cmd]
  }

  /** An argument that is left out counts as 0. */
  function ArgValue(a: Option<nat>): nat { if a.Some? then a.value else 0 }

  function Values(args: seq<Option<nat>>): seq<nat> { seq(|args|, i requires 0 <= i < |args| => ArgValue(args[i])) }

  /** A character that ends the arguments. */
  predicate EndsArgs(c: char) { c != ';' && !IsDigit(c) && c != NUL }

  // ----- Scanning a list of arguments

  lemma {:induction false} ScanOne(a: Option<nat>, rest: string, args: seq<nat>, argc: nat)
    requires |args| == 8 && argc < 8 && args[argc] == 0
    ensures ScanArgs(ArgText(a) + rest, args, argc) == ScanArgs(rest, args[argc := ArgValue(a)], argc)
  {
    if a.Some? {
      ScanDecimal(a.value, rest, args, argc);
    } else {
      assert "" + rest == rest && args[argc := 0] == args;
    }
  }

  /** `args` with the list in its places from `argc` to `last`. */
  function Placed(args: seq<nat>, list: seq<Option<nat>>, argc: nat, last: nat): seq<nat>
    requires argc + |list| == last + 1 <= |args|
  {
    args[..argc] + Values(list) + args[last + 1..]
  }

  lemma PlacedOne(args: seq<nat>, list: seq<Option<nat>>, argc: nat)
    requires argc < |args| && |list| == 1
    ensures Placed(args, list, argc, argc) == args[argc := ArgValue(list[0])]
  {
  }

  lemma PlacedMore(args: seq<nat>, list: seq<Option<nat>>, argc: nat, last: nat)
    requires list != [] && argc + |list| == last + 1 <= |args|
    ensures Placed(args[argc := ArgValue(list[0])], list[1..], argc + 1, last) == Placed(args, list, argc, last)
  {
    assert args[argc := ArgValue(list[0])][..argc + 1] + Values(list[1..]) == args[..argc] + Values(list);
  }

  /** The arguments end up in their places, from `argc` on. */
  lemma {:induction false} ScanList(list: seq<Option<nat>>, tail: string, args: seq<nat>, argc: nat, last: nat)
    requires list != [] && |args| == 8 && argc + |list| == last + 1 <= 8
    requires forall i :: argc <= i < 8 ==> args[i] == 0
    ensures ScanArgs(ArgsText(list) + tail, args, argc) == ScanArgs(tail, Placed(args, list, argc, last), last)
    decreases |list|
  {
    if |list| == 1 {
      ScanOne(list[0], tail, args, argc);
      PlacedOne(args, list, argc);
    } else {
      ScanNext(list, tail, args, argc);
      ScanList(list[1..], tail, args[argc := ArgValue(list[0])], argc + 1, last);
      PlacedMore(args, list, argc, last);
    }
  }

  /** One argument and the semicolon behind it. */
  lemma {:induction false} ScanNext(list: seq<Option<nat>>, tail: string, args: seq<nat>, argc: nat)
    requires |list| > 1 && |args| == 8 && argc < 7 && args[argc] == 0
    ensures ScanArgs(ArgsText(list) + tail, args, argc)
         == ScanArgs(ArgsText(list[1..]) + tail, args[argc := ArgValue(list[0])], argc + 1)
  {
    var more := ArgsText(list[1..]) + tail;
    assert ArgsText(list) + tail == ArgText(list[0]) + ([';'] + more);
    ScanOne(list[0], [';'] + more, args, argc);
    assert ([';'] + more)[1..] == more;
  }

  /** A control sequence with up to eight arguments is obeyed with exactly these arguments. */
  lemma {:induction false} CsiObeyed(s: Screen, list: seq<Option<nat>>, cmd: char, rest: string)
    requires 1 <= |list| <= 8 && EndsArgs(cmd)
    ensures Interp(s, Csi(list, cmd) + rest) == Interp(Command(s, cmd, Values(list)), rest)
  {
    var p, tail := Csi(list, cmd) + rest, [cmd] + rest;
    assert p[2..] == ArgsText(list) + tail;
    var args := Placed(NO_ARGS, list, 0, |list| - 1);
    ScanList(list, tail, NO_ARGS, 0, |list| - 1);
    CsiRuns(s, p, args, |list| - 1, cmd, rest);
    assert args[..|list|] == Values(list);
  }

  /** From the eighth argument on, semicolons are read over: further digits run into the eighth argument. */
  lemma {:induction false} FurtherArguments(s: Screen, list: seq<Option<nat>>, more: string)
    requires |list| == 8
    ensures Interp(s, [ESC, '['] + ArgsText(list) + ([';'] + more)) == Interp(s, [ESC, '['] + ArgsText(list) + more)
  {
    var p, q := [ESC, '['] + ArgsText(list) + ([';'] + more), [ESC, '['] + ArgsText(list) + more;
    assert p[2..] == ArgsText(list) + ([';'] + more) && q[2..] == ArgsText(list) + more;
    ScanList(list, [';'] + more, NO_ARGS, 0, 7);
    ScanList(list, more, NO_ARGS, 0, 7);
    assert ([';'] + more)[1..] == more;
  }

  // ----- Attributes

  function OneByOne(list: seq<Option<nat>>): string {
    if list == [] then "" else Csi([list[0]], 'm') + OneByOne(list[1..])
  }

  lemma {:induction false} OneByOneRuns(s: Screen, list: seq<Option<nat>>, rest: string)
    ensures Interp(s, OneByOne(list) + rest) == Interp(s.(pen := Sgr(s.pen, Values(list))), rest)
    decreases |list|
  {
    if list == [] {
      assert "" + rest == rest;
    } else {
      var a, more := list[0], list[1..];
      Assoc(Csi([a], 'm'), OneByOne(more), rest);
      CsiObeyed(s, [a], 'm', OneByOne(more) + rest);
      assert Values([a]) == [ArgValue(a)] && Values(list)[1..] == Values(more);
      OneAttribute(s.pen, ArgValue(a));
      OneByOneRuns(s.(pen := Sgr1(s.pen, ArgValue(a))), more, rest);
    }
  }

  lemma OneAttribute(p: Pen, a: nat)
    ensures Sgr(p, [a]) == Sgr1(p, a)
  {
    assert [a][1..] == [];
  }

  /** Several attributes in one sequence act as one sequence for each of them, in order. */
  lemma {:induction false} AttributesInOrder(s: Screen, list: seq<Option<nat>>, rest: string)
    requires 1 <= |list| <= 8
    ensures Interp(s, Csi(list, 'm') + rest) == Interp(s, OneByOne(list) + rest)
  {
    CsiObeyed(s, list, 'm', rest);
    OneByOneRuns(s, list, rest);
  }

  predicate Foreground(a: nat) { (a / 10 == 3 || a / 10 == 9) && a % 10 < 8 }

  predicate Background(a: nat) { (a / 10 == 4 || a / 10 == 10) && a % 10 < 8 }

  predicate SetsFg(a: nat) { a == 0 || a == 39 || Foreground(a) }

  predicate SetsBg(a: nat) { a == 0 || a == 49 || Background(a) }

  predicate SetsBold(a: nat) { a == 0 || a == 1 || a == 22 }

  ghost predicate NoneFrom(args: seq<nat>, k: nat, sets: nat -> bool) { forall j :: k <= j < |args| ==> !sets(args[j]) }

  /** Argument `k` is the last one of its kind. */
  ghost predicate IsLast(args: seq<nat>, k: nat, sets: nat -> bool) {
    k < |args| && sets(args[k]) && NoneFrom(args, k + 1, sets)
  }

  lemma NoneTail(args: seq<nat>, k: nat, sets: nat -> bool)
    requires args != []
    ensures NoneFrom(args, k + 1, sets) == NoneFrom(args[1..], k, sets)
  {
    if NoneFrom(args, k + 1, sets) {
      forall j | k <= j < |args[1..]| ensures !sets(args[1..][j]) { assert args[1..][j] == args[j + 1]; }
    }
    if NoneFrom(args[1..], k, sets) {
      forall j | k + 1 <= j < |args| ensures !sets(args[j]) { assert args[j] == args[1..][j - 1]; }
    }
  }

  /** Each part of the pen is decided by the last argument that concerns it, and kept if there is none. */
  lemma {:induction false} SgrFg(p: Pen, args: seq<nat>, k: nat)
    ensures IsLast(args, k, SetsFg) ==> Sgr(p, args).fg == if Foreground(args[k]) then args[k] else 0
    ensures NoneFrom(args, 0, SetsFg) ==> Sgr(p, args).fg == p.fg
    decreases |args|
  {
    if args != [] {
      SgrFg(Sgr1(p, args[0]), args[1..], if k == 0 then 0 else k - 1);
      NoneTail(args, 0, SetsFg);
      NoneTail(args, k, SetsFg);
    }
  }

  lemma {:induction false} SgrBg(p: Pen, args: seq<nat>, k: nat)
    ensures IsLast(args, k, SetsBg) ==> Sgr(p, args).bg == if Background(args[k]) then args[k] else 0
    ensures NoneFrom(args, 0, SetsBg) ==> Sgr(p, args).bg == p.bg
    decreases |args|
  {
    if args != [] {
      SgrBg(Sgr1(p, args[0]), args[1..], if k == 0 then 0 else k - 1);
      NoneTail(args, 0, SetsBg);
      NoneTail(args, k, SetsBg);
    }
  }

  lemma {:induction false} SgrBold(p: Pen, args: seq<nat>, k: nat)
    ensures IsLast(args, k, SetsBold) ==> Sgr(p, args).bold == if args[k] == 1 then 1 else 0
    ensures NoneFrom(args, 0, SetsBold) ==> Sgr(p, args).bold == p.bold
    decreases |args|
  {
    if args != [] {
      SgrBold(Sgr1(p, args[0]), args[1..], if k == 0 then 0 else k - 1);
      NoneTail(args, 0, SetsBold);
      NoneTail(args, k, SetsBold);
    }
  }

  // ----- Cursor

  /** Positions are printed from 1; 0 and a missing argument mean 1. */
  function From1(a: Option<nat>): nat { if a.Some? && a.value > 0 then a.value - 1 else 0 }

  lemma {:induction false} CursorMoves(s: Screen, list: seq<Option<nat>>, cmd: char, rest: string)
    requires 1 <= |list| <= 8 && (cmd == 'H' || cmd == 'f')
    ensures Interp(s, Csi(list, cmd) + rest)
         == Interp(s.(row := From1(list[0]), col := if |list| == 1 then 0 else From1(list[1])), rest)
  {
    CsiObeyed(s, list, cmd, rest);
    CursorCommand(s, list, cmd);
  }

  lemma CursorCommand(s: Screen, list: seq<Option<nat>>, cmd: char)
    requires list != [] && (cmd == 'H' || cmd == 'f')
    ensures Command(s, cmd, Values(list)) == s.(row := From1(list[0]), col := if |list| == 1 then 0 else From1(list[1]))
  {
  }

  /** Without any argument the cursor goes to the first cell. */
  lemma {:induction false} CursorHome(s: Screen, cmd: char, rest: string)
    requires cmd == 'H' || cmd == 'f'
    ensures Interp(s, [ESC, '[', cmd] + rest) == Interp(s.(row := 0, col := 0), rest)
  {
    CursorMoves(s, [None], cmd, rest);
    assert Csi([None], cmd) == [ESC, '[', cmd];
  }

  /** Any other command is read over. */
  lemma {:induction false} OthersIgnored(s: Screen, list: seq<Option<nat>>, cmd: char, rest: string)
    requires 1 <= |list| <= 8 && EndsArgs(cmd) && cmd !in "mHf"
    ensures Interp(s, Csi(list, cmd) + rest) == Interp(s, rest)
  {
    CsiObeyed(s, list, cmd, rest);
    assert "mHf"[0] == 'm' && "mHf"[1] == 'H' && "mHf"[2] == 'f';
  }

  // ----- Plain text

  predicate PlainChar(c: char) { c != ESC && c != NUL && c != '\n' && c != '\r' }

  predicate PlainText(text: string) { forall i :: 0 <= i < |text| ==> PlainChar(text[i]) }

  /** A grid with a text in row `row` from column `col` on; what lies outside the grid is lost. */
  function Written(g: Grid, row: nat, col: nat, pen: Pen, text: string): Grid {
    seq(|g|, r requires 0 <= r < |g| =>
      seq(|g[r]|, c requires 0 <= c < |g[r]| =>
        if r == row && col <= c < col + |text| then Cell(text[c - col], pen) else g[r][c]))
  }

  lemma RowsEqual(a: Grid, b: Grid)
    requires SameSize(a, b) && forall r, c :: 0 <= r < |a| && 0 <= c < |a[r]| ==> a[r][c] == b[r][c]
    ensures a == b
  {
    forall r | 0 <= r < |a| ensures a[r] == b[r] { }
  }

  lemma WrittenNothing(g: Grid, row: nat, col: nat, pen: Pen)
    ensures Written(g, row, col, pen, "") == g
  {
    RowsEqual(Written(g, row, col, pen, ""), g);
  }

  lemma WrittenStep(s: Screen, text: string)
    requires text != ""
    ensures Written(s.grid, s.row, s.col, s.pen, text) == Written(Put(s, text[0]).grid, s.row, s.col + 1, s.pen, text[1..])
  {
    var a := Written(s.grid, s.row, s.col, s.pen, text);
    var b := Written(Put(s, text[0]).grid, s.row, s.col + 1, s.pen, text[1..]);
    forall r, c | 0 <= r < |a| && 0 <= c < |a[r]| ensures a[r][c] == b[r][c] {
      if r == s.row && s.col < c < s.col + |text| { assert text[1..][c - s.col - 1] == text[c - s.col]; }
    }
    RowsEqual(a, b);
  }

  lemma {:induction false} CharIsWritten(s: Screen, text: string, rest: string)
    requires PlainText(text) && text != ""
    ensures PlainText(text[1..]) && Interp(s, text + rest) == Interp(Put(s, text[0]), text[1..] + rest)
  {
    var p := text + rest;
    assert p[1..] == text[1..] + rest && p[0] == text[0] && PlainChar(text[0]);
  }

  /** Plain text goes to the cells from the cursor on, with the pen, and moves the cursor behind it. */
  lemma {:induction false} TextIsWritten(s: Screen, text: string, rest: string)
    requires PlainText(text)
    ensures Interp(s, text + rest)
         == Interp(s.(grid := Written(s.grid, s.row, s.col, s.pen, text), col := s.col + |text|), rest)
    decreases |text|
  {
    if text == "" {
      WrittenNothing(s.grid, s.row, s.col, s.pen);
      assert text + rest == rest;
    } else {
      CharIsWritten(s, text, rest);
      TextIsWritten(Put(s, text[0]), text[1..], rest);
      WrittenStep(s, text);
    }
  }

  /** A line end starts the next row; a carriage return starts the row again. */
  lemma {:induction false} LineEnds(s: Screen, rest: string)
    ensures Interp(s, ['\n'] + rest) == Interp(Screen(s.grid, s.row + 1, 0, s.pen), rest)
    ensures Interp(s, ['\r'] + rest) == Interp(Screen(s.grid, s.row, 0, s.pen), rest)
  {
    assert (['\n'] + rest)[1..] == rest && (['\r'] + rest)[1..] == rest;
  }
}
