/**
 The text editor core of kilo: rows with a cursor, edited one byte at a time.  The
 rows stand for one flat text in which every row ends with a newline.
 */
module Kilo {

  type Row = string

  /** Rows, screen size, and a cursor given by scroll offset plus screen position. */
  datatype State = State(rows: seq<Row>, cx: int, cy: int, coloff: int, rowoff: int, screencols: int, screenrows: int) {
    function FileRow(): int { rowoff + cy }

    function FileCol(): int { coloff + cx }

    /** The cursor is in a row, at most just behind its last character. */
    predicate Inside() { 0 <= FileRow() < |rows| && 0 <= FileCol() <= |rows[FileRow()]| }

    /** Typing a character stays within the storage of the rows. */
    predicate CanType() { FileRow() >= 0 && FileCol() >= 0 }

    /** So do a newline and a backspace, which do nothing to a row that is not there. */
    predicate CanEdit() { FileRow() >= 0 && (FileRow() < |rows| ==> FileCol() >= 0) }
  }

  // ----- The flat text

  function Flat(rows: seq<Row>): string {
    if rows == [] then "" else rows[0] + "\n" + Flat(rows[1..])
  }

  /** Offset in the flat text of column `c` of row `r`. */
  function Offset(rows: seq<Row>, r: nat, c: nat): nat
    requires r <= |rows|
  {
    |Flat(rows[..r])| + c
  }

  lemma {:induction false} FlatConcat(a: seq<Row>, b: seq<Row>)
    ensures Flat(a + b) == Flat(a) + Flat(b)
  {
    if a == [] {
      assert a + b == b && "" + Flat(b) == Flat(b);
    } else {
      assert (a + b)[0] == a[0] && (a + b)[1..] == a[1..] + b;
      FlatConcat(a[1..], b);
      assert a[0] + "\n" + (Flat(a[1..]) + Flat(b)) == a[0] + "\n" + Flat(a[1..]) + Flat(b);
    }
  }

  lemma FlatOne(row: Row)
    ensures Flat([row]) == row + "\n"
  {
    assert [row][1..] == [];
    assert row + "\n" + "" == row + "\n";
  }

  /** The text around one row. */
  lemma {:induction false} FlatAround(rows: seq<Row>, r: nat)
    requires r < |rows|
    ensures Flat(rows) == Flat(rows[..r]) + (rows[r] + "\n" + Flat(rows[r + 1..]))
  {
    FlatConcat(rows[..r], rows[r..]);
    assert rows[..r] + rows[r..] == rows;
    assert rows[r..][1..] == rows[r + 1..];
  }

  /** Replacing one row by others. */
  lemma {:induction false} FlatReplace(rows: seq<Row>, r: nat, n: nat, mid: seq<Row>)
    requires r + n <= |rows|
    ensures Flat(rows[..r] + mid + rows[r + n..]) == Flat(rows[..r]) + Flat(mid) + Flat(rows[r + n..])
  {
    FlatConcat(rows[..r] + mid, rows[r + n..]);
    FlatConcat(rows[..r], mid);
  }

  function InsertAt(s: string, k: nat, c: char): string
    requires k <= |s|
  {
    s[..k] + [c] + s[k..]
  }

  function DeleteAt(s: string, k: nat): string
    requires k < |s|
  {
    s[..k] + s[k + 1..]
  }

  // ----- Row operations

  function InsertRow(rows: seq<Row>, at: nat, s: Row): seq<Row> {
    if at > |rows| then rows else rows[..at] + [s] + rows[at..]
  }

  function DelRow(rows: seq<Row>, at: nat): seq<Row> {
    if at >= |rows| then rows else rows[..at] + rows[at + 1..]
  }

  function Spaces(n: nat): string { seq(n, _ => ' ') }

  /** Inserting beyond the end pads the row with blanks. */
  function RowInsertChar(row: Row, at: nat, c: char): Row {
    if at > |row| then row + Spaces(at - |row|) + [c] else InsertAt(row, at, c)
  }

  function RowDelChar(row: Row, at: nat): Row {
    if |row| <= at then row else DeleteAt(row, at)
  }

  // ----- Editing operations

  /** Empty rows are added until row `r` is there. */
  function Filled(rows: seq<Row>, r: nat): (f: seq<Row>)
    ensures r < |f| && (r < |rows| ==> f == rows)
  {
    if r < |rows| then rows else rows + seq(r + 1 - |rows|, _ => "")
  }

  function InsertChar(st: State, c: char): State
    requires st.CanType()
  {
    var r := st.FileRow();
    var rows := Filled(st.rows, r);
    var rows' := rows[r := RowInsertChar(rows[r], st.FileCol(), c)];
    if st.cx == st.screencols - 1 then st.(rows := rows', coloff := st.coloff + 1)
    else st.(rows := rows', cx := st.cx + 1)
  }

  /** To the first column of the next row. */
  function CursorDown(st: State): State {
    (if st.cy == st.screenrows - 1 then st.(rowoff := st.rowoff + 1) else st.(cy := st.cy + 1)).(cx := 0, coloff := 0)
  }

  function InsertNewline(st: State): State
    requires st.CanEdit()
  {
    var r := st.FileRow();
    if r > |st.rows| then st
    else if r == |st.rows| then CursorDown(st.(rows := InsertRow(st.rows, r, "")))
    else
      var row := st.rows[r];
      var c := if st.FileCol() >= |row| then |row| else st.FileCol();
      if c == 0 then CursorDown(st.(rows := InsertRow(st.rows, r, "")))
      else CursorDown(st.(rows := InsertRow(st.rows, r + 1, row[c..])[r := row[..c]]))
  }

  /** To column `c` of the row above, as far as the offset is 0. */
  function Up(st: State, c: nat): State {
    var up := if st.cy == 0 then st.(rowoff := st.rowoff - 1) else st.(cy := st.cy - 1);
    if c >= st.screencols then
      var shift := st.screencols - c + 1;
      up.(cx := c - shift, coloff := st.coloff + shift)
    else up.(cx := c)
  }

  function DelChar(st: State): State
    requires st.CanEdit()
  {
    var r, c := st.FileRow(), st.FileCol();
    if r >= |st.rows| || (c == 0 && r == 0) then st
    else if c == 0 then
      var prev := st.rows[r - 1];
      Up(st.(rows := DelRow(st.rows[r - 1 := prev + st.rows[r]], r)), |prev|)
    else
      var rows := st.rows[r := RowDelChar(st.rows[r], c - 1)];
      if st.cx == 0 && st.coloff != 0 then st.(rows := rows, coloff := st.coloff - 1)
      else st.(rows := rows, cx := st.cx - 1)
  }

  // ----- Edits on the flat text

  lemma {:induction false} InsertCharIsFlat(st: State, c: char)
    requires st.Inside()
    ensures var k := Offset(st.rows, st.FileRow(), st.FileCol()); var st' := InsertChar(st, c);
      && k <= |Flat(st.rows)| && Flat(st'.rows) == InsertAt(Flat(st.rows), k, c)
      && st'.FileRow() == st.FileRow() && st'.FileCol() == st.FileCol() + 1 && st'.Inside()
  {
    var rows, r, col := st.rows, st.FileRow(), st.FileCol();
    var row := rows[r];
    var row' := InsertAt(row, col, c);
    FlatAround(rows, r);
    var rows' := rows[r := row'];
    assert InsertChar(st, c).rows == rows';
    FlatAround(rows', r);
    assert rows'[..r] == rows[..r] && rows'[r + 1..] == rows[r + 1..];
    Splice(Flat(rows[..r]), row, col, [c], "\n" + Flat(rows[r + 1..]));
    assert row' + "\n" + Flat(rows[r + 1..]) == row' + ("\n" + Flat(rows[r + 1..]));
    assert row + "\n" + Flat(rows[r + 1..]) == row + ("\n" + Flat(rows[r + 1..]));
  }

  /** Inserting into a middle part inserts into the whole. */
  lemma Splice(a: string, b: string, k: nat, x: string, c: string)
    requires k <= |b|
    ensures var s := a + (b + c); s[..|a| + k] + x + s[|a| + k..] == a + (b[..k] + x + b[k..] + c)
  {
  }

  lemma {:induction false} InsertNewlineIsFlat(st: State)
    requires st.Inside()
    ensures var k := Offset(st.rows, st.FileRow(), st.FileCol()); var st' := InsertNewline(st);
      && k <= |Flat(st.rows)| && Flat(st'.rows) == InsertAt(Flat(st.rows), k, '\n')
      && st'.FileRow() == st.FileRow() + 1 && st'.FileCol() == 0 && st'.Inside()
  {
    NewlineSplits(st);
    FlatSplit(st.rows, st.FileRow(), st.FileCol());
  }

  /** A newline splits the row under the cursor. */
  lemma {:induction false} NewlineSplits(st: State)
    requires st.Inside()
    ensures var r, c := st.FileRow(), st.FileCol(); var row := st.rows[r];
      InsertNewline(st).rows == st.rows[..r] + [row[..c], row[c..]] + st.rows[r + 1..]
  {
    var rows, r, c := st.rows, st.FileRow(), st.FileCol();
    var row := rows[r];
    if c == 0 {
      assert row[..0] == "" && row[0..] == row;
      assert rows[r..] == [row] + rows[r + 1..];
    } else {
      assert rows[..r + 1] == rows[..r] + [row];
      assert InsertRow(rows, r + 1, row[c..]) == rows[..r] + [row, row[c..]] + rows[r + 1..];
    }
  }

  lemma {:induction false} FlatSplit(rows: seq<Row>, r: nat, c: nat)
    requires r < |rows| && c <= |rows[r]|
    ensures var k := Offset(rows, r, c); var row := rows[r];
      k <= |Flat(rows)|
      && Flat(rows[..r] + [row[..c], row[c..]] + rows[r + 1..]) == InsertAt(Flat(rows), k, '\n')
  {
    var row := rows[r];
    var p, q := row[..c], row[c..];
    var fa, fz := Flat(rows[..r]), Flat(rows[r + 1..]);
    FlatReplace(rows, r, 1, [p, q]);
    FlatAround(rows, r);
    FlatTwo(p, q);
    Splice(fa, row, c, "\n", "\n" + fz);
    assert row + "\n" + fz == row + ("\n" + fz);
    assert fa + (p + "\n" + (q + "\n")) + fz == fa + (p + "\n" + q + ("\n" + fz));
  }

  lemma FlatTwo(p: Row, q: Row)
    ensures Flat([p, q]) == p + "\n" + (q + "\n")
  {
    FlatConcat([p], [q]);
    FlatOne(p);
    FlatOne(q);
    assert [p] + [q] == [p, q];
  }

  /**
   Backspace deletes within the row, or the joined row has the column that the length of
   the row above plus the column offset gives.
   */
  predicate StaysInside(st: State)
    requires st.Inside() && (st.FileRow() > 0 || st.FileCol() > 0)
  {
    var r := st.FileRow();
    st.FileCol() > 0 || 0 <= |st.rows[r - 1]| + st.coloff <= |st.rows[r - 1]| + |st.rows[r]|
  }

  /** Backspace deletes the byte in front of the cursor: a character of the row, or the newline above. */
  lemma {:induction false} DelCharIsFlat(st: State)
    requires st.Inside() && Offset(st.rows, st.FileRow(), st.FileCol()) > 0
    ensures var k := Offset(st.rows, st.FileRow(), st.FileCol()); var st' := DelChar(st);
      k <= |Flat(st.rows)| && Flat(st'.rows) == DeleteAt(Flat(st.rows), k - 1)
    ensures (st.FileRow() > 0 || st.FileCol() > 0) && (DelChar(st).Inside() <==> StaysInside(st))
  {
    var rows, r, c := st.rows, st.FileRow(), st.FileCol();
    assert rows[..0] == [];
    BackspaceInside(st);
    FlatAround(rows, r);
    if c > 0 {
      DelInRow(rows, r, c);
    } else {
      JoinRows(rows, r);
    }
  }

  lemma {:induction false} DelInRow(rows: seq<Row>, r: nat, c: nat)
    requires r < |rows| && 0 < c <= |rows[r]|
    ensures var k := Offset(rows, r, c);
      k <= |Flat(rows)| && Flat(rows[r := DeleteAt(rows[r], c - 1)]) == DeleteAt(Flat(rows), k - 1)
  {
    var row := rows[r];
    var row' := DeleteAt(row, c - 1);
    var rows' := rows[r := row'];
    FlatAround(rows, r);
    FlatAround(rows', r);
    assert rows'[..r] == rows[..r] && rows'[r + 1..] == rows[r + 1..];
    CutOut(Flat(rows[..r]), row, c - 1, "\n" + Flat(rows[r + 1..]));
    assert row + "\n" + Flat(rows[r + 1..]) == row + ("\n" + Flat(rows[r + 1..]));
    assert row' + "\n" + Flat(rows[r + 1..]) == row' + ("\n" + Flat(rows[r + 1..]));
  }

  lemma CutOut(a: string, b: string, k: nat, c: string)
    requires k < |b|
    ensures DeleteAt(a + (b + c), |a| + k) == a + (DeleteAt(b, k) + c)
  {
  }

  lemma {:induction false} JoinRows(rows: seq<Row>, r: nat)
    requires 0 < r < |rows|
    ensures var k := Offset(rows, r, 0); var joined := DelRow(rows[r - 1 := rows[r - 1] + rows[r]], r);
      0 < k <= |Flat(rows)| && Flat(joined) == DeleteAt(Flat(rows), k - 1)
  {
    var a, z := rows[..r - 1], rows[r + 1..];
    var p, q := rows[r - 1], rows[r];
    var joined := DelRow(rows[r - 1 := p + q], r);
    assert joined == a + [p + q] + z;
    FlatReplace(rows, r - 1, 2, [p + q]);
    FlatOne(p + q);
    FlatConcat(a, [p]);
    FlatOne(p);
    assert rows[..r] == a + [p];
    FlatAround(rows, r);
    var fa, fz := Flat(a), Flat(z);
    CutNewline(fa, p, q + "\n" + fz);
    Grouped(fa, p, q, fz);
  }

  lemma CutNewline(a: string, p: string, z: string)
    ensures DeleteAt(a + (p + "\n" + z), |a| + |p|) == a + (p + z)
  {
    CutOut(a, p + "\n", |p|, z);
    assert DeleteAt(p + "\n", |p|) == p;
  }

  lemma Grouped(a: string, p: string, q: string, z: string)
    ensures a + (p + "\n") + (q + "\n" + z) == a + (p + "\n" + (q + "\n" + z))
    ensures a + (p + q + "\n") + z == a + (p + (q + "\n" + z))
  {
  }

  // ----- Undoing an insertion

  /** Backspace after a typed character restores rows and position. */
  lemma InsertCharUndone(st: State, c: char)
    requires st.Inside()
    ensures var back := DelChar(InsertChar(st, c));
      back.rows == st.rows && back.FileRow() == st.FileRow() && back.FileCol() == st.FileCol()
  {
    var rows, r, col := st.rows, st.FileRow(), st.FileCol();
    assert DeleteAt(InsertAt(rows[r], col, c), col) == rows[r];
    assert rows[r := InsertAt(rows[r], col, c)][r := rows[r]] == rows;
  }

  /** Backspace after a typed newline restores rows and position. */
  lemma InsertNewlineUndone(st: State)
    requires st.Inside()
    ensures var back := DelChar(InsertNewline(st));
      back.rows == st.rows && back.FileRow() == st.FileRow() && back.FileCol() == st.FileCol()
  {
    var rows, r, c := st.rows, st.FileRow(), st.FileCol();
    var row := rows[r];
    var split := InsertNewline(st);
    AfterNewline(st);
    assert row[..c] + row[c..] == row;
    SplitUndone(rows, split.rows, r, row[..c], row[c..]);
    JoinMoves(split);
  }

  lemma AfterNewline(st: State)
    requires st.Inside()
    ensures var r, c := st.FileRow(), st.FileCol(); var row := st.rows[r]; var st' := InsertNewline(st);
      && st'.FileRow() == r + 1 && st'.FileCol() == 0 && st'.coloff == 0
      && st'.rows == st.rows[..r] + [row[..c], row[c..]] + st.rows[r + 1..]
  {
    NewlineSplits(st);
  }

  lemma SplitUndone(rows: seq<Row>, split: seq<Row>, r: nat, p: Row, q: Row)
    requires r < |rows| && p + q == rows[r] && split == rows[..r] + [p, q] + rows[r + 1..]
    ensures split[r] == p && split[r + 1] == q && DelRow(split[r := split[r] + split[r + 1]], r + 1) == rows
  {
    assert split[r := p + q] == rows[..r] + [p + q, q] + rows[r + 1..];
  }

  // ----- The cursor after joining two rows

  /**
   Joining rows puts the cursor at the seam if and only if nothing was scrolled
   sideways: the scroll offset is added to, not replaced.
   */
  lemma JoinCursor(st: State)
    requires 0 < st.FileRow() < |st.rows| && st.FileCol() == 0
    ensures var st' := DelChar(st);
      && st'.FileRow() == st.FileRow() - 1
      && (st'.FileCol() == |st.rows[st.FileRow() - 1]| <==> st.coloff == 0)
  {
  }

  /** After a join the column is the length of the row above plus the offset there was. */
  lemma JoinMoves(st: State)
    requires 0 < st.FileRow() < |st.rows| && st.FileCol() == 0
    ensures var st' := DelChar(st); var r := st.FileRow(); var prev := st.rows[r - 1];
      && st'.rows == DelRow(st.rows[r - 1 := prev + st.rows[r]], r)
      && st'.FileRow() == r - 1 && st'.FileCol() == |prev| + st.coloff
  {
  }

  /** Backspace keeps the cursor inside a row exactly then. */
  lemma BackspaceInside(st: State)
    requires st.Inside() && (st.FileRow() > 0 || st.FileCol() > 0)
    ensures DelChar(st).Inside() <==> StaysInside(st)
  {
    if st.FileCol() == 0 {
      var r := st.FileRow();
      assert DelChar(st).rows[r - 1] == st.rows[r - 1] + st.rows[r];
    }
  }

  /** So many backspaces, as far as they are possible. */
  function Backspaces(st: State, n: nat): State
    decreases n
  {
    if n == 0 || !st.CanEdit() then st else Backspaces(DelChar(st), n - 1)
  }

  /**
   The offset can be wrong while the cursor is at column 0: joining an empty row onto one at
   least two longer than the screen makes it negative, and deleting that row back to column 0
   leaves it so.  Joining again then misses the seam, by as much as the row was too long.
   */
  lemma {:induction false} JoinTwiceMissesSeam(p: Row, row: Row, screencols: nat, screenrows: nat)
    requires screencols >= 1 && |row| >= screencols + 2
    ensures var st := State([p, row, ""], 0, 2, 0, 0, screencols, screenrows); var off := |row| - screencols - 1;
      var home := Backspaces(st, 1 + |row|);
      && st.Inside() && home == State([p, ""], off, 1, -off, 0, screencols, screenrows) && home.Inside()
      && DelChar(home).rows == [p] && DelChar(home).FileRow() == 0 && DelChar(home).FileCol() == |p| - off
  {
    var off := |row| - screencols - 1;
    var st, home := State([p, row, ""], 0, 2, 0, 0, screencols, screenrows), State([p, ""], off, 1, -off, 0, screencols, screenrows);
    JoinOnto(p, row, screencols, screenrows);
    DeleteAll(p, row, off, screencols, screenrows);
    assert p + "" == p && DelRow([p, ""][0 := p], 1) == [p];
    JoinMoves(home);
  }

  /** If the row above is shorter than that, the cursor ends up in front of the first column, where no edit is possible. */
  lemma {:induction false} JoinLeavesRow(p: Row, row: Row, screencols: nat, screenrows: nat)
    requires screencols >= 1 && |row| >= screencols + 2
    ensures var end := Backspaces(State([p, row, ""], 0, 2, 0, 0, screencols, screenrows), 2 + |row|);
      |p| + screencols + 1 < |row| <==> !end.CanType() && !end.CanEdit()
  {
    JoinTwiceMissesSeam(p, row, screencols, screenrows);
    BackspacesAdd(State([p, row, ""], 0, 2, 0, 0, screencols, screenrows), 1 + |row|, 1);
  }

  lemma {:induction false} BackspacesAdd(st: State, m: nat, n: nat)
    ensures Backspaces(st, m + n) == Backspaces(Backspaces(st, m), n)
    decreases m
  {
    if m > 0 && st.CanEdit() {
      BackspacesAdd(DelChar(st), m - 1, n);
    }
  }

  lemma JoinOnto(p: Row, row: Row, screencols: nat, screenrows: nat)
    requires |row| >= screencols + 2
    ensures var off := |row| - screencols - 1;
      DelChar(State([p, row, ""], 0, 2, 0, 0, screencols, screenrows))
      == State([p, row], |row| + off, 1, -off, 0, screencols, screenrows)
  {
    assert row + "" == row && DelRow([p, row, ""][1 := row], 2) == [p, row];
  }

  lemma {:induction false} DeleteAll(p: Row, row: Row, off: int, screencols: nat, screenrows: nat)
    requires off > 0
    ensures Backspaces(State([p, row], |row| + off, 1, -off, 0, screencols, screenrows), |row|)
      == State([p, ""], off, 1, -off, 0, screencols, screenrows)
    decreases |row|
  {
    if row != "" {
      var shorter := row[..|row| - 1];
      DelLast(p, row, shorter, off, screencols, screenrows);
      DeleteAll(p, shorter, off, screencols, screenrows);
    }
  }

  lemma DelLast(p: Row, row: Row, shorter: Row, off: int, screencols: nat, screenrows: nat)
    requires row != "" && shorter == row[..|row| - 1] && off > 0
    ensures DelChar(State([p, row], |row| + off, 1, -off, 0, screencols, screenrows))
      == State([p, shorter], |shorter| + off, 1, -off, 0, screencols, screenrows)
  {
    assert DeleteAt(row, |row| - 1) == shorter;
    assert [p, row][1 := shorter] == [p, shorter];
  }

  // ----- Whole runs of keys

  datatype Edit = Type(c: char) | Newline | Backspace

  /** A text with a position. */
  datatype Text = Text(s: string, k: nat)

  function FlatPress(t: Text, e: Edit): (t': Text)
    requires t.k <= |t.s|
    ensures t'.k <= |t'.s|
  {
    match e
    case Type(c) => Text(InsertAt(t.s, t.k, c), t.k + 1)
    case Newline => Text(InsertAt(t.s, t.k, '\n'), t.k + 1)
    case Backspace => if t.k == 0 then t else Text(DeleteAt(t.s, t.k - 1), t.k - 1)
  }

  function Press(st: State, e: Edit): State
    requires st.CanType()
  {
    match e
    case Type(c) => InsertChar(st, c)
    case Newline => InsertNewline(st)
    case Backspace => DelChar(st)
  }

  function View(st: State): Text
    requires st.Inside()
  {
    Text(Flat(st.rows), Offset(st.rows, st.FileRow(), st.FileCol()))
  }

  /** The key does not join rows while the column offset is off 0. */
  predicate AtSeam(st: State, e: Edit) {
    e.Backspace? && st.FileCol() == 0 && st.FileRow() > 0 ==> st.coloff == 0
  }

  lemma {:induction false} OffsetBelow(rows: seq<Row>, r: nat)
    requires 0 < r <= |rows|
    ensures Offset(rows, r, 0) == Offset(rows, r - 1, |rows[r - 1]|) + 1
  {
    FlatConcat(rows[..r - 1], [rows[r - 1]]);
    FlatOne(rows[r - 1]);
    assert rows[..r - 1] + [rows[r - 1]] == rows[..r];
  }

  /** A key acts on rows and cursor as on the flat text and its position, exactly then. */
  lemma {:induction false} PressIsFlat(st: State, e: Edit)
    requires st.Inside()
    ensures View(st).k <= |View(st).s|
    ensures Press(st, e).Inside() && View(Press(st, e)) == FlatPress(View(st), e) <==> AtSeam(st, e)
  {
    FlatAround(st.rows, st.FileRow());
    match e {
      case Type(c) =>
        InsertCharIsFlat(st, c);
        TypedOffset(st, c);
      case Newline =>
        InsertNewlineIsFlat(st);
        NewlineOffset(st);
      case Backspace =>
        BackspaceIsFlat(st);
    }
  }

  lemma {:induction false} BackspaceIsFlat(st: State)
    requires st.Inside() && View(st).k <= |View(st).s|
    ensures DelChar(st).Inside() && View(DelChar(st)) == FlatPress(View(st), Backspace) <==> AtSeam(st, Backspace)
  {
    BackspaceOffset(st);
    if View(st).k > 0 {
      DelCharIsFlat(st);
    }
  }

  lemma TypedOffset(st: State, c: char)
    requires st.Inside()
    ensures var st' := InsertChar(st, c); var r := st.FileRow();
      st'.FileRow() == r && r < |st'.rows| && Offset(st'.rows, r, st'.FileCol()) == Offset(st.rows, r, st.FileCol()) + 1
  {
    assert InsertChar(st, c).rows[..st.FileRow()] == st.rows[..st.FileRow()];
  }

  lemma NewlineOffset(st: State)
    requires st.Inside()
    ensures var st' := InsertNewline(st); var r := st.FileRow();
      r + 1 < |st'.rows| && Offset(st'.rows, r + 1, 0) == Offset(st.rows, r, st.FileCol()) + 1
  {
    var r, c := st.FileRow(), st.FileCol();
    NewlineSplits(st);
    var rows' := InsertNewline(st).rows;
    assert rows'[r] == st.rows[r][..c] && rows'[..r] == st.rows[..r];
    OffsetBelow(rows', r + 1);
  }

  /** Backspace moves one back, and by the column offset besides when it joins rows. */
  lemma {:induction false} BackspaceOffset(st: State)
    requires st.Inside()
    ensures var st' := DelChar(st); var k := View(st).k; var r, c := st.FileRow(), st.FileCol();
      && (k == 0 <==> r == 0 && c == 0) && (k == 0 ==> st' == st)
      && (k > 0 && st'.Inside() ==> View(st').k == k - 1 + if c == 0 then st.coloff else 0)
      && (k > 0 && c == 0 && st.coloff == 0 ==> st'.Inside())
      && (c > 0 ==> st'.Inside())
  {
    var r, c := st.FileRow(), st.FileCol();
    if c > 0 {
      BackspaceInside(st);
      assert DelChar(st).rows[..r] == st.rows[..r];
    } else if r > 0 {
      BackspaceInside(st);
      OffsetBelow(st.rows, r);
      JoinMoves(st);
      assert DelChar(st).rows[..r - 1] == st.rows[..r - 1];
    } else {
      assert st.rows[..0] == [];
    }
  }

  /** The cursor is within the screen. */
  predicate OnScreen(st: State) { 0 <= st.cx < st.screencols && 0 <= st.cy < st.screenrows }

  /** A key keeps the cursor on the screen if and only if it does not join onto a row longer than the screen is wide. */
  lemma CursorOnScreen(st: State, e: Edit)
    requires st.Inside() && OnScreen(st)
    ensures OnScreen(Press(st, e))
      <==> !(e.Backspace? && st.FileCol() == 0 && st.FileRow() > 0 && |st.rows[st.FileRow() - 1]| > st.screencols)
  {
  }

  ghost predicate Presses(st: State, e: Edit, st': State) { st.CanType() && AtSeam(st, e) && st' == Press(st, e) }

  /** A run of keys of which none joins rows while the column offset is off 0. */
  ghost predicate IsEditing(h: seq<State>, es: seq<Edit>) {
    |h| == |es| + 1 && forall i :: 0 <= i < |es| ==> Presses(h[i], es[i], h[i + 1])
  }

  /** The text after some keys. */
  function FlatRun(t: Text, es: seq<Edit>): (t': Text)
    requires t.k <= |t.s|
    ensures t'.k <= |t'.s|
  {
    if es == [] then t else FlatPress(FlatRun(t, es[..|es| - 1]), es[|es| - 1])
  }

  /** From any position inside a row, such a run edits the flat text one byte at a time to its end. */
  lemma {:induction false} EditingIsFlat(h: seq<State>, es: seq<Edit>, i: nat)
    requires IsEditing(h, es) && h[0].Inside() && i <= |es|
    ensures h[i].Inside() && View(h[0]).k <= |View(h[0]).s| && View(h[i]) == FlatRun(View(h[0]), es[..i])
    decreases i
  {
    FlatAround(h[0].rows, h[0].FileRow());
    if i > 0 {
      EditingIsFlat(h, es, i - 1);
      assert Presses(h[i - 1], es[i - 1], h[i - 1 + 1]);
      PressIsFlat(h[i - 1], es[i - 1]);
      assert es[..i][..i - 1] == es[..i - 1];
    }
  }

  // ----- Loading and saving

  /** A line as `getline` reads it, without its last byte if that is a newline or carriage return. */
  function Chomp(line: string): Row {
    if line != "" && (line[|line| - 1] == '\n' || line[|line| - 1] == '\r') then line[..|line| - 1] else line
  }

  /** The length of the first line, its newline included. */
  function FirstLine(s: string): (n: nat)
    ensures n <= |s| && (s != "" ==> n > 0)
    ensures n == |s| || s[n - 1] == '\n'
    ensures forall k :: 0 <= k < n - 1 ==> s[k] != '\n'
  {
    if s == "" then 0 else if s[0] == '\n' then 1 else 1 + FirstLine(s[1..])
  }

  function Load(s: string): seq<Row>
    decreases |s|
  {
    if s == "" then [] else [Chomp(s[..FirstLine(s)])] + Load(s[FirstLine(s)..])
  }

  predicate NewlineTerminated(s: string) { s == "" || s[|s| - 1] == '\n' }

  /** What saving a freshly loaded file writes. */
  function Saved(s: string): string {
    if NewlineTerminated(s) then s else if s[|s| - 1] == '\r' then s[..|s| - 1] + "\n" else s + "\n"
  }

  lemma {:induction false} LoadThenFlat(s: string)
    ensures Flat(Load(s)) == Saved(s)
    decreases |s|
  {
    if s != "" {
      var n := FirstLine(s);
      var line, rest := s[..n], s[n..];
      LoadThenFlat(rest);
      FlatConcat([Chomp(line)], Load(rest));
      FlatOne(Chomp(line));
      assert Flat(Load(s)) == Chomp(line) + "\n" + Saved(rest);
      SavedLine(s, n);
    }
  }

  lemma SavedLine(s: string, n: nat)
    requires 0 < n <= |s| && (n == |s| || s[n - 1] == '\n')
    ensures Chomp(s[..n]) + "\n" + Saved(s[n..]) == Saved(s)
  {
    var line, rest := s[..n], s[n..];
    assert s == line + rest;
    if rest == "" {
      assert line == s;
      assert Chomp(s) + "\n" + "" == Chomp(s) + "\n";
      assert NewlineTerminated(s) ==> Chomp(s) + "\n" == s;
    } else {
      assert Chomp(line) + "\n" == line;
      SavedTail(line, rest);
    }
  }

  lemma SavedTail(line: string, rest: string)
    requires rest != ""
    ensures Saved(line + rest) == line + Saved(rest)
  {
    var s := line + rest;
    assert s[|s| - 1] == rest[|rest| - 1];
    assert s[..|s| - 1] == line + rest[..|rest| - 1];
  }

  /** Loading and saving gives a file back exactly when its last line, too, ends with a newline. */
  lemma {:induction false} LoadSave(s: string)
    ensures Flat(Load(s)) == s <==> NewlineTerminated(s)
  {
    LoadThenFlat(s);
    if !NewlineTerminated(s) {
      assert Saved(s)[|Saved(s)| - 1] == '\n';
    }
  }

  lemma {:induction false} LoadStep(file: string, i: nat, n: nat)
    requires i < |file| && n == FirstLine(file[i..])
    ensures Load(file[i..]) == [Chomp(file[i..i + n])] + Load(file[i + n..])
  {
    assert file[i..i + n] == file[i..][..n] && file[i..][n..] == file[i + n..];
  }

  lemma AppendRow(rows: seq<Row>, row: Row, rest: seq<Row>)
    ensures InsertRow(rows, |rows|, row) + rest == rows + ([row] + rest)
  {
  }

  /** Rows in an array with a count, moved up and down in place. */
  class Editor {
    var row: array<Row>
    var numrows: nat
    var cx: int
    var cy: int
    var coloff: int
    var rowoff: int
    const screencols: int
    const screenrows: int

    ghost predicate Valid()
      reads this
    {
      numrows <= row.Length
    }

    ghost function Rows(): seq<Row>
      reads this, row
      requires Valid()
    {
      row[..numrows]
    }

    ghost function Now(): State
      reads this, row
      requires Valid()
    {
      State(Rows(), cx, cy, coloff, rowoff, screencols, screenrows)
    }

    /** The array with room for one more row. */
    method Grow() returns (bigger: array<Row>)
      requires Valid()
      ensures fresh(bigger) && bigger.Length == numrows + 1 && bigger[..numrows] == Rows()
    {
      bigger := new Row[numrows + 1](_ => "");
      forall i | 0 <= i < numrows {
        bigger[i] := row[i];
      }
    }

    /** `editorInsertRow`: the rows from `at` on move up by one. */
    method InsertRowAt(at: nat, s: Row)
      requires Valid()
      modifies this`row, this`numrows
      ensures Valid() && (if at > old(numrows) then row == old(row) else fresh(row))
      ensures Rows() == InsertRow(old(Rows()), at, s)
    {
      if at > numrows {
        return;
      }
      row := Grow();
      ShiftUp(row, at);
      row[at] := s;
      numrows := numrows + 1;
      assert Rows() == row[..at] + [s] + row[at + 1..];
    }

    /** Moves the elements from `at` on up by one, over the last one. */
    static method ShiftUp(a: array<Row>, at: nat)
      requires at < a.Length
      modifies a
      ensures a[..at] == old(a[..at]) && a[at + 1..] == old(a[at..a.Length - 1])
    {
      var j := a.Length - 1;
      while j > at
        invariant at <= j < a.Length
        invariant forall k :: 0 <= k <= j ==> a[k] == old(a[k])
        invariant forall k :: j < k < a.Length ==> a[k] == old(a[k - 1])
      {
        a[j] := a[j - 1];
        j := j - 1;
      }
    }

    method SetRow(r: nat, s: Row)
      requires Valid() && r < numrows
      modifies row
      ensures Rows() == old(Rows())[r := s]
    {
      row[r] := s;
    }

    /** `editorDelRow`: the rows behind `at` move down by one. */
    method DelRowAt(at: nat)
      requires Valid()
      modifies this`numrows, row
      ensures Valid() && Rows() == DelRow(old(Rows()), at)
    {
      if at >= numrows {
        return;
      }
      ShiftDown(row, at, numrows);
      numrows := numrows - 1;
    }

    /** Drops the element at `at` of the first `n`. */
    static method ShiftDown(a: array<Row>, at: nat, n: nat)
      requires at < n <= a.Length
      modifies a
      ensures a[..n - 1] == old(a[..n])[..at] + old(a[..n])[at + 1..]
    {
      ghost var was := a[..n];
      for j := at to n - 1
        invariant forall k :: 0 <= k < at ==> a[k] == was[k]
        invariant forall k :: at < k <= j ==> a[k - 1] == was[k]
        invariant forall k :: j <= k < n ==> a[k] == was[k]
      {
        a[j] := a[j + 1];
      }
      assert forall k :: 0 <= k < n - 1 ==> a[..n - 1][k] == if k < at then was[k] else was[k + 1];
    }

    /** `editorInsertChar`; not `ok` when the position is before the first column or row. */
    method InsertCharHere(c: char) returns (ok: bool)
      requires Valid()
      modifies this, row
      ensures Valid() && ok == old(Now()).CanType()
      ensures Now() == if ok then InsertChar(old(Now()), c) else old(Now())
    {
      var r, col := rowoff + cy, coloff + cx;
      if r < 0 || col < 0 {
        return false;
      }
      FillTo(r);
      InsertInRow(r, col, c);
      if cx == screencols - 1 {
        coloff := coloff + 1;
      } else {
        cx := cx + 1;
      }
      return true;
    }

    /** `editorRowInsertChar` */
    method InsertInRow(r: nat, at: nat, c: char)
      requires Valid() && r < numrows
      modifies row
      ensures var was := old(Rows()); Rows() == was[r := RowInsertChar(was[r], at, c)]
    {
      SetRow(r, RowInsertChar(row[r], at, c));
    }

    /** Adds empty rows until row `r` is there. */
    method FillTo(r: nat)
      requires Valid()
      modifies this`row, this`numrows
      ensures Valid() && (row == old(row) || fresh(row))
      ensures Rows() == Filled(old(Rows()), r)
    {
      while numrows <= r
        invariant Valid() && (row == old(row) || fresh(row))
        invariant old(numrows) <= numrows && (numrows == old(numrows) || numrows <= r + 1)
        invariant Rows() == old(Rows()) + seq(numrows - old(numrows), _ => "")
      {
        InsertRowAt(numrows, "");
      }
      assert Rows() == Filled(old(Rows()), r);
    }

    method FixCursor()
      requires Valid()
      modifies this`cx, this`cy, this`coloff, this`rowoff
      ensures Now() == CursorDown(old(Now()))
    {
      if cy == screenrows - 1 {
        rowoff := rowoff + 1;
      } else {
        cy := cy + 1;
      }
      cx, coloff := 0, 0;
    }

    /** `editorInsertNewline` */
    method InsertNewlineHere() returns (ok: bool)
      requires Valid()
      modifies this, row
      ensures Valid() && ok == old(Now()).CanEdit()
      ensures Now() == if ok then InsertNewline(old(Now())) else old(Now())
    {
      var r, c := rowoff + cy, coloff + cx;
      if r < 0 || (r < numrows && c < 0) {
        return false;
      }
      if r >= numrows {
        if r > numrows {
          return true;
        }
        InsertRowAt(r, "");
      } else {
        var chars := row[r];
        if c >= |chars| {
          c := |chars|;
        }
        if c == 0 {
          InsertRowAt(r, "");
        } else {
          SplitRow(r, c);
        }
      }
      FixCursor();
      return true;
    }

    /** Moves what follows column `c` to a row of its own. */
    method SplitRow(r: nat, c: nat)
      requires Valid() && r < numrows && c <= |row[r]|
      modifies this`row, this`numrows
      ensures Valid() && fresh(row)
      ensures var was := old(Rows()); Rows() == InsertRow(was, r + 1, was[r][c..])[r := was[r][..c]]
    {
      var chars := row[r];
      InsertRowAt(r + 1, chars[c..]);
      assert Rows() == InsertRow(old(Rows()), r + 1, chars[c..]);
      SetRow(r, chars[..c]);
    }

    /** `editorDelChar` */
    method DelCharHere() returns (ok: bool)
      requires Valid()
      modifies this, row
      ensures Valid() && ok == old(Now()).CanEdit()
      ensures Now() == if ok then DelChar(old(Now())) else old(Now())
    {
      var r, c := rowoff + cy, coloff + cx;
      if r < 0 || (r < numrows && c < 0) {
        return false;
      }
      if r >= numrows || (c == 0 && r == 0) {
        return true;
      }
      if c == 0 {
        c := |row[r - 1]|;
        AppendBelow(r);
        MoveUp(c);
      } else {
        SetRow(r, RowDelChar(row[r], c - 1));
        if cx == 0 && coloff != 0 {
          coloff := coloff - 1;
        } else {
          cx := cx - 1;
        }
      }
      return true;
    }

    /** Goes to column `c` of the row above. */
    method MoveUp(c: nat)
      requires Valid()
      modifies this`cx, this`cy, this`coloff, this`rowoff
      ensures Now() == Up(old(Now()), c)
    {
      if cy == 0 {
        rowoff := rowoff - 1;
      } else {
        cy := cy - 1;
      }
      cx := c;
      if cx >= screencols {
        var shift := screencols - cx + 1;
        cx := cx - shift;
        coloff := coloff + shift;
      }
    }

    /** Appends row `r` to the one above. */
    method AppendBelow(r: nat)
      requires Valid() && 0 < r < numrows
      modifies this`numrows, row
      ensures Valid() && Rows() == DelRow(old(Rows())[r - 1 := old(Rows())[r - 1] + old(Rows())[r]], r)
    {
      SetRow(r - 1, row[r - 1] + row[r]);
      DelRowAt(r);
    }

    /** `editorRowsToString` */
    method RowsToString() returns (s: string)
      requires Valid()
      ensures s == Flat(Rows())
    {
      s := "";
      for j := 0 to numrows
        invariant s == Flat(row[..j])
      {
        assert row[..j + 1] == row[..j] + [row[j]];
        FlatConcat(row[..j], [row[j]]);
        FlatOne(row[j]);
        s := s + row[j] + "\n";
      }
    }

    /** The line loop of `editorOpen`. */
    method Open(file: string)
      requires Valid() && numrows == 0
      modifies this`row, this`numrows
      ensures Valid() && Rows() == Load(file)
    {
      var i := 0;
      ghost var loaded := Load(file);
      assert file[0..] == file;
      while i < |file|
        invariant Valid() && 0 <= i <= |file| && loaded == Rows() + Load(file[i..])
        decreases |file| - i
      {
        var n := FirstLine(file[i..]);
        var line := file[i..i + n];
        LoadStep(file, i, n);
        AppendRow(Rows(), Chomp(line), Load(file[i + n..]));
        InsertRowAt(numrows, Chomp(line));
        i := i + n;
      }
    }
  }
}
