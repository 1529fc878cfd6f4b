/**
 Variables of `kbuild-subset.py`: text expansion, eager (`:=`) and lazy (`=`)
 variables, and what appending to them means.
 */
module Expansion {
  import opened Common

  // ----- White space and words

  predicate IsSpace(c: char) {
    c == ' ' || c == '\t' || c == '\n' || c == '\r' || c == '\U{0b}' || c == '\U{0c}'
  }

  function LStrip(s: string): string {
    if s != "" && IsSpace(s[0]) then LStrip(s[1..]) else s
  }

  function RStrip(s: string): string {
    if s != "" && IsSpace(s[|s| - 1]) then RStrip(s[..|s| - 1]) else s
  }

  function Strip(s: string): string { RStrip(LStrip(s)) }

  /** The words of a text, when `word` has been read of the current one. */
  function WordsFrom(s: string, word: string): seq<string>
    decreases |s|
  {
    if s == "" then (if word == "" then [] else [word])
    else if IsSpace(s[0]) then (if word == "" then [] else [word]) + WordsFrom(s[1..], "")
    else WordsFrom(s[1..], word + [s[0]])
  }

  function Words(s: string): seq<string> { WordsFrom(s, "") }

  lemma {:induction false} WordsJoin(a: string, w: char, b: string, word: string)
    requires IsSpace(w)
    ensures WordsFrom(a + [w] + b, word) == WordsFrom(a, word) + Words(b)
    decreases |a|
  {
    var s := a + [w] + b;
    if a == "" {
      assert s[0] == w && s[1..] == b;
    } else {
      assert s[0] == a[0] && s[1..] == a[1..] + [w] + b;
      WordsJoin(a[1..], w, b, if IsSpace(a[0]) then "" else word + [a[0]]);
    }
  }

  lemma {:induction false} WordsRStrip(s: string)
    ensures Words(RStrip(s)) == Words(s)
    decreases |s|
  {
    if s != "" && IsSpace(s[|s| - 1]) {
      var t, w := s[..|s| - 1], s[|s| - 1];
      WordsRStrip(t);
      WordsJoin(t, w, "", "");
      assert t + [w] + "" == s;
    }
  }

  lemma {:induction false} WordsStrip(s: string)
    ensures Words(Strip(s)) == Words(s)
    decreases |s|
  {
    if s != "" && IsSpace(s[0]) {
      WordsStrip(s[1..]);
    } else {
      WordsRStrip(s);
    }
  }

  predicate IsWord(w: string) { w != "" && forall i :: 0 <= i < |w| ==> !IsSpace(w[i]) }

  lemma {:induction false} OneWord(w: string, word: string)
    requires forall i :: 0 <= i < |w| ==> !IsSpace(w[i])
    ensures WordsFrom(w, word) == if word + w == "" then [] else [word + w]
    decreases |w|
  {
    if w == "" {
      assert word + w == word;
    } else {
      OneWord(w[1..], word + [w[0]]);
      assert word + [w[0]] + w[1..] == word + w;
    }
  }

  /** Words, each followed by some white space. */
  function Spaced(words: seq<string>, gaps: seq<char>): string
    requires |words| == |gaps|
  {
    if words == [] then "" else words[0] + [gaps[0]] + Spaced(words[1..], gaps[1..])
  }

  /** The words of a text are those it was put together from. */
  lemma {:induction false} WordsReadBack(words: seq<string>, gaps: seq<char>)
    requires |words| == |gaps| && (forall i :: 0 <= i < |words| ==> IsWord(words[i]) && IsSpace(gaps[i]))
    ensures Words(Spaced(words, gaps)) == words
    decreases |words|
  {
    if words != [] {
      WordsReadBack(words[1..], gaps[1..]);
      WordsJoin(words[0], gaps[0], Spaced(words[1..], gaps[1..]), "");
      OneWord(words[0], "");
      assert "" + words[0] == words[0];
    }
  }

  /** Joining with a blank and stripping the ends puts the words side by side. */
  lemma WordsGrow(a: string, b: string)
    ensures Words(Strip(a + " " + b)) == Words(a) + Words(b)
  {
    WordsStrip(a + " " + b);
    WordsJoin(a, ' ', b, "");
  }

  // ----- Expansion of a text, given the meaning of references

  function Closer(open: char): char { if open == '(' then ')' else '}' }

  predicate OpensRef(t: string) { |t| > 1 && t[0] == '$' && (t[1] == '(' || t[1] == '{') }

  predicate IsEscape(t: string) { |t| > 1 && t[0] == '$' && t[1] == '$' }

  /** The position behind the bracket that closes `depth` open ones, or -1. */
  function FindClose(t: string, j: nat, depth: nat, open: char): (r: int)
    requires j <= |t| && depth >= 1
    ensures r == -1 || j < r <= |t|
    decreases |t| - j
  {
    if j == |t| then -1
    else
      var d := if t[j] == open then depth + 1 else if t[j] == Closer(open) then depth - 1 else depth;
      if d == 0 then j + 1 else FindClose(t, j + 1, d, open)
  }

  function Cat(s: string, r: Result<string>): Result<string> {
    match r case Ok(t) => Ok(s + t) case Err => Err
  }

  function ExpandWith(t: string, ref: string -> Result<string>): Result<string>
    decreases |t|
  {
    if t == "" then Ok("")
    else if IsEscape(t) then Cat("$", ExpandWith(t[2..], ref))
    else if OpensRef(t) then
      var j := FindClose(t, 2, 1, t[1]);
      if j == -1 then Err
      else match ref(t[2..j - 1]) case Ok(s) => Cat(s, ExpandWith(t[j..], ref)) case Err => Err
    else Cat([t[0]], ExpandWith(t[1..], ref))
  }

  lemma {:induction false} CloseInPrefix(t: string, more: string, j: nat, depth: nat, open: char)
    requires j <= |t| && depth >= 1
    requires FindClose(t, j, depth, open) != -1
    ensures FindClose(t + more, j, depth, open) == FindClose(t, j, depth, open)
    decreases |t| - j
  {
    var d := if t[j] == open then depth + 1 else if t[j] == Closer(open) then depth - 1 else depth;
    assert (t + more)[j] == t[j];
    if d != 0 {
      CloseInPrefix(t, more, j + 1, d, open);
    }
  }

  lemma {:induction false} NoCloseInSpace(t: string, w: char, j: nat, depth: nat, open: char)
    requires j <= |t| && depth >= 1 && IsSpace(w) && (open == '(' || open == '{')
    requires FindClose(t, j, depth, open) == -1
    ensures FindClose(t + [w], j, depth, open) == -1
    decreases |t| - j
  {
    if j < |t| {
      var d := if t[j] == open then depth + 1 else if t[j] == Closer(open) then depth - 1 else depth;
      assert (t + [w])[j] == t[j];
      NoCloseInSpace(t, w, j + 1, d, open);
    } else {
      assert (t + [w])[j] == w;
    }
  }

  /** Expansion distributes over texts joined by white space. */
  lemma {:induction false} ExpandJoin(a: string, w: char, b: string, ref: string -> Result<string>)
    requires IsSpace(w) && ExpandWith(a, ref).Ok? && ExpandWith(b, ref).Ok?
    ensures ExpandWith(a + [w] + b, ref) == Ok(ExpandWith(a, ref).value + [w] + ExpandWith(b, ref).value)
    decreases |a|
  {
    var y := ExpandWith(b, ref).value;
    if a == "" {
      SpaceFirst(w, b, ref);
      assert "" + [w] + b == [w] + b && "" + [w] + y == [w] + y;
    } else {
      var n, s := Chunk(a, ref);
      var x := ExpandWith(a[n..], ref).value;
      ExpandJoin(a[n..], w, b, ref);
      ChunkThenRest(a, w, b, ref, n, s, x, y);
    }
  }

  lemma {:induction false} SpaceFirst(w: char, b: string, ref: string -> Result<string>)
    requires IsSpace(w)
    ensures ExpandWith([w] + b, ref) == Cat([w], ExpandWith(b, ref))
  {
    assert ([w] + b)[1..] == b;
  }

  lemma {:induction false} ChunkThenRest(a: string, w: char, b: string, ref: string -> Result<string>, n: nat, s: string,
                                         x: string, y: string)
    requires a != "" && IsSpace(w) && ExpandWith(a, ref).Ok? && (n, s) == ChunkOf(a, ref) && n <= |a|
    requires ExpandWith(a[n..] + [w] + b, ref) == Ok(x + [w] + y)
    ensures ExpandWith(a + [w] + b, ref) == Ok((s + x) + [w] + y)
  {
    var tail := [w] + b;
    ChunkExtends(a, tail, ref);
    Pieces(a, [w], b, n);
    Pieces(s, x, [w] + y, 0);
    Pieces(s + x, [w], y, 0);
    Pieces(x, [w], y, 0);
  }

  lemma Pieces(a: string, b: string, c: string, n: nat)
    requires n <= |a|
    ensures a + b + c == a + (b + c) && (a + (b + c))[n..] == a[n..] + b + c
  {
  }

  /** The first piece of a text that expands: its length and its expansion. */
  lemma Chunk(a: string, ref: string -> Result<string>) returns (n: nat, s: string)
    requires a != "" && ExpandWith(a, ref).Ok?
    ensures 0 < n <= |a| && ExpandWith(a[n..], ref).Ok?
    ensures (n, s) == ChunkOf(a, ref) && ExpandWith(a, ref) == Ok(s + ExpandWith(a[n..], ref).value)
  {
    var c := ChunkOf(a, ref);
    n, s := c.0, c.1;
  }

  function ChunkOf(a: string, ref: string -> Result<string>): (nat, string)
    requires a != "" && ExpandWith(a, ref).Ok?
  {
    if IsEscape(a) then (2, "$")
    else if OpensRef(a) then
      var j := FindClose(a, 2, 1, a[1]);
      (j, ref(a[2..j - 1]).value)
    else (1, [a[0]])
  }

  /** What follows the text, beginning with white space, does not change its first piece. */
  lemma {:induction false} ChunkExtends(a: string, tail: string, ref: string -> Result<string>)
    requires a != "" && ExpandWith(a, ref).Ok? && tail != "" && IsSpace(tail[0])
    ensures var t := a + tail; var (n, s) := ChunkOf(a, ref);
      ExpandWith(t, ref) == Cat(s, ExpandWith(t[n..], ref))
  {
    var t := a + tail;
    assert t[0] == a[0];
    assert |a| == 1 ==> t[1] == tail[0];
    assert |a| > 1 ==> t[1] == a[1];
    if OpensRef(a) {
      CloseInPrefix(a, tail, 2, 1, a[1]);
      var j := FindClose(a, 2, 1, a[1]);
      assert t[2..j - 1] == a[2..j - 1];
    }
  }

  /** Dropping a white space at the end does not bring in an error. */
  lemma {:induction false} ExpandSnoc(a: string, w: char, ref: string -> Result<string>)
    requires IsSpace(w) && ExpandWith(a + [w], ref).Ok?
    ensures ExpandWith(a, ref).Ok?
    decreases |a|
  {
    if a != "" {
      var t := a + [w];
      assert t[0] == a[0];
      assert |a| == 1 ==> t[1] == w;
      assert |a| > 1 ==> t[1] == a[1];
      if IsEscape(a) {
        assert t[2..] == a[2..] + [w];
        ExpandSnoc(a[2..], w, ref);
      } else if OpensRef(a) {
        var j := FindClose(a, 2, 1, a[1]);
        if j == -1 {
          NoCloseInSpace(a, w, 2, 1, a[1]);
        } else {
          CloseInPrefix(a, [w], 2, 1, a[1]);
          assert t[2..j - 1] == a[2..j - 1] && t[j..] == a[j..] + [w];
          ExpandSnoc(a[j..], w, ref);
        }
      } else {
        assert t[1..] == a[1..] + [w];
        ExpandSnoc(a[1..], w, ref);
      }
    }
  }

  lemma {:induction false} ExpandRStrip(a: string, ref: string -> Result<string>)
    requires ExpandWith(a, ref).Ok?
    ensures ExpandWith(RStrip(a), ref).Ok?
    ensures Words(ExpandWith(RStrip(a), ref).value) == Words(ExpandWith(a, ref).value)
    decreases |a|
  {
    if a != "" && IsSpace(a[|a| - 1]) {
      var t, w := a[..|a| - 1], a[|a| - 1];
      assert a == t + [w];
      ExpandSnoc(t, w, ref);
      assert a == t + [w] + "";
      ExpandJoin(t, w, "", ref);
      WordsJoin(ExpandWith(t, ref).value, w, "", "");
      ExpandRStrip(t, ref);
    }
  }

  /** Stripping a text before expanding it leaves the words of its expansion. */
  lemma {:induction false} ExpandStrip(a: string, ref: string -> Result<string>)
    requires ExpandWith(a, ref).Ok?
    ensures ExpandWith(Strip(a), ref).Ok?
    ensures Words(ExpandWith(Strip(a), ref).value) == Words(ExpandWith(a, ref).value)
    decreases |a|
  {
    if a != "" && IsSpace(a[0]) {
      var x := ExpandWith(a[1..], ref);
      assert ExpandWith(a, ref) == Cat([a[0]], x);
      var y := [a[0]] + x.value;
      assert y[1..] == x.value;
      ExpandStrip(a[1..], ref);
    } else {
      ExpandRStrip(a, ref);
    }
  }

  /** Appending to a lazy variable: the words of both texts, each expanded at the time of use. */
  lemma ExpandGrow(a: string, b: string, ref: string -> Result<string>)
    requires ExpandWith(a, ref).Ok? && ExpandWith(b, ref).Ok?
    ensures var r := ExpandWith(Strip(a + " " + b), ref);
      r.Ok? && Words(r.value) == Words(ExpandWith(a, ref).value) + Words(ExpandWith(b, ref).value)
  {
    ExpandJoin(a, ' ', b, ref);
    ExpandStrip(a + " " + b, ref);
    WordsJoin(ExpandWith(a, ref).value, ' ', ExpandWith(b, ref).value, "");
  }

  // ----- What stripping means

  predicate AllSpace(s: string) { forall i :: 0 <= i < |s| ==> IsSpace(s[i]) }

  /** A text without white space at its ends. */
  predicate Trimmed(s: string) { s == "" || (!IsSpace(s[0]) && !IsSpace(s[|s| - 1])) }

  /** `core` is `s` apart from white space around it. */
  ghost predicate Surrounds(s: string, core: string) {
    Trimmed(core) && exists l, r :: AllSpace(l) && AllSpace(r) && s == l + core + r
  }

  lemma {:induction false} StripCore(l: string, core: string, r: string)
    requires AllSpace(l) && AllSpace(r) && Trimmed(core)
    ensures Strip(l + core + r) == core
    decreases |l|
  {
    var s := l + core + r;
    if l != "" {
      assert s[0] == l[0] && s[1..] == l[1..] + core + r;
      StripCore(l[1..], core, r);
    } else if core == "" {
      assert s == r;
      StripSpace(r);
    } else {
      assert s == core + r && s[0] == core[0];
      RStripCore(core, r);
    }
  }

  lemma {:induction false} StripSpace(s: string)
    requires AllSpace(s)
    ensures Strip(s) == ""
  {
    if s != "" { StripSpace(s[1..]); }
  }

  lemma {:induction false} RStripCore(core: string, r: string)
    requires AllSpace(r) && core != "" && !IsSpace(core[|core| - 1])
    ensures RStrip(core + r) == core
    decreases |r|
  {
    var s := core + r;
    if r == "" {
      assert s == core;
    } else {
      assert s[|s| - 1] == r[|r| - 1] && s[..|s| - 1] == core + r[..|r| - 1];
      RStripCore(core, r[..|r| - 1]);
    }
  }

  lemma {:induction false} LStripParts(s: string) returns (l: string)
    ensures AllSpace(l) && s == l + LStrip(s) && (LStrip(s) == "" || !IsSpace(LStrip(s)[0]))
  {
    if s != "" && IsSpace(s[0]) {
      var m := LStripParts(s[1..]);
      l := [s[0]] + m;
      assert s == [s[0]] + s[1..];
    } else {
      l := "";
    }
  }

  lemma {:induction false} RStripParts(s: string) returns (r: string)
    ensures AllSpace(r) && s == RStrip(s) + r && (RStrip(s) == "" || !IsSpace(RStrip(s)[|RStrip(s)| - 1]))
    decreases |s|
  {
    if s != "" && IsSpace(s[|s| - 1]) {
      var m := RStripParts(s[..|s| - 1]);
      r := m + [s[|s| - 1]];
      assert s == s[..|s| - 1] + [s[|s| - 1]];
    } else {
      r := "";
    }
  }

  /** Stripping finds the one trimmed core of a text. */
  lemma {:induction false} StripIsCore(s: string, core: string)
    ensures Surrounds(s, core) <==> core == Strip(s)
  {
    if Surrounds(s, core) {
      var l, r :| AllSpace(l) && AllSpace(r) && s == l + core + r;
      StripCore(l, core, r);
    }
    var l := LStripParts(s);
    var mid := LStrip(s);
    var r := RStripParts(mid);
    if RStrip(mid) != "" { assert mid[0] == RStrip(mid)[0]; }
    assert l + mid == l + RStrip(mid) + r;
    assert AllSpace(l) && AllSpace(r) && s == l + Strip(s) + r;
  }

  // ----- What a written text expands to

  /** Pieces a text is written from: a character, an escaped dollar sign, a reference. */
  datatype Piece = Char(c: char) | Dollar | Ref(open: char, body: string)

  /** How far brackets are open behind a text. */
  function Nesting(s: string, open: char): int {
    if s == "" then 0
    else
      var before, c := Nesting(s[..|s| - 1], open), s[|s| - 1];
      if c == open then before + 1 else if c == Closer(open) then before - 1 else before
  }

  /** Every bracket that is closed was opened, and every one opened is closed. */
  ghost predicate Balanced(s: string, open: char) {
    Nesting(s, open) == 0 && forall k :: 0 <= k <= |s| ==> Nesting(s[..k], open) >= 0
  }

  ghost predicate Written(p: Piece) {
    match p
    case Char(c) => c != '$'
    case Dollar => true
    case Ref(open, body) => (open == '(' || open == '{') && Balanced(body, open)
  }

  ghost predicate AllWritten(ps: seq<Piece>) { forall i :: 0 <= i < |ps| ==> Written(ps[i]) }

  function Source(p: Piece): string {
    match p
    case Char(c) => [c]
    case Dollar => "$$"
    case Ref(open, body) => ['$', open] + body + [Closer(open)]
  }

  function SourceOf(ps: seq<Piece>): string { if ps == [] then "" else Source(ps[0]) + SourceOf(ps[1..]) }

  function Meaning(p: Piece, ref: string -> Result<string>): Result<string> {
    match p case Char(c) => Ok([c]) case Dollar => Ok("$") case Ref(_, body) => ref(body)
  }

  function MeaningOf(ps: seq<Piece>, ref: string -> Result<string>): Result<string> {
    if ps == [] then Ok("")
    else match Meaning(ps[0], ref) case Ok(s) => Cat(s, MeaningOf(ps[1..], ref)) case Err => Err
  }

  /** The bracket behind a balanced text closes it. */
  lemma {:induction false} ClosesBehind(t: string, body: string, k: nat, depth: nat, open: char)
    requires (open == '(' || open == '{') && Balanced(body, open) && k <= |body|
    requires 2 + |body| < |t| && t[2..2 + |body|] == body && t[2 + |body|] == Closer(open)
    requires depth == 1 + Nesting(body[..k], open)
    ensures FindClose(t, 2 + k, depth, open) == 3 + |body|
    decreases |body| - k
  {
    assert body[..|body|] == body;
    if k < |body| {
      assert t[2 + k] == t[2..2 + |body|][k] == body[k];
      assert body[..k + 1][..k] == body[..k];
      ClosesBehind(t, body, k + 1, 1 + Nesting(body[..k + 1], open), open);
    }
  }

  lemma {:induction false} PieceExpands(p: Piece, rest: string, ref: string -> Result<string>)
    requires Written(p)
    ensures ExpandWith(Source(p) + rest, ref)
         == match Meaning(p, ref) case Ok(s) => Cat(s, ExpandWith(rest, ref)) case Err => Err
  {
    match p {
      case Char(c) => assert ([c] + rest)[1..] == rest;
      case Dollar => assert ("$$" + rest)[2..] == rest;
      case Ref(open, body) => RefExpands(open, body, rest, ref);
    }
  }

  lemma {:induction false} RefExpands(open: char, body: string, rest: string, ref: string -> Result<string>)
    requires (open == '(' || open == '{') && Balanced(body, open)
    ensures ExpandWith(Source(Ref(open, body)) + rest, ref)
         == match ref(body) case Ok(s) => Cat(s, ExpandWith(rest, ref)) case Err => Err
  {
    var t := Source(Ref(open, body)) + rest;
    RefParts(open, body, rest);
    assert body[..0] == "";
    ClosesBehind(t, body, 0, 1, open);
  }

  lemma RefParts(open: char, body: string, rest: string)
    ensures var t := Source(Ref(open, body)) + rest;
      |t| >= 3 + |body| && t[0] == '$' && t[1] == open && t[2..2 + |body|] == body && t[2 + |body|] == Closer(open) && t[3 + |body|..] == rest
  {
  }

  lemma {:induction false} LoneRef(open: char, body: string, ref: string -> Result<string>)
    requires Written(Ref(open, body))
    ensures ExpandWith(Source(Ref(open, body)), ref) == ref(body)
  {
    var t := Source(Ref(open, body));
    assert t + "" == t;
    RefExpands(open, body, "", ref);
    if ref(body).Ok? {
      assert ref(body).value + "" == ref(body).value;
    }
  }

  /** Every text written from such pieces expands to their meanings, in order. */
  lemma {:induction false} SourceExpands(ps: seq<Piece>, ref: string -> Result<string>)
    requires AllWritten(ps)
    ensures ExpandWith(SourceOf(ps), ref) == MeaningOf(ps, ref)
    decreases |ps|
  {
    if ps != [] {
      assert AllWritten(ps[1..]);
      PieceExpands(ps[0], SourceOf(ps[1..]), ref);
      SourceExpands(ps[1..], ref);
    }
  }

  /** A reference whose brackets are never closed is an error, whatever stands before it. */
  lemma {:induction false} UnclosedFails(ps: seq<Piece>, open: char, body: string, ref: string -> Result<string>)
    requires AllWritten(ps) && (open == '(' || open == '{')
    requires forall k :: 0 <= k <= |body| ==> Nesting(body[..k], open) >= 0
    ensures ExpandWith(SourceOf(ps) + (['$', open] + body), ref) == Err
    decreases |ps|
  {
    var tail := ['$', open] + body;
    if ps == [] {
      assert "" + tail == tail && tail[2..] == body && body[..0] == "";
      NeverCloses(tail, body, 0, 1, open);
    } else {
      assert AllWritten(ps[1..]);
      assert SourceOf(ps) + tail == Source(ps[0]) + (SourceOf(ps[1..]) + tail);
      PieceExpands(ps[0], SourceOf(ps[1..]) + tail, ref);
      UnclosedFails(ps[1..], open, body, ref);
    }
  }

  lemma {:induction false} NeverCloses(t: string, body: string, k: nat, depth: nat, open: char)
    requires (open == '(' || open == '{') && k <= |body| && |t| == 2 + |body| && t[2..] == body
    requires forall j :: 0 <= j <= |body| ==> Nesting(body[..j], open) >= 0
    requires depth == 1 + Nesting(body[..k], open)
    ensures FindClose(t, 2 + k, depth, open) == -1
    decreases |body| - k
  {
    if k < |body| {
      assert t[2 + k] == t[2..][k] == body[k];
      assert body[..k + 1][..k] == body[..k];
      NeverCloses(t, body, k + 1, 1 + Nesting(body[..k + 1], open), open);
    }
  }
}
