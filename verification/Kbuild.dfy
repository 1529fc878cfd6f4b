/**
 The evaluator of `kbuild-subset.py`: variables, conditions and assignments on top
 of text expansion, run line by line.
 */
module Kbuild {
  import opened Common
  import opened Conditionals
  import opened Expansion

  /** A variable: an eager one holds an expanded value, a lazy one the text to expand on use. */
  datatype Var = Var(value: string, simple: bool)

  type Env = map<string, Var>

  datatype Op = Lazy | Eager | Append | Default  // =  :=  +=  ?=

  /** What an evaluation notes on the side: a name used undefined, an unknown function. */
  datatype Note = Undefined(name: string) | Unknown(name: string)

  predicate IsUnknown(n: Note) { n.Unknown? }

  /** The functions a reference may call, and their notes; they see the variables and the remaining depth. */
  datatype Functions = Functions(
    call: (Env, string, seq<string>, nat) -> Result<string>,
    notes: (Env, string, seq<string>, nat) -> seq<Note>)

  // ----- Function arguments

  predicate StartsRef(s: string) { |s| > 1 && s[0] == '$' && (s[1] == '(' || s[1] == '{') }

  /** `split_func_args` from a state with `depth` open references and a partial argument. */
  function SplitFrom(s: string, depth: nat, current: string): (args: seq<string>)
    ensures |args| >= 1
    decreases |s|
  {
    if s == "" then [current]
    else if StartsRef(s) then SplitFrom(s[2..], depth + 1, current + s[..2])
    else if s[0] == ')' && depth > 0 then SplitFrom(s[1..], depth - 1, current + [s[0]])
    else if s[0] == ',' && depth == 0 then [current] + SplitFrom(s[1..], 0, "")
    else SplitFrom(s[1..], depth, current + [s[0]])
  }

  function JoinArgs(args: seq<string>): string
    requires |args| >= 1
  {
    if |args| == 1 then args[0] else args[0] + "," + JoinArgs(args[1..])
  }

  /** Nothing is lost: the arguments joined by commas give the body back. */
  lemma {:induction false} SplitJoins(s: string, depth: nat, current: string)
    ensures JoinArgs(SplitFrom(s, depth, current)) == current + s
    decreases |s|
  {
    if s == "" {
      assert current + s == current;
    } else if StartsRef(s) {
      SplitJoins(s[2..], depth + 1, current + s[..2]);
      assert current + s[..2] + s[2..] == current + s;
    } else if s[0] == ')' && depth > 0 {
      SplitJoins(s[1..], depth - 1, current + [s[0]]);
      assert current + [s[0]] + s[1..] == current + s;
    } else if s[0] == ',' && depth == 0 {
      SplitJoins(s[1..], 0, "");
      var rest := SplitFrom(s[1..], 0, "");
      assert ([current] + rest)[1..] == rest;
      assert current + "," + ("" + s[1..]) == current + s;
    } else {
      SplitJoins(s[1..], depth, current + [s[0]]);
      assert current + [s[0]] + s[1..] == current + s;
    }
  }

  /** How many references are open behind a text, when `depth` were before. */
  function OpenRefs(s: string, depth: nat): nat {
    if s == "" then depth
    else if StartsRef(s) then OpenRefs(s[2..], depth + 1)
    else if s[0] == ')' && depth > 0 then OpenRefs(s[1..], depth - 1)
    else OpenRefs(s[1..], depth)
  }

  /** Every comma in a text is inside a reference, when `depth` are open before it. */
  predicate CommasInside(s: string, depth: nat) {
    if s == "" then true
    else if StartsRef(s) then CommasInside(s[2..], depth + 1)
    else (s[0] == ',' ==> depth > 0) && CommasInside(s[1..], if s[0] == ')' && depth > 0 then depth - 1 else depth)
  }

  /** Arguments as they are written: commas only inside references, and references closed before the next argument. */
  predicate ArgsWritten(args: seq<string>) {
    && (forall i :: 0 <= i < |args| ==> CommasInside(args[i], 0))
    && (forall i :: 0 <= i < |args| - 1 ==> OpenRefs(args[i], 0) == 0)
  }

  lemma {:induction false} ReadsArg(s: string, rest: string, depth: nat, current: string)
    requires CommasInside(s, depth) && (rest == "" || (rest[0] == ',' && OpenRefs(s, depth) == 0))
    ensures SplitFrom(s + rest, depth, current)
         == if rest == "" then [current + s] else [current + s] + SplitFrom(rest[1..], 0, "")
    decreases |s|
  {
    var t := s + rest;
    if s == "" {
      assert t == rest && current + s == current;
    } else if StartsRef(s) {
      assert t[..2] == s[..2] && t[2..] == s[2..] + rest;
      ReadsArg(s[2..], rest, depth + 1, current + s[..2]);
      assert current + s[..2] + s[2..] == current + s;
    } else {
      assert t[0] == s[0] && t[1..] == s[1..] + rest;
      assert StartsRef(t) ==> |s| == 1 && t[1] == rest[0];
      ReadsArg(s[1..], rest, if s[0] == ')' && depth > 0 then depth - 1 else depth, current + [s[0]]);
      assert current + [s[0]] + s[1..] == current + s;
    }
  }

  /** Arguments so written are read back as they are. */
  lemma {:induction false} SplitReadsBack(args: seq<string>)
    requires args != [] && ArgsWritten(args)
    ensures SplitFrom(JoinArgs(args), 0, "") == args
    decreases |args|
  {
    assert "" + args[0] == args[0];
    if |args| == 1 {
      ReadsArg(args[0], "", 0, "");
      assert args[0] + "" == args[0];
    } else {
      var rest := "," + JoinArgs(args[1..]);
      assert args[0] + "," + JoinArgs(args[1..]) == args[0] + rest && rest[1..] == JoinArgs(args[1..]);
      ReadsArg(args[0], rest, 0, "");
      SplitReadsBack(args[1..]);
    }
  }

  /** And every text is split into arguments so written. */
  lemma {:induction false} SplitIsWritten(s: string, depth: nat, current: string)
    requires CommasInside(current, 0) && OpenRefs(current, 0) == depth && !EndsDollar(current, s)
    ensures ArgsWritten(SplitFrom(s, depth, current))
    decreases |s|
  {
    if s == "" {
    } else if StartsRef(s) {
      Extends(current, s[..2]);
      SplitIsWritten(s[2..], depth + 1, current + s[..2]);
    } else if s[0] == ',' && depth == 0 {
      SplitIsWritten(s[1..], 0, "");
    } else {
      Extends(current, [s[0]]);
      SplitIsWritten(s[1..], if s[0] == ')' && depth > 0 then depth - 1 else depth, current + [s[0]]);
    }
  }

  /** The end of one text and the start of the next would make a reference. */
  predicate EndsDollar(a: string, b: string) { a != "" && a[|a| - 1] == '$' && b != "" && (b[0] == '(' || b[0] == '{') }

  lemma {:induction false} ExtendsFrom(a: string, b: string, depth: nat)
    requires !EndsDollar(a, b)
    ensures OpenRefs(a + b, depth) == OpenRefs(b, OpenRefs(a, depth))
    ensures CommasInside(a + b, depth) <==> CommasInside(a, depth) && CommasInside(b, OpenRefs(a, depth))
    decreases |a|
  {
    var t := a + b;
    if a == "" {
      assert t == b;
    } else if StartsRef(a) {
      assert t[..2] == a[..2] && t[2..] == a[2..] + b;
      ExtendsFrom(a[2..], b, depth + 1);
    } else {
      assert t[0] == a[0] && t[1..] == a[1..] + b;
      assert |a| == 1 && b != "" ==> t[1] == b[0];
      ExtendsFrom(a[1..], b, if a[0] == ')' && depth > 0 then depth - 1 else depth);
    }
  }

  lemma Extends(a: string, b: string)
    requires !EndsDollar(a, b)
    ensures OpenRefs(a + b, 0) == OpenRefs(b, OpenRefs(a, 0))
    ensures CommasInside(a + b, 0) <==> CommasInside(a, 0) && CommasInside(b, OpenRefs(a, 0))
  {
    ExtendsFrom(a, b, 0);
  }

  /** Splits a function body into arguments on commas outside nested references. */
  method SplitFuncArgs(body: string) returns (args: seq<string>)
    ensures args == SplitFrom(body, 0, "") && JoinArgs(args) == body && ArgsWritten(args)
  {
    args := [];
    var depth: nat, current, i := 0, "", 0;
    while i < |body|
      invariant 0 <= i <= |body|
      invariant SplitFrom(body, 0, "") == args + SplitFrom(body[i..], depth, current)
      decreases |body| - i
    {
      ghost var rest := body[i..];
      assert rest[1..] == body[i + 1..];
      if body[i] == '$' && i + 1 < |body| && (body[i + 1] == '(' || body[i + 1] == '{') {
        assert rest[2..] == body[i + 2..] && rest[..2] == body[i..i + 2];
        depth, current, i := depth + 1, current + body[i..i + 2], i + 2;
      } else if body[i] == ')' && depth > 0 {
        depth, current, i := depth - 1, current + [body[i]], i + 1;
      } else if body[i] == ',' && depth == 0 {
        assert args + ([current] + SplitFrom(body[i + 1..], 0, "")) == (args + [current]) + SplitFrom(body[i + 1..], 0, "");
        args, current, i := args + [current], "", i + 1;
      } else {
        current, i := current + [body[i]], i + 1;
      }
    }
    args := args + [current];
    SplitJoins(body, 0, "");
    SplitIsWritten(body, 0, "");
  }

  // ----- References and variables

  function IndexOf(s: string, c: char): (k: nat)
    ensures k <= |s| && (k < |s| ==> s[k] == c) && c !in s[..k]
  {
    if s == "" || s[0] == c then 0 else
      var k := 1 + IndexOf(s[1..], c);
      assert s[..k] == [s[0]] + s[1..][..k - 1];
      k
  }

  /** `eval_ref`; `limit` bounds how deep lazy variables may refer to one another. */
  function EvalRef(fns: Functions, env: Env, body: string, limit: nat): Result<string>
    decreases limit, 2
  {
    var b := Strip(body);
    if b == "" then Ok("")
    else
      var k := IndexOf(b, ' ');
      if k == |b| then VarValue(fns, env, b, limit)
      else fns.call(env, b[..k], SplitFrom(b[k + 1..], 0, ""), limit)
  }

  function VarValue(fns: Functions, env: Env, name: string, limit: nat): Result<string>
    decreases limit, 1
  {
    if name !in env then Ok("")
    else if env[name].simple then Ok(env[name].value)
    else if limit == 0 then Err
    else Expand(fns, env, env[name].value, limit - 1)
  }

  function Refs(fns: Functions, env: Env, limit: nat): string -> Result<string>
    decreases limit, 3
  {
    (body: string) => EvalRef(fns, env, body, limit)
  }

  function Expand(fns: Functions, env: Env, text: string, limit: nat): Result<string>
    decreases limit, 4
  {
    ExpandWith(text, Refs(fns, env, limit))
  }

  // ----- Notes

  /** The notes of a text, given those of its references. */
  function NotesWith(t: string, notes: string -> seq<Note>): seq<Note>
    decreases |t|
  {
    if t == "" then []
    else if IsEscape(t) then NotesWith(t[2..], notes)
    else if OpensRef(t) then
      var j := FindClose(t, 2, 1, t[1]);
      if j == -1 then [] else notes(t[2..j - 1]) + NotesWith(t[j..], notes)
    else NotesWith(t[1..], notes)
  }

  function RefNotes(fns: Functions, env: Env, body: string, limit: nat): seq<Note>
    decreases limit, 2
  {
    var b := Strip(body);
    if b == "" then []
    else
      var k := IndexOf(b, ' ');
      if k == |b| then VarNotes(fns, env, b, limit)
      else fns.notes(env, b[..k], SplitFrom(b[k + 1..], 0, ""), limit)
  }

  function VarNotes(fns: Functions, env: Env, name: string, limit: nat): seq<Note>
    decreases limit, 1
  {
    if name !in env then [Undefined(name)]
    else if env[name].simple || limit == 0 then []
    else Notes(fns, env, env[name].value, limit - 1)
  }

  /** What expanding a text notes. */
  function Notes(fns: Functions, env: Env, text: string, limit: nat): seq<Note>
    decreases limit, 4
  {
    NotesWith(text, (body: string) => RefNotes(fns, env, body, limit))
  }

  /** The scanning loop of `expand`. */
  method ExpandText(fns: Functions, env: Env, text: string, limit: nat) returns (r: Result<string>)
    ensures r == Expand(fns, env, text, limit)
  {
    var out, i := "", 0;
    ghost var ref := Refs(fns, env, limit);
    assert text[0..] == text;
    CatEmpty(ExpandWith(text, ref));
    while i < |text|
      invariant 0 <= i <= |text|
      invariant ExpandWith(text, ref) == Cat(out, ExpandWith(text[i..], ref))
      decreases |text| - i
    {
      var piece := NextPiece(fns, env, text[i..], limit);
      if piece == Err {
        return Err;
      }
      var (n, s) := piece.value;
      assert text[i..][n..] == text[i + n..];
      CatCat(out, s, ExpandWith(text[i + n..], ref));
      out, i := out + s, i + n;
    }
    assert text[i..] == "" && out + "" == out;
    return Ok(out);
  }

  /** The length and the expansion of the first piece of a text. */
  method NextPiece(fns: Functions, env: Env, t: string, limit: nat) returns (r: Result<(nat, string)>)
    requires t != ""
    ensures var ref := Refs(fns, env, limit);
      match r
      case Err => ExpandWith(t, ref) == Err
      case Ok(p) => 0 < p.0 <= |t| && ExpandWith(t, ref) == Cat(p.1, ExpandWith(t[p.0..], ref))
  {
    if |t| > 1 && t[0] == '$' && t[1] == '$' {
      return Ok((2, "$"));
    }
    if |t| > 1 && t[0] == '$' && (t[1] == '(' || t[1] == '{') {
      var close := CloseOf(t);
      if close == -1 {
        return Err;
      }
      var v := EvalRef(fns, env, t[2..close - 1], limit);
      if v == Err {
        return Err;
      }
      return Ok((close, v.value));
    }
    return Ok((1, [t[0]]));
  }

  lemma CatCat(a: string, b: string, r: Result<string>)
    ensures Cat(a, Cat(b, r)) == Cat(a + b, r)
  {
    if r.Ok? { assert a + (b + r.value) == a + b + r.value; }
  }

  lemma CatEmpty(r: Result<string>)
    ensures Cat("", r) == r
  {
    if r.Ok? { assert "" + r.value == r.value; }
  }

  method CloseOf(t: string) returns (j: int)
    requires OpensRef(t)
    ensures j == FindClose(t, 2, 1, t[1])
  {
    j := 2;
    var depth := 1;
    while j < |t| && depth > 0
      invariant 2 <= j <= |t| && depth >= 0
      invariant FindClose(t, 2, 1, t[1]) == if depth == 0 then j else FindClose(t, j, depth, t[1])
      decreases |t| - j
    {
      if t[j] == t[1] {
        depth := depth + 1;
      } else if t[j] == Closer(t[1]) {
        depth := depth - 1;
      }
      j := j + 1;
    }
    if depth > 0 {
      j := -1;
    }
  }

  // ----- Assignments

  datatype Assign = Assign(name: string, op: Op, rhs: string)

  function SetVar(fns: Functions, env: Env, a: Assign, limit: nat): Result<Env> {
    if a.name == "" then Err
    else match a.op
      case Default => Ok(if a.name in env then env else env[a.name := Var(a.rhs, false)])
      case Lazy => Ok(env[a.name := Var(a.rhs, false)])
      case Eager =>
        (match Expand(fns, env, a.rhs, limit)
         case Ok(x) => Ok(env[a.name := Var(x, true)])
         case Err => Err)
      case Append =>
        if a.name !in env then Ok(env[a.name := Var(a.rhs, false)])
        else
          var was := env[a.name];
          if !was.simple then Ok(env[a.name := Var(Strip(was.value + " " + a.rhs), false)])
          else
            match Expand(fns, env, a.rhs, limit)
            case Ok(x) => Ok(env[a.name := Var(Strip(was.value + " " + x), true)])
            case Err => Err
  }

  function RunAssigns(fns: Functions, env: Env, assigns: seq<Assign>, limit: nat): Result<Env>
    decreases |assigns|
  {
    if assigns == [] then Ok(env)
    else match SetVar(fns, env, assigns[0], limit)
      case Ok(env') => RunAssigns(fns, env', assigns[1..], limit)
      case Err => Err
  }

  /** A variable is only appended to. */
  predicate OnlyGrows(assigns: seq<Assign>, name: string) {
    forall a :: a in assigns && a.name == name ==> a.op == Append || a.op == Default
  }

  /** Words of the appended pieces, each expanded in the variables at the time of its assignment. */
  function EagerWords(fns: Functions, env: Env, assigns: seq<Assign>, name: string, limit: nat): seq<string>
    decreases |assigns|
  {
    if assigns == [] then []
    else
      var a := assigns[0];
      match SetVar(fns, env, a, limit)
      case Err => []
      case Ok(env') =>
        var rest := EagerWords(fns, env', assigns[1..], name, limit);
        if a.name == name && a.op == Append && Expand(fns, env, a.rhs, limit).Ok?
        then Words(Expand(fns, env, a.rhs, limit).value) + rest
        else rest
  }

  /**
   An eager variable keeps each piece as it expanded when it was appended,
   whatever else is assigned in between or afterwards.
   */
  lemma {:induction false} EagerGrowth(fns: Functions, env: Env, assigns: seq<Assign>, name: string, limit: nat)
    requires name in env && env[name].simple && OnlyGrows(assigns, name)
    requires RunAssigns(fns, env, assigns, limit).Ok?
    ensures var env' := RunAssigns(fns, env, assigns, limit).value;
      && name in env' && env'[name].simple
      && Words(env'[name].value) == Words(env[name].value) + EagerWords(fns, env, assigns, name, limit)
      && VarValue(fns, env', name, limit) == Ok(env'[name].value)
    decreases |assigns|
  {
    if assigns != [] {
      var a := assigns[0];
      var env1 := SetVar(fns, env, a, limit).value;
      assert a in assigns;
      assert forall b :: b in assigns[1..] ==> b in assigns;
      EagerGrowth(fns, env1, assigns[1..], name, limit);
      if a.name == name && a.op == Append {
        WordsGrow(env[name].value, Expand(fns, env, a.rhs, limit).value);
      }
    }
  }

  /** The texts appended to a variable. */
  function Pieces(assigns: seq<Assign>, name: string): seq<string> {
    if assigns == [] then []
    else
      var rest := Pieces(assigns[1..], name);
      if assigns[0].name == name && assigns[0].op == Append then [assigns[0].rhs] + rest else rest
  }

  /** All pieces expand without error. */
  ghost predicate AllExpand(pieces: seq<string>, ref: string -> Result<string>) {
    forall p :: p in pieces ==> ExpandWith(p, ref).Ok?
  }

  ghost function LazyWords(pieces: seq<string>, ref: string -> Result<string>): seq<string>
    requires AllExpand(pieces, ref)
  {
    if pieces == [] then [] else Words(ExpandWith(pieces[0], ref).value) + LazyWords(pieces[1..], ref)
  }

  /**
   A lazy variable has the words of its text and of all its pieces, expanded in
   the variables of the place where it is used (`ref`).
   */
  lemma {:induction false} LazyGrowth(fns: Functions, env: Env, assigns: seq<Assign>, name: string, limit: nat,
                                      ref: string -> Result<string>)
    requires name in env && !env[name].simple && OnlyGrows(assigns, name)
    requires RunAssigns(fns, env, assigns, limit).Ok?
    requires ExpandWith(env[name].value, ref).Ok? && AllExpand(Pieces(assigns, name), ref)
    ensures LazyWith(RunAssigns(fns, env, assigns, limit).value, name, ref,
                     Words(ExpandWith(env[name].value, ref).value) + LazyWords(Pieces(assigns, name), ref))
    decreases |assigns|
  {
    var start := Words(ExpandWith(env[name].value, ref).value);
    if assigns == [] {
      assert start + [] == start;
    } else {
      var a, tail := assigns[0], assigns[1..];
      var env1 := SetVar(fns, env, a, limit).value;
      assert a in assigns;
      assert OnlyGrows(tail, name);
      var rest := Pieces(tail, name);
      if a.name == name && a.op == Append {
        LazyWordsCons(a.rhs, rest, ref);
        var piece := Words(ExpandWith(a.rhs, ref).value);
        LazyStep(fns, env, a, name, limit, ref);
        LazyGrowth(fns, env1, tail, name, limit, ref);
        Assoc(start, piece, LazyWords(rest, ref));
      } else {
        assert env1[name] == env[name];
        LazyGrowth(fns, env1, tail, name, limit, ref);
      }
    }
  }

  /** So is its value where it is used: in any variables that still hold its text. */
  lemma {:induction false} LazyValue(fns: Functions, env: Env, assigns: seq<Assign>, name: string, limit: nat,
                                     use: Env, depth: nat)
    requires name in env && !env[name].simple && OnlyGrows(assigns, name)
    requires RunAssigns(fns, env, assigns, limit).Ok?
    requires var end := RunAssigns(fns, env, assigns, limit).value;
      name in end && name in use && use[name] == end[name] && depth > 0
    requires var ref := Refs(fns, use, depth - 1);
      ExpandWith(env[name].value, ref).Ok? && AllExpand(Pieces(assigns, name), ref)
    ensures var ref := Refs(fns, use, depth - 1); var value := VarValue(fns, use, name, depth);
      value.Ok? && Words(value.value)
        == Words(ExpandWith(env[name].value, ref).value) + LazyWords(Pieces(assigns, name), ref)
  {
    LazyGrowth(fns, env, assigns, name, limit, Refs(fns, use, depth - 1));
  }

  lemma Assoc<T>(a: seq<T>, b: seq<T>, c: seq<T>)
    ensures a + b + c == a + (b + c)
  {
  }

  /** A lazy variable whose text expands to the given words. */
  ghost predicate LazyWith(env: Env, name: string, ref: string -> Result<string>, words: seq<string>) {
    && name in env && !env[name].simple && ExpandWith(env[name].value, ref).Ok?
    && Words(ExpandWith(env[name].value, ref).value) == words
  }

  lemma {:induction false} LazyWordsCons(p: string, rest: seq<string>, ref: string -> Result<string>)
    requires AllExpand([p] + rest, ref)
    ensures ExpandWith(p, ref).Ok? && AllExpand(rest, ref)
    ensures LazyWords([p] + rest, ref) == Words(ExpandWith(p, ref).value) + LazyWords(rest, ref)
  {
    assert p in [p] + rest;
    assert forall q :: q in rest ==> q in [p] + rest;
    assert ([p] + rest)[1..] == rest;
  }

  lemma {:induction false} LazyStep(fns: Functions, env: Env, a: Assign, name: string, limit: nat,
                                    ref: string -> Result<string>)
    requires name in env && !env[name].simple && a.name == name && a.op == Append
    requires SetVar(fns, env, a, limit).Ok? && ExpandWith(env[name].value, ref).Ok? && ExpandWith(a.rhs, ref).Ok?
    ensures LazyWith(SetVar(fns, env, a, limit).value, name, ref,
                     Words(ExpandWith(env[name].value, ref).value) + Words(ExpandWith(a.rhs, ref).value))
  {
    ExpandGrow(env[name].value, a.rhs, ref);
  }

  // ----- Variables from their first assignment on

  lemma RunFirstAssign(fns: Functions, env: Env, a: Assign, later: seq<Assign>, limit: nat)
    ensures RunAssigns(fns, env, [a] + later, limit)
         == match SetVar(fns, env, a, limit) case Ok(env') => RunAssigns(fns, env', later, limit) case Err => Err
  {
    assert ([a] + later)[1..] == later;
  }

  predicate NotAssigned(assigns: seq<Assign>, name: string) { forall a :: a in assigns ==> a.name != name }

  /** Assignments leave all other variables alone. */
  lemma {:induction false} OthersKept(fns: Functions, env: Env, assigns: seq<Assign>, name: string, limit: nat)
    requires NotAssigned(assigns, name) && RunAssigns(fns, env, assigns, limit).Ok?
    ensures var end := RunAssigns(fns, env, assigns, limit).value;
      (name in end <==> name in env) && (name in env ==> end[name] == env[name])
    decreases |assigns|
  {
    if assigns != [] {
      assert assigns[0] in assigns && forall a :: a in assigns[1..] ==> a in assigns;
      OthersKept(fns, SetVar(fns, env, assigns[0], limit).value, assigns[1..], name, limit);
    }
  }

  /** `:=` fixes the value: the right-hand side as it expanded then, however its variables change later. */
  lemma {:induction false} EagerIsFixed(fns: Functions, env: Env, name: string, rhs: string, later: seq<Assign>, limit: nat,
                                        depth: nat)
    requires NotAssigned(later, name) && RunAssigns(fns, env, [Assign(name, Eager, rhs)] + later, limit).Ok?
    ensures var end := RunAssigns(fns, env, [Assign(name, Eager, rhs)] + later, limit).value;
      VarValue(fns, end, name, depth) == Expand(fns, env, rhs, limit)
  {
    var a := Assign(name, Eager, rhs);
    RunFirstAssign(fns, env, a, later, limit);
    OthersKept(fns, SetVar(fns, env, a, limit).value, later, name, limit);
  }

  /** `:=` stops the evaluation exactly where its right-hand side does not expand or it names nothing. */
  lemma EagerFails(fns: Functions, env: Env, name: string, rhs: string, limit: nat)
    ensures SetVar(fns, env, Assign(name, Eager, rhs), limit) == Err <==> name == "" || Expand(fns, env, rhs, limit) == Err
  {
  }

  /** Grown by `+=`, it has the words of each piece as that expanded when it was added. */
  lemma {:induction false} EagerVariable(fns: Functions, env: Env, name: string, rhs: string, later: seq<Assign>, limit: nat,
                                         depth: nat)
    requires OnlyGrows(later, name) && RunAssigns(fns, env, [Assign(name, Eager, rhs)] + later, limit).Ok?
    ensures var a := Assign(name, Eager, rhs); var end := RunAssigns(fns, env, [a] + later, limit).value;
      && Expand(fns, env, rhs, limit).Ok? && SetVar(fns, env, a, limit).Ok? && VarValue(fns, end, name, depth).Ok?
      && Words(VarValue(fns, end, name, depth).value)
         == Words(Expand(fns, env, rhs, limit).value)
            + EagerWords(fns, SetVar(fns, env, a, limit).value, later, name, limit)
  {
    var a := Assign(name, Eager, rhs);
    RunFirstAssign(fns, env, a, later, limit);
    EagerGrowth(fns, SetVar(fns, env, a, limit).value, later, name, limit);
  }

  /** The assignment makes the variable a lazy one: `=`, or `?=` and `+=` where it is not defined. */
  predicate StartsLazy(env: Env, a: Assign) { a.op == Lazy || (a.name !in env && a.op != Eager) }

  /** A lazy variable is expanded where it is used, in the variables of that place. */
  lemma {:induction false} LazyVariable(fns: Functions, env: Env, a: Assign, later: seq<Assign>, limit: nat, use: Env,
                                        depth: nat)
    requires StartsLazy(env, a) && OnlyGrows(later, a.name) && RunAssigns(fns, env, [a] + later, limit).Ok?
    requires var end := RunAssigns(fns, env, [a] + later, limit).value;
      a.name in end && a.name in use && use[a.name] == end[a.name] && depth > 0
    requires AllExpand([a.rhs] + Pieces(later, a.name), Refs(fns, use, depth - 1))
    ensures var ref := Refs(fns, use, depth - 1); var value := VarValue(fns, use, a.name, depth);
      value.Ok? && Words(value.value) == LazyWords([a.rhs] + Pieces(later, a.name), ref)
    ensures NotAssigned(later, a.name) ==> VarValue(fns, use, a.name, depth) == Expand(fns, use, a.rhs, depth - 1)
  {
    var env1 := SetVar(fns, env, a, limit).value;
    RunFirstAssign(fns, env, a, later, limit);
    LazyWordsCons(a.rhs, Pieces(later, a.name), Refs(fns, use, depth - 1));
    LazyValue(fns, env1, later, a.name, limit, use, depth);
    if NotAssigned(later, a.name) {
      OthersKept(fns, env1, later, a.name, limit);
    }
  }

  /** `?=` does nothing to a variable that is defined. */
  lemma DefaultKeeps(fns: Functions, env: Env, a: Assign, limit: nat)
    requires a.op == Default && a.name in env && a.name != ""
    ensures SetVar(fns, env, a, limit) == Ok(env)
  {
  }

  lemma {:induction false} ReferenceEvaluates(fns: Functions, env: Env, open: char, body: string, limit: nat)
    requires Written(Ref(open, body))
    ensures Expand(fns, env, Source(Ref(open, body)), limit) == EvalRef(fns, env, body, limit)
  {
    var ref := Refs(fns, env, limit);
    assert ref(body) == EvalRef(fns, env, body, limit);
    LoneRef(open, body, ref);
  }

  /** A reference to a name, with blanks around it, is the value of that variable. */
  lemma {:induction false} ReferenceIsValue(fns: Functions, env: Env, open: char, body: string, name: string, limit: nat)
    requires Surrounds(body, name) && name != "" && ' ' !in name && Written(Ref(open, body))
    ensures Expand(fns, env, Source(Ref(open, body)), limit) == VarValue(fns, env, name, limit)
  {
    StripIsCore(body, name);
    ReferenceEvaluates(fns, env, open, body, limit);
    assert IndexOf(name, ' ') == |name|;
  }

  /** A reference with a blank in it calls a function with the arguments behind the first blank. */
  lemma {:induction false} ReferenceCalls(fns: Functions, env: Env, open: char, body: string, name: string, args: seq<string>,
                                          limit: nat)
    requires args != [] && ArgsWritten(args) && Surrounds(body, name + " " + JoinArgs(args)) && ' ' !in name
    requires Written(Ref(open, body))
    ensures Expand(fns, env, Source(Ref(open, body)), limit) == fns.call(env, name, args, limit)
  {
    var b := name + " " + JoinArgs(args);
    StripIsCore(body, b);
    FirstBlank(name, JoinArgs(args));
    SplitReadsBack(args);
    ReferenceEvaluates(fns, env, open, body, limit);
    assert b[..|name|] == name && b[|name| + 1..] == JoinArgs(args);
  }

  lemma FirstBlank(name: string, rest: string)
    requires ' ' !in name
    ensures IndexOf(name + " " + rest, ' ') == |name|
  {
    var b := name + " " + rest;
    var k := IndexOf(b, ' ');
    assert b[|name|] == ' ' && forall i :: 0 <= i < |name| ==> b[i] == name[i] && name[i] in name;
    assert forall i :: 0 <= i < k ==> b[..k][i] == b[i] && b[i] in b[..k];
  }

  // ----- What a written text notes

  function NotesOf(ps: seq<Piece>, notes: string -> seq<Note>): seq<Note> {
    if ps == [] then [] else (if ps[0].Ref? then notes(ps[0].body) else []) + NotesOf(ps[1..], notes)
  }

  lemma {:induction false} PieceNotes(p: Piece, rest: string, notes: string -> seq<Note>)
    requires Written(p)
    ensures NotesWith(Source(p) + rest, notes) == (if p.Ref? then notes(p.body) else []) + NotesWith(rest, notes)
  {
    match p {
      case Char(c) => assert ([c] + rest)[1..] == rest;
      case Dollar => assert ("$$" + rest)[2..] == rest;
      case Ref(open, body) =>
        RefParts(open, body, rest);
        assert body[..0] == "";
        ClosesBehind(Source(p) + rest, body, 0, 1, open);
    }
  }

  /** A written text notes what its references note, in order, and nothing else. */
  lemma {:induction false} SourceNotes(ps: seq<Piece>, notes: string -> seq<Note>)
    requires AllWritten(ps)
    ensures NotesWith(SourceOf(ps), notes) == NotesOf(ps, notes)
    decreases |ps|
  {
    if ps != [] {
      assert AllWritten(ps[1..]);
      PieceNotes(ps[0], SourceOf(ps[1..]), notes);
      SourceNotes(ps[1..], notes);
    }
  }

  /** A reference to a name notes it exactly where it is not defined; a lazy variable adds what its text notes. */
  lemma {:induction false} ReferenceNotes(fns: Functions, env: Env, body: string, name: string, limit: nat)
    requires Surrounds(body, name) && name != "" && ' ' !in name
    ensures RefNotes(fns, env, body, limit)
      == if name !in env then [Undefined(name)]
         else if env[name].simple || limit == 0 then []
         else Notes(fns, env, env[name].value, limit - 1)
  {
    StripIsCore(body, name);
    assert IndexOf(name, ' ') == |name|;
  }

  // ----- Lines

  datatype Condition = IfDef(arg: string, negated: bool) | IfEq(a: string, b: string, negated: bool) | Malformed

  /** An assignment line, whose name is expanded too, a line that is one reference, or a line that is refused. */
  datatype Statement = Assignment(name: string, op: Op, rhs: string) | Reference(text: string) | Unsupported

  function TestCondition(fns: Functions, c: Condition, env: Env, limit: nat): Test<Note> {
    match c
    case Malformed => Failed
    case IfDef(arg, negated) =>
      (match Expand(fns, env, arg, limit)
       case Err => Failed
       case Ok(x) =>
         var name, notes := Strip(x), Notes(fns, env, arg, limit);
         if name !in env then Value(negated, notes)
         else match VarValue(fns, env, name, limit)
           case Err => Failed
           case Ok(v) => Value((Strip(v) != "") != negated, notes + VarNotes(fns, env, name, limit)))
    case IfEq(a, b, negated) =>
      match (Expand(fns, env, a, limit), Expand(fns, env, b, limit))
      case (Ok(x), Ok(y)) =>
        Value((Strip(x) == Strip(y)) != negated, Notes(fns, env, a, limit) + Notes(fns, env, b, limit))
      case _ => Failed
  }

  /** `ifeq` holds when both sides expand to the same text apart from white space around it, `ifneq` when not. */
  lemma {:induction false} ComparesTexts(fns: Functions, a: string, b: string, negated: bool, env: Env, limit: nat)
    ensures var t := TestCondition(fns, IfEq(a, b, negated), env, limit);
      var x, y := Expand(fns, env, a, limit), Expand(fns, env, b, limit);
      && (t.Value? <==> x.Ok? && y.Ok?)
      && (t.Value? ==>
           (t.truth != negated <==> exists core :: Surrounds(x.value, core) && Surrounds(y.value, core)))
  {
    var x, y := Expand(fns, env, a, limit), Expand(fns, env, b, limit);
    if x.Ok? && y.Ok? {
      StripIsCore(x.value, Strip(x.value));
      StripIsCore(y.value, Strip(y.value));
      forall core ensures Surrounds(x.value, core) <==> core == Strip(x.value) { StripIsCore(x.value, core); }
      forall core ensures Surrounds(y.value, core) <==> core == Strip(y.value) { StripIsCore(y.value, core); }
    }
  }

  /** `ifdef` holds when the variable is defined and its value is not all white space, `ifndef` when not. */
  lemma {:induction false} TestsVariable(fns: Functions, arg: string, name: string, negated: bool, env: Env, limit: nat)
    requires Expand(fns, env, arg, limit).Ok? && Surrounds(Expand(fns, env, arg, limit).value, name)
    ensures var t := TestCondition(fns, IfDef(arg, negated), env, limit); var v := VarValue(fns, env, name, limit);
      && (t.Value? <==> v.Ok?)
      && (t.Value? ==> (t.truth != negated <==> name in env && !AllSpace(v.value)))
  {
    StripIsCore(Expand(fns, env, arg, limit).value, name);
    var v := VarValue(fns, env, name, limit);
    if v.Ok? {
      BlankIsEmpty(v.value);
    }
  }

  lemma {:induction false} BlankIsEmpty(s: string)
    ensures Strip(s) == "" <==> AllSpace(s)
  {
    if AllSpace(s) { StripSpace(s); }
    if Strip(s) == "" { NothingLeft(s); }
  }

  lemma NothingLeft(s: string)
    requires Strip(s) == ""
    ensures AllSpace(s)
  {
    StripIsCore(s, "");
    var l, r :| AllSpace(l) && AllSpace(r) && s == l + "" + r;
    assert s == l + r;
  }

  /** Only an eager assignment, and appending to an eager variable, expand the right-hand side. */
  function AssignNotes(fns: Functions, env: Env, a: Assign, limit: nat): seq<Note> {
    if a.op == Eager || (a.op == Append && a.name in env && env[a.name].simple) then Notes(fns, env, a.rhs, limit) else []
  }

  function Perform(fns: Functions, s: Statement, env: Env, limit: nat): Result<Effect<Env, Note>> {
    match s
    case Unsupported => Err
    case Reference(text) =>
      (match Expand(fns, env, text, limit)
       case Err => Err
       case Ok(_) => Ok(Effect(env, Notes(fns, env, text, limit))))
    case Assignment(name, op, rhs) =>
      match Expand(fns, env, name, limit)
      case Err => Err
      case Ok(x) =>
        var a := Assign(Strip(x), op, rhs);
        match SetVar(fns, env, a, limit)
        case Ok(env') => Ok(Effect(env', Notes(fns, env, name, limit) + AssignNotes(fns, env, a, limit)))
        case Err => Err
  }

  /** The language whose files the evaluator reads. */
  function Makefile(fns: Functions, limit: nat): Language<Env, Condition, Statement, Note> {
    Language((c: Condition, env: Env) => TestCondition(fns, c, env, limit),
             (s: Statement, env: Env) => Perform(fns, s, env, limit))
  }

  /**
   A condition that cannot be parsed stops the evaluation even in an arm that is not
   taken, and one that uses an undefined name leaves a note there.
   */
  lemma {:induction false} UntakenArmMatters(fns: Functions, limit: nat)
    ensures var bad := Cons(Cond(IfDef("X", false), Cons(Cond(Malformed, Nil, NoElse), Nil), NoElse), Nil);
      && Exec(Makefile(fns, limit), bad, map[]) == Ok(Effect(map[], []))
      && RunLines(Makefile(fns, limit), Lines(bad), Machine(map[], [], [])) == Err
    ensures var noted := Cons(Cond(IfDef("X", false), Cons(Cond(IfDef("$(Y)", false), Nil, NoElse), Nil), NoElse), Nil);
      && Exec(Makefile(fns, limit), noted, map[]) == Ok(Effect(map[], []))
      && RunLines(Makefile(fns, limit), Lines(noted), Machine(map[], [], [])) == Ok(Machine(map[], [Undefined("Y")], []))
  {
    var lang := Makefile(fns, limit);
    PlainCondition(fns, limit);
    UndefinedCondition(fns, limit);
    UntakenConditionStops(lang, IfDef("X", false), Malformed, map[]);
    UntakenConditionReports(lang, IfDef("X", false), IfDef("$(Y)", false), map[]);
    assert [] + [Undefined("Y")] == [Undefined("Y")];
  }

  lemma {:induction false} PlainCondition(fns: Functions, limit: nat)
    ensures TestCondition(fns, IfDef("X", false), map[], limit) == Value(false, [])
  {
    assert "X"[1..] == "";
    var ref := Refs(fns, map[], limit);
    assert ExpandWith("", ref) == Ok("") && ['X'] + "" == "X";
    assert ExpandWith("X", ref) == Cat(['X'], ExpandWith("X"[1..], ref));
    assert Expand(fns, map[], "X", limit) == Ok("X");
    assert Notes(fns, map[], "X", limit) == [];
  }

  lemma {:induction false} UndefinedCondition(fns: Functions, limit: nat)
    ensures TestCondition(fns, IfDef("$(Y)", false), map[], limit) == Value(false, [Undefined("Y")])
  {
    var t := "$(Y)";
    assert FindClose(t, 3, 1, '(') == 4 && FindClose(t, 2, 1, '(') == 4;
    assert t[2..3] == "Y" && t[4..] == "";
    assert Strip("Y") == "Y" && "Y"[1..] == "" && IndexOf("Y", ' ') == 1;
    assert EvalRef(fns, map[], "Y", limit) == Ok("");
    assert RefNotes(fns, map[], "Y", limit) == [Undefined("Y")];
    var ref := Refs(fns, map[], limit);
    assert ref("Y") == Ok("") && ExpandWith("", ref) == Ok("") && "" + "" == "";
    assert ExpandWith(t, ref) == Cat("", ExpandWith(t[4..], ref));
    assert Expand(fns, map[], t, limit) == Ok("");
    assert [Undefined("Y")] + [] == [Undefined("Y")];
    assert Notes(fns, map[], t, limit) == [Undefined("Y")];
    assert Strip("") == "";
  }

  class Evaluator {
    const fns: Functions
    const limit: nat
    var vars: Env
    var notes: seq<Note>  // the additions to the set `undefined_used` and the list `unknown`, as they come
    var stack: seq<Frame>

    constructor (fns: Functions, limit: nat)
      ensures this.fns == fns && this.limit == limit && vars == map[] && notes == [] && stack == []
    {
      this.fns, this.limit, vars, notes, stack := fns, limit, map[], [], [];
    }

    ghost function Now(): Machine<Env, Note>
      reads this
    {
      Machine(vars, notes, stack)
    }

    method Test(c: Condition) returns (truth: bool, ok: bool)
      modifies this`notes
      ensures ok == TestCondition(fns, c, vars, limit).Value?
      ensures ok ==> var t := TestCondition(fns, c, vars, limit); truth == t.truth && notes == old(notes) + t.reports
    {
      var t := TestCondition(fns, c, vars, limit);
      if t.Failed? {
        return false, false;
      }
      notes := notes + t.reports;
      return t.truth, true;
    }

    method PushCond(c: Condition) returns (ok: bool)
      modifies this`stack, this`notes
      ensures ok == Conditionals.PushCond(Makefile(fns, limit), c, old(Now())).Ok?
      ensures ok ==> Conditionals.PushCond(Makefile(fns, limit), c, old(Now())) == Ok(Now())
    {
      var parent := Active(stack);
      var value;
      value, ok := Test(c);
      if ok {
        value := value && parent;
        stack := stack + [Frame(value, value, false)];
      }
    }

    method HandleElse() returns (ok: bool)
      modifies this`stack
      ensures ok == Conditionals.HandleElse(old(Now())).Ok?
      ensures ok ==> Conditionals.HandleElse(old(Now())) == Ok(Now())
    {
      if stack == [] || stack[|stack| - 1].elseSeen {
        return false;
      }
      var base, f := stack[..|stack| - 1], stack[|stack| - 1];
      stack := base + [Frame(!f.taken && Active(base), f.taken, true)];
      ok := true;
    }

    method HandleElseIf(c: Condition) returns (ok: bool)
      modifies this`stack, this`notes
      ensures ok == Conditionals.HandleElseIf(Makefile(fns, limit), c, old(Now())).Ok?
      ensures ok ==> Conditionals.HandleElseIf(Makefile(fns, limit), c, old(Now())) == Ok(Now())
    {
      if stack == [] || stack[|stack| - 1].elseSeen {
        return false;
      }
      var base, f := stack[..|stack| - 1], stack[|stack| - 1];
      var value := false;
      if Active(base) && !f.taken {
        value, ok := Test(c);
        if !ok {
          return;
        }
      }
      stack := base + [Frame(value, f.taken || value, false)];
      ok := true;
    }

    /** An active line that is no directive. */
    method Run(s: Statement) returns (ok: bool)
      modifies this`vars, this`notes
      ensures ok == Perform(fns, s, old(vars), limit).Ok?
      ensures ok ==> StepLine(Makefile(fns, limit), Do(s), old(Now())) == Ok(Now()) || !Active(stack)
    {
      var r := Perform(fns, s, vars, limit);
      ok := r.Ok?;
      if ok {
        vars, notes := r.value.vars, notes + r.value.reports;
      }
    }

    /** The line loop of `parse_file`. */
    method ParseLines(lines: seq<Line<Condition, Statement>>) returns (ok: bool)
      modifies this
      ensures ok == RunLines(Makefile(fns, limit), lines, old(Now())).Ok?
      ensures ok ==> RunLines(Makefile(fns, limit), lines, old(Now())) == Ok(Now())
    {
      var i := 0;
      ghost var lang := Makefile(fns, limit);
      assert lines[0..] == lines;
      while i < |lines|
        invariant 0 <= i <= |lines|
        invariant RunLines(lang, lines, old(Now())) == RunLines(lang, lines[i..], Now())
      {
        ghost var before := Now();
        assert lines[i..][1..] == lines[i + 1..];
        var good := true;
        match lines[i] {
          case If(c) => good := PushCond(c);
          case ElseIf(c) => good := HandleElseIf(c);
          case Else => good := HandleElse();
          case EndIf =>
            good := stack != [];
            if good { stack := stack[..|stack| - 1]; }
          case Do(s) =>
            if Active(stack) { good := Run(s); }
        }
        assert good == StepLine(lang, lines[i], before).Ok?;
        if !good {
          return false;
        }
        i := i + 1;
      }
      return true;
    }

    /**
     A well-nested file ends with the variables of its structured meaning.  It is read
     to the end exactly when its meaning is defined and no condition in an untaken arm
     fails.  The names used undefined are then those of the meaning and of conditions in
     untaken arms, and the list of unknown functions, like the whole sequence of notes,
     is that of the meaning exactly when no such condition adds to it.
     */
    method ParseWellNested(b: Block<Condition, Statement>) returns (ok: bool)
      requires stack == []
      modifies this
      ensures ok <==> Exec(Makefile(fns, limit), b, old(vars)).Ok? && Sound(Makefile(fns, limit), b, old(vars))
      ensures ok ==>
        var e := Exec(Makefile(fns, limit), b, old(vars)).value;
        stack == [] && vars == e.vars && (notes == old(notes) + e.reports <==> Quiet(Makefile(fns, limit), b, old(vars)))
      ensures ok ==>
        var e := Exec(Makefile(fns, limit), b, old(vars)).value;
        forall name :: Undefined(name) in notes <==>
          Undefined(name) in old(notes) || Undefined(name) in e.reports
          || !QuietAbout(Makefile(fns, limit), Is(Undefined(name)), b, old(vars))
      ensures ok ==>
        var e := Exec(Makefile(fns, limit), b, old(vars)).value;
        Filter(IsUnknown, notes) == Filter(IsUnknown, old(notes)) + Filter(IsUnknown, e.reports)
        <==> QuietAbout(Makefile(fns, limit), IsUnknown, b, old(vars))
    {
      ghost var lang := Makefile(fns, limit);
      MachineMeetsMeaning(lang, b, vars, notes);
      MachineSucceeds(lang, b, vars, notes);
      ok := ParseLines(Lines(b));
      if ok {
        MachineReports(lang, IsUnknown, b, old(vars), old(notes));
        forall name {
          MachineReported(lang, Undefined(name), b, old(vars), old(notes));
        }
      }
    }
  }
}
