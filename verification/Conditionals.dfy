/**
 The line machine of `kbuild-subset.py`: directives drive a stack of conditional
 frames, other lines count only while every frame is active.  It is compared with
 a structured language of nested if / else-if / else chains.
 */
module Conditionals {
  import opened Common

  /** What testing a condition gives: its value and what it reports on the side, or an error. */
  datatype Test<R> = Value(truth: bool, reports: seq<R>) | Failed

  /** Meaning of conditions `C` and of all other lines `A` over variables `V`. */
  datatype Language<!V, !C, !A, !R> = Language(
    test: (C, V) -> Test<R>,
    act: (A, V) -> Result<Effect<V, R>>)

  /** New variables, and reports made on the way. */
  datatype Effect<V, R> = Effect(vars: V, reports: seq<R>)

  // ----- The line machine

  datatype Line<C, A> = If(c: C) | ElseIf(c: C) | Else | EndIf | Do(a: A)

  datatype Frame = Frame(active: bool, taken: bool, elseSeen: bool)

  predicate Active(stack: seq<Frame>) { forall f :: f in stack ==> f.active }

  /** Variables, everything reported so far, and the conditional stack. */
  datatype Machine<V, R> = Machine(vars: V, log: seq<R>, stack: seq<Frame>)

  /** `push_cond` tests its condition even where nothing is active. */
  function PushCond<V, C, A, R>(lang: Language<V, C, A, R>, c: C, m: Machine<V, R>): Result<Machine<V, R>> {
    match lang.test(c, m.vars)
    case Value(truth, reports) =>
      var value := truth && Active(m.stack);
      Ok(Machine(m.vars, m.log + reports, m.stack + [Frame(value, value, false)]))
    case Failed => Err
  }

  function HandleElse<V, R>(m: Machine<V, R>): Result<Machine<V, R>> {
    if m.stack == [] then Err
    else
      var base, f := m.stack[..|m.stack| - 1], m.stack[|m.stack| - 1];
      if f.elseSeen then Err
      else Ok(m.(stack := base + [Frame(!f.taken && Active(base), f.taken, true)]))
  }

  function HandleElseIf<V, C, A, R>(lang: Language<V, C, A, R>, c: C, m: Machine<V, R>): Result<Machine<V, R>> {
    if m.stack == [] then Err
    else
      var base, f := m.stack[..|m.stack| - 1], m.stack[|m.stack| - 1];
      if f.elseSeen then Err
      else if !(Active(base) && !f.taken) then Ok(m.(stack := base + [Frame(false, f.taken, false)]))
      else
        match lang.test(c, m.vars)
        case Value(truth, reports) => Ok(Machine(m.vars, m.log + reports, base + [Frame(truth, truth, false)]))
        case Failed => Err
  }

  function StepLine<V, C, A, R>(lang: Language<V, C, A, R>, line: Line<C, A>, m: Machine<V, R>): Result<Machine<V, R>> {
    match line
    case If(c) => PushCond(lang, c, m)
    case ElseIf(c) => HandleElseIf(lang, c, m)
    case Else => HandleElse(m)
    case EndIf => if m.stack == [] then Err else Ok(m.(stack := m.stack[..|m.stack| - 1]))
    case Do(a) =>
      if !Active(m.stack) then Ok(m)
      else
        match lang.act(a, m.vars)
        case Ok(e) => Ok(m.(vars := e.vars, log := m.log + e.reports))
        case Err => Err
  }

  function RunLines<V, C, A, R>(lang: Language<V, C, A, R>, lines: seq<Line<C, A>>, m: Machine<V, R>)
    : Result<Machine<V, R>>
    decreases |lines|
  {
    if lines == [] then Ok(m)
    else match StepLine(lang, lines[0], m) case Ok(m') => RunLines(lang, lines[1..], m') case Err => Err
  }

  // ----- The structured language

  datatype Block<C, A> = Nil | Cons(head: Stmt<C, A>, tail: Block<C, A>)

  datatype Stmt<C, A> = Act(a: A) | Cond(c: C, body: Block<C, A>, chain: Chain<C, A>)

  datatype Chain<C, A> = NoElse | Otherwise(body: Block<C, A>) | OrIf(c: C, body: Block<C, A>, chain: Chain<C, A>)

  /** The file a block is written as; these are the well-nested files. */
  function Lines<C, A>(b: Block<C, A>): seq<Line<C, A>> {
    match b case Nil => [] case Cons(s, t) => StmtLines(s) + Lines(t)
  }

  function StmtLines<C, A>(s: Stmt<C, A>): seq<Line<C, A>> {
    match s
    case Act(a) => [Do(a)]
    case Cond(c, body, chain) => [If(c)] + Lines(body) + ChainLines(chain)
  }

  function ChainLines<C, A>(chain: Chain<C, A>): seq<Line<C, A>> {
    match chain
    case NoElse => [EndIf]
    case Otherwise(body) => [Else] + Lines(body) + [EndIf]
    case OrIf(c, body, rest) => [ElseIf(c)] + Lines(body) + ChainLines(rest)
  }

  function Prepend<V, R>(reports: seq<R>, r: Result<Effect<V, R>>): Result<Effect<V, R>> {
    match r case Ok(e) => Ok(e.(reports := reports + e.reports)) case Err => Err
  }

  /** The meaning one expects: only the first true arm of a chain runs, the others are ignored. */
  function Exec<V, C, A, R>(lang: Language<V, C, A, R>, b: Block<C, A>, v: V): Result<Effect<V, R>> {
    match b
    case Nil => Ok(Effect(v, []))
    case Cons(Act(a), t) =>
      (match lang.act(a, v)
       case Ok(e) => Prepend(e.reports, Exec(lang, t, e.vars))
       case Err => Err)
    case Cons(Cond(c, body, chain), t) =>
      match lang.test(c, v)
      case Failed => Err
      case Value(truth, reports) =>
        match if truth then Exec(lang, body, v) else ExecChain(lang, chain, v)
        case Ok(e) => Prepend(reports + e.reports, Exec(lang, t, e.vars))
        case Err => Err
  }

  function ExecChain<V, C, A, R>(lang: Language<V, C, A, R>, chain: Chain<C, A>, v: V): Result<Effect<V, R>> {
    match chain
    case NoElse => Ok(Effect(v, []))
    case Otherwise(body) => Exec(lang, body, v)
    case OrIf(c, body, rest) =>
      match lang.test(c, v)
      case Failed => Err
      case Value(truth, reports) =>
        Prepend(reports, if truth then Exec(lang, body, v) else ExecChain(lang, rest, v))
  }

  // ----- What the machine makes of a block

  /** Passing over an untaken block: conditions that open a nested chain are tested all the same. */
  function Pass<V, C, A, R>(lang: Language<V, C, A, R>, b: Block<C, A>, v: V): Result<seq<R>> {
    match b
    case Nil => Ok([])
    case Cons(Act(_), t) => Pass(lang, t, v)
    case Cons(Cond(c, body, chain), t) =>
      match lang.test(c, v)
      case Failed => Err
      case Value(_, r0) =>
        match (Pass(lang, body, v), PassChain(lang, chain, v), Pass(lang, t, v))
        case (Ok(r1), Ok(r2), Ok(r3)) => Ok(r0 + r1 + r2 + r3)
        case _ => Err
  }

  function PassChain<V, C, A, R>(lang: Language<V, C, A, R>, chain: Chain<C, A>, v: V): Result<seq<R>> {
    match chain
    case NoElse => Ok([])
    case Otherwise(body) => Pass(lang, body, v)
    case OrIf(_, body, rest) =>
      match (Pass(lang, body, v), PassChain(lang, rest, v))
      case (Ok(r1), Ok(r2)) => Ok(r1 + r2)
      case _ => Err
  }

  /** Reports of an untaken part, as an effect. */
  function Unchanged<V, R>(v: V, r: Result<seq<R>>): Result<Effect<V, R>> {
    match r case Ok(reports) => Ok(Effect(v, reports)) case Err => Err
  }

  function Real<V, C, A, R>(lang: Language<V, C, A, R>, b: Block<C, A>, v: V): Result<Effect<V, R>> {
    match b
    case Nil => Ok(Effect(v, []))
    case Cons(Act(a), t) =>
      (match lang.act(a, v)
       case Ok(e) => Prepend(e.reports, Real(lang, t, e.vars))
       case Err => Err)
    case Cons(Cond(c, body, chain), t) =>
      match lang.test(c, v)
      case Failed => Err
      case Value(truth, reports) =>
        match if truth then Real(lang, body, v) else Unchanged(v, Pass(lang, body, v))
        case Err => Err
        case Ok(e) =>
          match if truth then Unchanged(e.vars, PassChain(lang, chain, e.vars)) else RealChain(lang, chain, e.vars)
          case Err => Err
          case Ok(e') => Prepend(reports + e.reports + e'.reports, Real(lang, t, e'.vars))
  }

  function RealChain<V, C, A, R>(lang: Language<V, C, A, R>, chain: Chain<C, A>, v: V): Result<Effect<V, R>> {
    match chain
    case NoElse => Ok(Effect(v, []))
    case Otherwise(body) => Real(lang, body, v)
    case OrIf(c, body, rest) =>
      match lang.test(c, v)
      case Failed => Err
      case Value(truth, reports) =>
        match if truth then Real(lang, body, v) else Unchanged(v, Pass(lang, body, v))
        case Err => Err
        case Ok(e) =>
          Prepend(reports + e.reports,
                  if truth then Unchanged(e.vars, PassChain(lang, rest, e.vars)) else RealChain(lang, rest, e.vars))
  }

  /** What a block does where it is active or not. */
  function Effects<V, C, A, R>(lang: Language<V, C, A, R>, live: bool, b: Block<C, A>, v: V): Result<Effect<V, R>> {
    if live then Real(lang, b, v) else Unchanged(v, Pass(lang, b, v))
  }

  function ChainEffects<V, C, A, R>(lang: Language<V, C, A, R>, live: bool, chain: Chain<C, A>, v: V)
    : Result<Effect<V, R>>
  {
    if live then RealChain(lang, chain, v) else Unchanged(v, PassChain(lang, chain, v))
  }

  /** Going on with further lines after an effect. */
  function Continue<V, C, A, R>(lang: Language<V, C, A, R>, r: Result<Effect<V, R>>, lines: seq<Line<C, A>>,
                                log: seq<R>, stack: seq<Frame>)
    : Result<Machine<V, R>>
  {
    match r case Ok(e) => RunLines(lang, lines, Machine(e.vars, log + e.reports, stack)) case Err => Err
  }

  lemma ActivePush(base: seq<Frame>, f: Frame)
    ensures Active(base + [f]) == (Active(base) && f.active)
  {
    assert f in base + [f];
    assert forall g :: g in base ==> g in base + [f];
  }

  lemma RunFirst<V, C, A, R>(lang: Language<V, C, A, R>, line: Line<C, A>, rest: seq<Line<C, A>>, m: Machine<V, R>)
    ensures RunLines(lang, [line] + rest, m)
         == match StepLine(lang, line, m) case Ok(m') => RunLines(lang, rest, m') case Err => Err
  {
    assert ([line] + rest)[1..] == rest;
  }

  lemma ContinuePrepend<V, C, A, R>(lang: Language<V, C, A, R>, reports: seq<R>, r: Result<Effect<V, R>>,
                                    lines: seq<Line<C, A>>, log: seq<R>, stack: seq<Frame>)
    ensures Continue(lang, Prepend(reports, r), lines, log, stack) == Continue(lang, r, lines, log + reports, stack)
  {
    if r.Ok? {
      assert log + (reports + r.value.reports) == log + reports + r.value.reports;
    }
  }

  /** The lines of a block do what `Real` says where they are active, and what `Pass` says elsewhere. */
  lemma {:induction false} BlockRuns<V, C, A, R>(lang: Language<V, C, A, R>, b: Block<C, A>, rest: seq<Line<C, A>>,
                                                 v: V, log: seq<R>, stack: seq<Frame>)
    ensures RunLines(lang, Lines(b) + rest, Machine(v, log, stack))
         == Continue(lang, Effects(lang, Active(stack), b, v), rest, log, stack)
    decreases b
  {
    match b {
      case Nil =>
        assert Lines(b) + rest == rest;
        assert log + [] == log;
      case Cons(Act(a), t) =>
        assert Lines(b) + rest == [Do(a)] + (Lines(t) + rest);
        RunFirst(lang, Do(a), Lines(t) + rest, Machine(v, log, stack));
        if !Active(stack) {
          BlockRuns(lang, t, rest, v, log, stack);
        } else if lang.act(a, v).Ok? {
          var e := lang.act(a, v).value;
          BlockRuns(lang, t, rest, e.vars, log + e.reports, stack);
          ContinuePrepend(lang, e.reports, Real(lang, t, e.vars), rest, log, stack);
        }
      case Cons(Cond(c, body, chain), t) =>
        var after := ChainLines(chain) + (Lines(t) + rest);
        assert Lines(b) + rest == [If(c)] + (Lines(body) + after);
        RunFirst(lang, If(c), Lines(body) + after, Machine(v, log, stack));
        if lang.test(c, v).Value? {
          var Value(truth, reports) := lang.test(c, v);
          var live := truth && Active(stack);
          var f := Frame(live, live, false);
          BlockRuns(lang, body, after, v, log + reports, stack + [f]);
          ActivePush(stack, f);
          var r1 := Effects(lang, live, body, v);
          if r1.Ok? {
            var log1 := log + reports + r1.value.reports;
            ChainRuns(lang, chain, Lines(t) + rest, r1.value.vars, log1, stack, f);
            var r2 := ChainEffects(lang, Active(stack) && !live, chain, r1.value.vars);
            if r2.Ok? {
              BlockRuns(lang, t, rest, r2.value.vars, log1 + r2.value.reports, stack);
              CondReports(lang, Active(stack), t, rest, r2.value.vars, log, reports, r1.value.reports, r2.value.reports, stack);
            }
          }
        }
    }
  }

  lemma CondReports<V, C, A, R>(lang: Language<V, C, A, R>, live: bool, t: Block<C, A>, rest: seq<Line<C, A>>, v: V,
                                log: seq<R>, r0: seq<R>, r1: seq<R>, r2: seq<R>, stack: seq<Frame>)
    ensures Continue(lang, Prepend(r0 + r1 + r2, Effects(lang, live, t, v)), rest, log, stack)
         == Continue(lang, Effects(lang, live, t, v), rest, log + r0 + r1 + r2, stack)
  {
    ContinuePrepend(lang, r0 + r1 + r2, Effects(lang, live, t, v), rest, log, stack);
    assert log + (r0 + r1 + r2) == log + r0 + r1 + r2;
  }

  lemma {:induction false} ChainRuns<V, C, A, R>(lang: Language<V, C, A, R>, chain: Chain<C, A>, rest: seq<Line<C, A>>,
                                                 v: V, log: seq<R>, base: seq<Frame>, f: Frame)
    requires !f.elseSeen
    ensures RunLines(lang, ChainLines(chain) + rest, Machine(v, log, base + [f]))
         == Continue(lang, ChainEffects(lang, Active(base) && !f.taken, chain, v), rest, log, base)
    decreases chain, 2
  {
    var stack := base + [f];
    assert stack[..|stack| - 1] == base && stack[|stack| - 1] == f;
    match chain {
      case NoElse =>
        RunFirst(lang, EndIf, rest, Machine(v, log, stack));
        assert log + [] == log;
      case Otherwise(body) =>
        var g := Frame(!f.taken && Active(base), f.taken, true);
        var stack' := base + [g];
        assert ChainLines(chain) + rest == [Else] + (Lines(body) + ([EndIf] + rest));
        RunFirst(lang, Else, Lines(body) + ([EndIf] + rest), Machine(v, log, stack));
        BlockRuns(lang, body, [EndIf] + rest, v, log, stack');
        ActivePush(base, g);
        var r := Effects(lang, g.active, body, v);
        if r.Ok? {
          RunFirst(lang, EndIf, rest, Machine(r.value.vars, log + r.value.reports, stack'));
          assert stack'[..|stack'| - 1] == base;
        }
      case OrIf(c, body, more) =>
        OrIfRuns(lang, c, body, more, rest, v, log, base, f);
    }
  }

  /** An else-if arm in both modes; where the chain is not live its condition is not tested. */
  lemma {:induction false} OrIfEffects<V, C, A, R>(lang: Language<V, C, A, R>, live: bool, c: C, body: Block<C, A>,
                                                   more: Chain<C, A>, v: V)
    ensures ChainEffects(lang, live, OrIf(c, body, more), v)
         == match (if live then lang.test(c, v) else Value(false, []))
            case Failed => Err
            case Value(truth, reports) =>
              match Effects(lang, truth, body, v)
              case Err => Err
              case Ok(e) => Prepend(reports + e.reports, ChainEffects(lang, live && !truth, more, e.vars))
  {
    if !live {
      match Pass(lang, body, v) {
        case Err =>
        case Ok(r) => assert [] + r == r;
      }
    }
  }

  /** The else-if line itself. */
  lemma {:induction false} OrIfFirst<V, C, A, R>(lang: Language<V, C, A, R>, c: C, body: Block<C, A>, more: Chain<C, A>,
                                                 rest: seq<Line<C, A>>, v: V, log: seq<R>, base: seq<Frame>, f: Frame)
    requires !f.elseSeen
    ensures RunLines(lang, ChainLines(OrIf(c, body, more)) + rest, Machine(v, log, base + [f]))
         == match (if Active(base) && !f.taken then lang.test(c, v) else Value(false, []))
            case Failed => Err
            case Value(truth, reports) => RunLines(lang, Lines(body) + (ChainLines(more) + rest),
              Machine(v, log + reports, base + [Frame(truth, f.taken || truth, false)]))
  {
    var stack := base + [f];
    assert stack[..|stack| - 1] == base && stack[|stack| - 1] == f;
    var after := ChainLines(more) + rest;
    assert ChainLines(OrIf(c, body, more)) + rest == [ElseIf(c)] + (Lines(body) + after);
    RunFirst(lang, ElseIf(c), Lines(body) + after, Machine(v, log, stack));
    assert log + [] == log;
  }

  lemma {:induction false} OrIfRuns<V, C, A, R>(lang: Language<V, C, A, R>, c: C, body: Block<C, A>, more: Chain<C, A>,
                                                rest: seq<Line<C, A>>, v: V, log: seq<R>, base: seq<Frame>, f: Frame)
    requires !f.elseSeen
    ensures RunLines(lang, ChainLines(OrIf(c, body, more)) + rest, Machine(v, log, base + [f]))
         == Continue(lang, ChainEffects(lang, Active(base) && !f.taken, OrIf(c, body, more), v), rest, log, base)
    decreases OrIf(c, body, more), 1
  {
    var live := Active(base) && !f.taken;
    var test := if live then lang.test(c, v) else Value(false, []);
    OrIfFirst(lang, c, body, more, rest, v, log, base, f);
    OrIfEffects(lang, live, c, body, more, v);
    if test.Value? {
      OrIfRest(lang, c, test.truth, test.reports, body, more, rest, v, log, base, f);
    }
  }

  /** What follows the else-if line. */
  lemma {:induction false} OrIfRest<V, C, A, R>(lang: Language<V, C, A, R>, c: C, truth: bool, reports: seq<R>,
                                                body: Block<C, A>, more: Chain<C, A>, rest: seq<Line<C, A>>, v: V,
                                                log: seq<R>, base: seq<Frame>, f: Frame)
    requires truth ==> Active(base) && !f.taken
    ensures RunLines(lang, Lines(body) + (ChainLines(more) + rest),
                     Machine(v, log + reports, base + [Frame(truth, f.taken || truth, false)]))
         == Continue(lang, match Effects(lang, truth, body, v)
                           case Err => Err
                           case Ok(e) =>
                             Prepend(reports + e.reports,
                                     ChainEffects(lang, Active(base) && !f.taken && !truth, more, e.vars)),
                     rest, log, base)
    decreases OrIf(c, body, more), 0
  {
    var g := Frame(truth, f.taken || truth, false);
    BlockRuns(lang, body, ChainLines(more) + rest, v, log + reports, base + [g]);
    ActivePush(base, g);
    var r := Effects(lang, truth, body, v);
    if r.Ok? {
      var log1 := log + reports + r.value.reports;
      ChainRuns(lang, more, rest, r.value.vars, log1, base, g);
      var r2 := ChainEffects(lang, Active(base) && !f.taken && !truth, more, r.value.vars);
      ContinuePrepend(lang, reports + r.value.reports, r2, rest, log, base);
      assert log + (reports + r.value.reports) == log1;
    }
  }

  // ----- Machine and meaning compared

  /** Every condition that is met in an untaken arm tests without an error and without a report. */
  ghost predicate Quiet<V, C, A, R>(lang: Language<V, C, A, R>, b: Block<C, A>, v: V) {
    match b
    case Nil => true
    case Cons(Act(a), t) => (match lang.act(a, v) case Ok(e) => Quiet(lang, t, e.vars) case Err => true)
    case Cons(Cond(c, body, chain), t) =>
      match lang.test(c, v)
      case Failed => true
      case Value(truth, _) =>
        if truth then
          Quiet(lang, body, v)
          && (match Exec(lang, body, v)
              case Ok(e) => PassChain(lang, chain, e.vars) == Ok([]) && Quiet(lang, t, e.vars)
              case Err => true)
        else
          Pass(lang, body, v) == Ok([]) && QuietChain(lang, chain, v)
          && (match ExecChain(lang, chain, v) case Ok(e) => Quiet(lang, t, e.vars) case Err => true)
  }

  ghost predicate QuietChain<V, C, A, R>(lang: Language<V, C, A, R>, chain: Chain<C, A>, v: V) {
    match chain
    case NoElse => true
    case Otherwise(body) => Quiet(lang, body, v)
    case OrIf(c, body, rest) =>
      match lang.test(c, v)
      case Failed => true
      case Value(truth, _) =>
        if truth then
          Quiet(lang, body, v)
          && (match Exec(lang, body, v) case Ok(e) => PassChain(lang, rest, e.vars) == Ok([]) case Err => true)
        else Pass(lang, body, v) == Ok([]) && QuietChain(lang, rest, v)
  }

  /** The machine may fail or report more than the meaning, and does so unless all is quiet. */
  ghost predicate Refines<V, R>(run: Result<Effect<V, R>>, exec: Result<Effect<V, R>>, quiet: bool) {
    && (run.Ok? ==> exec.Ok? && run.value.vars == exec.value.vars
                     && |run.value.reports| >= |exec.value.reports|
                     && (|run.value.reports| == |exec.value.reports| ==> quiet))
    && (exec.Ok? && quiet ==> run == exec)
  }

  /** One effect after another; `next` is what follows from the variables left by `r`. */
  function Then<V, R>(r: Result<Effect<V, R>>, next: Result<Effect<V, R>>): Result<Effect<V, R>> {
    match r case Ok(e) => Prepend(e.reports, next) case Err => Err
  }

  lemma ThenRefines<V, R>(run1: Result<Effect<V, R>>, exec1: Result<Effect<V, R>>, quiet1: bool,
                          run2: Result<Effect<V, R>>, exec2: Result<Effect<V, R>>, quiet2: bool)
    requires Refines(run1, exec1, quiet1) && (exec1.Ok? ==> Refines(run2, exec2, quiet2))
    ensures Refines(Then(run1, run2), Then(exec1, exec2), quiet1 && (exec1.Ok? ==> quiet2))
  {
  }

  lemma PrependRefines<V, R>(reports: seq<R>, run: Result<Effect<V, R>>, exec: Result<Effect<V, R>>, quiet: bool)
    requires Refines(run, exec, quiet)
    ensures Refines(Prepend(reports, run), Prepend(reports, exec), quiet)
  {
  }

  /** Effect of an arm together with the rest of its chain, and its meaning. */
  function ArmRun<V, C, A, R>(lang: Language<V, C, A, R>, truth: bool, body: Block<C, A>, chain: Chain<C, A>, v: V)
    : Result<Effect<V, R>>
  {
    match Effects(lang, truth, body, v)
    case Ok(e) => Prepend(e.reports, ChainEffects(lang, !truth, chain, e.vars))
    case Err => Err
  }

  function ArmExec<V, C, A, R>(lang: Language<V, C, A, R>, truth: bool, body: Block<C, A>, chain: Chain<C, A>, v: V)
    : Result<Effect<V, R>>
  {
    if truth then Exec(lang, body, v) else ExecChain(lang, chain, v)
  }

  ghost predicate ArmQuiet<V, C, A, R>(lang: Language<V, C, A, R>, truth: bool, body: Block<C, A>, chain: Chain<C, A>,
                                       v: V)
  {
    if truth then
      Quiet(lang, body, v)
      && (match Exec(lang, body, v) case Ok(e) => PassChain(lang, chain, e.vars) == Ok([]) case Err => true)
    else Pass(lang, body, v) == Ok([]) && QuietChain(lang, chain, v)
  }

  lemma {:induction false} ArmRefines<V, C, A, R>(lang: Language<V, C, A, R>, truth: bool, body: Block<C, A>,
                                                  chain: Chain<C, A>, v: V)
    requires truth ==> Refines(Real(lang, body, v), Exec(lang, body, v), Quiet(lang, body, v))
    requires !truth ==> Refines(RealChain(lang, chain, v), ExecChain(lang, chain, v), QuietChain(lang, chain, v))
    ensures Refines(ArmRun(lang, truth, body, chain, v), ArmExec(lang, truth, body, chain, v),
                    ArmQuiet(lang, truth, body, chain, v))
  {
    if truth {
      if Exec(lang, body, v).Ok? {
        var e := Exec(lang, body, v).value;
        var run2, exec2 := Unchanged(e.vars, PassChain(lang, chain, e.vars)), Ok(Effect(e.vars, []));
        ThenRefines(Real(lang, body, v), Exec(lang, body, v), Quiet(lang, body, v),
                    run2, exec2, PassChain(lang, chain, e.vars) == Ok([]));
        assert e.reports + [] == e.reports;
      }
    } else {
      var run1: Result<Effect<V, R>>, exec1 := Unchanged(v, Pass(lang, body, v)), Ok(Effect(v, []));
      var run2, exec2 := RealChain(lang, chain, v), ExecChain(lang, chain, v);
      ThenRefines(run1, exec1, Pass(lang, body, v) == Ok([]), run2, exec2, QuietChain(lang, chain, v));
      assert exec2.Ok? ==> [] + exec2.value.reports == exec2.value.reports;
    }
  }

  lemma Regroup<R>(a: seq<R>, b: seq<R>, c: seq<R>, d: seq<R>)
    ensures (a + b + c) + d == a + ((b + c) + d)
  {
  }

  /** `Real` in terms of arms. */
  lemma {:induction false} RealCond<V, C, A, R>(lang: Language<V, C, A, R>, c: C, body: Block<C, A>, chain: Chain<C, A>,
                                                t: Block<C, A>, v: V)
    requires lang.test(c, v).Value?
    ensures var Value(truth, reports) := lang.test(c, v); var arm := ArmRun(lang, truth, body, chain, v);
      Real(lang, Cons(Cond(c, body, chain), t), v)
      == match arm case Ok(e) => Prepend(reports, Then(arm, Real(lang, t, e.vars))) case Err => Err
  {
    var Value(truth, reports) := lang.test(c, v);
    var r1 := Effects(lang, truth, body, v);
    if r1.Ok? {
      var r2 := ChainEffects(lang, !truth, chain, r1.value.vars);
      if r2.Ok? {
        var r3 := Real(lang, t, r2.value.vars);
        if r3.Ok? {
          var a, b, d := r1.value.reports, r2.value.reports, r3.value.reports;
          Regroup(reports, a, b, d);
        }
      }
    }
  }

  lemma {:induction false} RealRefinesExec<V, C, A, R>(lang: Language<V, C, A, R>, b: Block<C, A>, v: V)
    ensures Refines(Real(lang, b, v), Exec(lang, b, v), Quiet(lang, b, v))
    decreases b
  {
    match b {
      case Nil =>
      case Cons(Act(a), t) =>
        if lang.act(a, v).Ok? {
          var e := lang.act(a, v).value;
          RealRefinesExec(lang, t, e.vars);
          PrependRefines(e.reports, Real(lang, t, e.vars), Exec(lang, t, e.vars), Quiet(lang, t, e.vars));
        }
      case Cons(Cond(c, body, chain), t) =>
        if lang.test(c, v).Value? {
          var Value(truth, reports) := lang.test(c, v);
          if truth { RealRefinesExec(lang, body, v); } else { ChainRefines(lang, chain, v); }
          ArmRefines(lang, truth, body, chain, v);
          RealCond(lang, c, body, chain, t, v);
          var run1, exec1 := ArmRun(lang, truth, body, chain, v), ArmExec(lang, truth, body, chain, v);
          if exec1.Ok? {
            var v1 := exec1.value.vars;
            RealRefinesExec(lang, t, v1);
            var run2, exec2 := Real(lang, t, v1), Exec(lang, t, v1);
            ThenRefines(run1, exec1, ArmQuiet(lang, truth, body, chain, v), run2, exec2, Quiet(lang, t, v1));
            PrependRefines(reports, Then(run1, run2), Then(exec1, exec2), Quiet(lang, b, v));
            PrependPrepend(reports, exec1.value.reports, exec2);
          }
        }
    }
  }

  lemma PrependPrepend<V, R>(a: seq<R>, b: seq<R>, r: Result<Effect<V, R>>)
    ensures Prepend(a, Prepend(b, r)) == Prepend(a + b, r)
  {
    if r.Ok? {
      assert a + (b + r.value.reports) == a + b + r.value.reports;
    }
  }

  lemma {:induction false} ChainRefines<V, C, A, R>(lang: Language<V, C, A, R>, chain: Chain<C, A>, v: V)
    ensures Refines(RealChain(lang, chain, v), ExecChain(lang, chain, v), QuietChain(lang, chain, v))
    decreases chain
  {
    match chain {
      case NoElse =>
      case Otherwise(body) => RealRefinesExec(lang, body, v);
      case OrIf(c, body, rest) =>
        if lang.test(c, v).Value? {
          var Value(truth, reports) := lang.test(c, v);
          if truth { RealRefinesExec(lang, body, v); } else { ChainRefines(lang, rest, v); }
          ArmRefines(lang, truth, body, rest, v);
          PrependRefines(reports, ArmRun(lang, truth, body, rest, v), ArmExec(lang, truth, body, rest, v),
                         ArmQuiet(lang, truth, body, rest, v));
          if Effects(lang, truth, body, v).Ok? {
            var e := Effects(lang, truth, body, v).value;
            PrependPrepend(reports, e.reports, ChainEffects(lang, !truth, rest, e.vars));
          }
        }
    }
  }

  // ----- Main results

  /**
   A well-nested file leaves the variables exactly as its structured meaning does,
   whenever the machine gets through it; and it gets through with nothing but the
   reports of the meaning if and only if all conditions met in untaken arms are
   quiet.
   */
  lemma {:induction false} MachineMeetsMeaning<V, C, A, R>(lang: Language<V, C, A, R>, b: Block<C, A>, v: V, log: seq<R>)
    ensures var run := RunLines(lang, Lines(b), Machine(v, log, []));
      run.Ok? ==> run.value.stack == [] && Exec(lang, b, v).Ok? && run.value.vars == Exec(lang, b, v).value.vars
    ensures Exec(lang, b, v).Ok? ==>
      var e := Exec(lang, b, v).value;
      RunLines(lang, Lines(b), Machine(v, log, [])) == Ok(Machine(e.vars, log + e.reports, [])) <==> Quiet(lang, b, v)
  {
    BlockRuns(lang, b, [], v, log, []);
    assert Lines(b) + [] == Lines(b);
    RealRefinesExec(lang, b, v);
    if Real(lang, b, v).Ok? && Exec(lang, b, v).Ok? {
      SameLength(log, Real(lang, b, v).value.reports, Exec(lang, b, v).value.reports);
    }
  }

  lemma SameLength<R>(log: seq<R>, a: seq<R>, b: seq<R>)
    ensures log + a == log + b ==> |a| == |b|
  {
    assert |log + a| == |log| + |a| && |log + b| == |log| + |b|;
  }

  // ----- One kind of reports

  /** The reports of one kind, in order. */
  function Filter<R>(kind: R -> bool, s: seq<R>): seq<R> {
    if s == [] then [] else (if kind(s[0]) then [s[0]] else []) + Filter(kind, s[1..])
  }

  lemma {:induction false} FilterAdd<R>(kind: R -> bool, a: seq<R>, b: seq<R>)
    ensures Filter(kind, a + b) == Filter(kind, a) + Filter(kind, b)
  {
    if a == [] {
      assert a + b == b;
    } else {
      assert (a + b)[1..] == a[1..] + b;
      FilterAdd(kind, a[1..], b);
    }
  }

  lemma {:induction false} FilterFinds<R>(x: R, s: seq<R>)
    ensures x in s <==> Filter(Is(x), s) != []
  {
    if s != [] {
      FilterFinds(x, s[1..]);
      assert s == [s[0]] + s[1..];
    }
  }

  lemma {:induction false} FilterNone<R>(s: seq<R>)
    ensures Filter(Nothing<R>(), s) == []
  {
    if s != [] {
      FilterNone(s[1..]);
    }
  }

  ghost function Is<R>(x: R): R -> bool { (y: R) => y == x }

  function Nothing<R>(): R -> bool { (_: R) => false }

  function FilterTest<R>(kind: R -> bool, t: Test<R>): Test<R> {
    match t case Value(truth, reports) => Value(truth, Filter(kind, reports)) case Failed => Failed
  }

  function FilterEffect<V, R>(kind: R -> bool, r: Result<Effect<V, R>>): Result<Effect<V, R>> {
    match r case Ok(e) => Ok(Effect(e.vars, Filter(kind, e.reports))) case Err => Err
  }

  /** The same language with reports of one kind only. */
  function Keep<V, C, A, R>(lang: Language<V, C, A, R>, kind: R -> bool): Language<V, C, A, R> {
    Language((c: C, v: V) => FilterTest(kind, lang.test(c, v)), (a: A, v: V) => FilterEffect(kind, lang.act(a, v)))
  }

  function FilterLog<V, R>(kind: R -> bool, m: Machine<V, R>): Machine<V, R> { m.(log := Filter(kind, m.log)) }

  lemma {:induction false} FilteredStep<V, C, A, R>(lang: Language<V, C, A, R>, kind: R -> bool, line: Line<C, A>,
                                                    m: Machine<V, R>)
    ensures StepLine(Keep(lang, kind), line, FilterLog(kind, m))
         == match StepLine(lang, line, m) case Ok(m') => Ok(FilterLog(kind, m')) case Err => Err
  {
    match line {
      case If(c) => if lang.test(c, m.vars).Value? { FilterAdd(kind, m.log, lang.test(c, m.vars).reports); }
      case ElseIf(c) => if lang.test(c, m.vars).Value? { FilterAdd(kind, m.log, lang.test(c, m.vars).reports); }
      case Else =>
      case EndIf =>
      case Do(a) => if lang.act(a, m.vars).Ok? { FilterAdd(kind, m.log, lang.act(a, m.vars).value.reports); }
    }
  }

  lemma {:induction false} FilteredRuns<V, C, A, R>(lang: Language<V, C, A, R>, kind: R -> bool, lines: seq<Line<C, A>>,
                                                    m: Machine<V, R>)
    ensures RunLines(Keep(lang, kind), lines, FilterLog(kind, m))
         == match RunLines(lang, lines, m) case Ok(m') => Ok(FilterLog(kind, m')) case Err => Err
    decreases |lines|
  {
    if lines != [] {
      FilteredStep(lang, kind, lines[0], m);
      if StepLine(lang, lines[0], m).Ok? {
        FilteredRuns(lang, kind, lines[1..], StepLine(lang, lines[0], m).value);
      }
    }
  }

  lemma FilterPrepend<V, R>(kind: R -> bool, reports: seq<R>, r: Result<Effect<V, R>>)
    ensures FilterEffect(kind, Prepend(reports, r)) == Prepend(Filter(kind, reports), FilterEffect(kind, r))
  {
    if r.Ok? {
      FilterAdd(kind, reports, r.value.reports);
    }
  }

  lemma {:induction false} FilteredExec<V, C, A, R>(lang: Language<V, C, A, R>, kind: R -> bool, b: Block<C, A>, v: V)
    ensures Exec(Keep(lang, kind), b, v) == FilterEffect(kind, Exec(lang, b, v))
    decreases b
  {
    match b {
      case Nil =>
      case Cons(Act(a), t) =>
        if lang.act(a, v).Ok? {
          var e := lang.act(a, v).value;
          FilteredExec(lang, kind, t, e.vars);
          FilterPrepend(kind, e.reports, Exec(lang, t, e.vars));
        }
      case Cons(Cond(c, body, chain), t) =>
        if lang.test(c, v).Value? {
          var Value(truth, reports) := lang.test(c, v);
          if truth { FilteredExec(lang, kind, body, v); } else { FilteredChain(lang, kind, chain, v); }
          var arm := if truth then Exec(lang, body, v) else ExecChain(lang, chain, v);
          if arm.Ok? {
            FilteredExec(lang, kind, t, arm.value.vars);
            FilterPrepend(kind, reports + arm.value.reports, Exec(lang, t, arm.value.vars));
            FilterAdd(kind, reports, arm.value.reports);
          }
        }
    }
  }

  lemma {:induction false} FilteredChain<V, C, A, R>(lang: Language<V, C, A, R>, kind: R -> bool, chain: Chain<C, A>, v: V)
    ensures ExecChain(Keep(lang, kind), chain, v) == FilterEffect(kind, ExecChain(lang, chain, v))
    decreases chain
  {
    match chain {
      case NoElse =>
      case Otherwise(body) => FilteredExec(lang, kind, body, v);
      case OrIf(c, body, rest) =>
        if lang.test(c, v).Value? {
          var Value(truth, reports) := lang.test(c, v);
          if truth { FilteredExec(lang, kind, body, v); } else { FilteredChain(lang, kind, rest, v); }
          FilterPrepend(kind, reports, if truth then Exec(lang, body, v) else ExecChain(lang, rest, v));
        }
    }
  }

  /** No condition that is met in an untaken arm fails or makes a report of this kind. */
  ghost predicate QuietAbout<V, C, A, R>(lang: Language<V, C, A, R>, kind: R -> bool, b: Block<C, A>, v: V) {
    Quiet(Keep(lang, kind), b, v)
  }

  /** No condition that is met in an untaken arm fails. */
  ghost predicate Sound<V, C, A, R>(lang: Language<V, C, A, R>, b: Block<C, A>, v: V) { QuietAbout(lang, Nothing(), b, v) }

  /** A well-nested file is read to the end if and only if its meaning is defined and no condition in an untaken arm fails. */
  lemma {:induction false} MachineSucceeds<V, C, A, R>(lang: Language<V, C, A, R>, b: Block<C, A>, v: V, log: seq<R>)
    ensures RunLines(lang, Lines(b), Machine(v, log, [])).Ok? <==> Exec(lang, b, v).Ok? && Sound(lang, b, v)
  {
    var run := RunLines(lang, Lines(b), Machine(v, log, []));
    MachineMeetsMeaning(Keep(lang, Nothing()), b, v, Filter(Nothing(), log));
    FilteredRuns(lang, Nothing(), Lines(b), Machine(v, log, []));
    FilteredExec(lang, Nothing(), b, v);
    FilterNone(log);
    if run.Ok? { FilterNone(run.value.log); }
    if Exec(lang, b, v).Ok? { FilterNone(Exec(lang, b, v).value.reports); }
  }

  /** Of reports of one kind the machine makes those of the meaning, in order, if and only if no untaken arm adds any. */
  lemma {:induction false} MachineReports<V, C, A, R>(lang: Language<V, C, A, R>, kind: R -> bool, b: Block<C, A>, v: V,
                                                      log: seq<R>)
    requires RunLines(lang, Lines(b), Machine(v, log, [])).Ok? && Exec(lang, b, v).Ok?
    ensures var run, e := RunLines(lang, Lines(b), Machine(v, log, [])).value, Exec(lang, b, v).value;
      Filter(kind, run.log) == Filter(kind, log) + Filter(kind, e.reports) <==> QuietAbout(lang, kind, b, v)
  {
    MachineMeetsMeaning(Keep(lang, kind), b, v, Filter(kind, log));
    FilteredRuns(lang, kind, Lines(b), Machine(v, log, []));
    FilteredExec(lang, kind, b, v);
  }

  /** The machine reports something exactly when the meaning does, or some untaken arm. */
  lemma {:induction false} MachineReported<V, C, A, R>(lang: Language<V, C, A, R>, x: R, b: Block<C, A>, v: V, log: seq<R>)
    requires RunLines(lang, Lines(b), Machine(v, log, [])).Ok? && Exec(lang, b, v).Ok?
    ensures x in RunLines(lang, Lines(b), Machine(v, log, [])).value.log
       <==> x in log || x in Exec(lang, b, v).value.reports || !QuietAbout(lang, Is(x), b, v)
  {
    var run, reports := RunLines(lang, Lines(b), Machine(v, log, [])).value, Exec(lang, b, v).value.reports;
    var kept, before := Keep(lang, Is(x)), Filter(Is(x), log);
    FilteredRuns(lang, Is(x), Lines(b), Machine(v, log, []));
    FilteredExec(lang, Is(x), b, v);
    BlockRuns(kept, b, [], v, before, []);
    assert Lines(b) + [] == Lines(b);
    RealRefinesExec(kept, b, v);
    FilterFinds(x, run.log);
    FilterFinds(x, log);
    FilterFinds(x, reports);
  }

  /**
   One failing condition inside an arm that is not taken stops the machine, in every
   language and with any variables, although the arm means nothing.
   */
  lemma {:induction false} UntakenConditionStops<V, C, A, R>(lang: Language<V, C, A, R>, c: C, inner: C, v: V)
    requires lang.test(c, v).Value? && !lang.test(c, v).truth && lang.test(inner, v).Failed?
    ensures var b := Cons(Cond(c, Cons(Cond(inner, Nil, NoElse), Nil), NoElse), Nil);
      Exec(lang, b, v) == Ok(Effect(v, lang.test(c, v).reports)) && RunLines(lang, Lines(b), Machine(v, [], [])) == Err
  {
    var body := Cons(Cond(inner, Nil, NoElse), Nil);
    var b := Cons(Cond(c, body, NoElse), Nil);
    BlockRuns(lang, b, [], v, [], []);
    assert Lines(b) + [] == Lines(b);
    assert Pass(lang, body, v) == Err;
    assert Real(lang, b, v) == Err;
    var reports := lang.test(c, v).reports;
    assert ExecChain(lang, NoElse, v) == Ok(Effect(v, []));
    assert Exec(lang, Nil, v) == Ok(Effect(v, []));
    assert reports + [] + [] == reports;
  }

  /** One that reports something adds its reports, which the meaning has not. */
  lemma {:induction false} UntakenConditionReports<V, C, A, R>(lang: Language<V, C, A, R>, c: C, inner: C, v: V)
    requires lang.test(c, v).Value? && !lang.test(c, v).truth && lang.test(inner, v).Value?
    ensures var b := Cons(Cond(c, Cons(Cond(inner, Nil, NoElse), Nil), NoElse), Nil);
      && Exec(lang, b, v) == Ok(Effect(v, lang.test(c, v).reports))
      && RunLines(lang, Lines(b), Machine(v, [], []))
         == Ok(Machine(v, lang.test(c, v).reports + lang.test(inner, v).reports, []))
  {
    var body := Cons(Cond(inner, Nil, NoElse), Nil);
    var b := Cons(Cond(c, body, NoElse), Nil);
    BlockRuns(lang, b, [], v, [], []);
    assert Lines(b) + [] == Lines(b);
    var r0, r1 := lang.test(c, v).reports, lang.test(inner, v).reports;
    assert r1 + [] + [] + [] == r1;
    assert Pass(lang, body, v) == Ok(r1);
    assert RealChain(lang, NoElse, v) == Ok(Effect(v, []));
    assert ExecChain(lang, NoElse, v) == Ok(Effect(v, []));
    assert Exec(lang, Nil, v) == Ok(Effect(v, []));
    assert r0 + [] + [] == r0;
    assert r0 + r1 + [] + [] == r0 + r1;
    assert Real(lang, b, v) == Ok(Effect(v, r0 + r1));
    assert [] + (r0 + r1) == r0 + r1;
  }
}
