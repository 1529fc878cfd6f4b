/**
 The futex ping-pong of the process benchmark: two threads pass a turn word back
 and forth with load, wait-if-equal, store and wake.  Every atomic access and
 every futex call is one step.  A wait may also time out, but nothing relies on it:
 runs without timeouts get done as well.
 */
module Futex {

  datatype Thread = Helper | Main

  /** The value of the word when it is a thread's turn. */
  function Turn(t: Thread): nat { match t case Helper => 2 case Main => 1 }

  function Other(t: Thread): Thread { match t case Helper => Main case Main => Helper }

  /** Where a thread is in its loop. */
  datatype Pc =
    | Load                 // about to read the word
    | WaitCall(seen: nat)  // about to wait as long as the word equals `seen`
    | Asleep               // waiting in the kernel
    | Store                // saw its turn, about to hand over
    | WakeCall             // handed over, about to wake the other thread
    | Done

  /** `rounds` counts completed iterations of a thread's loop. */
  datatype Local = Local(pc: Pc, rounds: nat)

  datatype State = State(word: nat, helper: Local, main: Local) {
    function At(t: Thread): Local { match t case Helper => helper case Main => main }

    function With(t: Thread, l: Local): State {
      match t case Helper => this.(helper := l) case Main => this.(main := l)
    }

    /** Hand-overs of a thread: completed rounds and one whose wake is pending. */
    function HandOvers(t: Thread): nat { At(t).rounds + (if At(t).pc == WakeCall then 1 else 0) }
  }

  function LoopTop(rounds: nat, iter: nat): Local { Local(if rounds < iter then Load else Done, rounds) }

  function Init(iter: nat): State { State(Turn(Helper), LoopTop(0, iter), LoopTop(0, iter)) }

  predicate CanStep(s: State, t: Thread) { s.At(t).pc != Asleep && s.At(t).pc != Done }

  function Woken(l: Local): Local { if l.pc == Asleep then l.(pc := Load) else l }

  /** One step of one thread. */
  function Step(s: State, t: Thread, iter: nat): State
    requires CanStep(s, t)
  {
    var l := s.At(t);
    match l.pc
    case Load => s.With(t, l.(pc := if s.word == Turn(t) then Store else WaitCall(s.word)))
    case WaitCall(seen) => s.With(t, l.(pc := if s.word == seen then Asleep else Load))
    case Store => s.(word := Turn(Other(t))).With(t, l.(pc := WakeCall))
    case WakeCall => s.With(t, LoopTop(l.rounds + 1, iter)).With(Other(t), Woken(s.At(Other(t))))
    case _ => s
  }

  ghost predicate Next(s: State, s': State, iter: nat) {
    exists t :: CanStep(s, t) && s' == Step(s, t, iter)
  }

  /** A sleeping thread gives up waiting and looks again. */
  ghost predicate TimesOut(s: State, s': State) {
    exists t :: s.At(t).pc == Asleep && s' == s.With(t, Woken(s.At(t)))
  }

  predicate Finished(s: State) { s.helper.pc == Done && s.main.pc == Done }

  // ----- The invariant

  /** What holds of one thread at every moment. */
  predicate LocalInv(s: State, t: Thread, iter: nat) {
    var l := s.At(t);
    && (if l.pc == Done then l.rounds == iter else l.rounds < iter)
    && (l.pc == Store ==> s.word == Turn(t))
    && (l.pc.WaitCall? ==> l.pc.seen == Turn(Other(t)))
    // asleep on a stale value only while the other thread's wake is pending
    && (l.pc == Asleep ==> s.word == Turn(Other(t)) || s.At(Other(t)).pc == WakeCall)
  }

  /** The word says whose turn it is: the hand-overs are even, or the helper is one ahead. */
  predicate Inv(s: State, iter: nat) {
    && (s.word == Turn(Helper) || s.word == Turn(Main))
    && s.HandOvers(Helper) == s.HandOvers(Main) + (if s.word == Turn(Main) then 1 else 0)
    && LocalInv(s, Helper, iter) && LocalInv(s, Main, iter)
  }

  lemma InitInv(iter: nat)
    ensures Inv(Init(iter), iter)
  {
  }

  lemma StepKeepsInv(s: State, t: Thread, iter: nat)
    requires Inv(s, iter) && CanStep(s, t)
    ensures Inv(Step(s, t, iter), iter)
  {
    match t { case Helper => case Main => }
  }

  lemma TimeoutKeepsInv(s: State, t: Thread, iter: nat)
    requires Inv(s, iter) && s.At(t).pc == Asleep
    ensures Inv(s.With(t, Woken(s.At(t))), iter)
  {
    match t { case Helper => case Main => }
  }

  /** As long as the work is not finished some thread can go on. */
  lemma NotStuck(s: State, iter: nat)
    requires Inv(s, iter) && !Finished(s)
    ensures CanStep(s, Helper) || CanStep(s, Main)
  {
  }

  // ----- Progress

  /** Steps a thread can take before the word changes or it sleeps for good. */
  function Slack(s: State, t: Thread): nat {
    match s.At(t).pc
    case Done => 0
    case Asleep => 0
    case Store => 1
    case Load => 2
    case WaitCall(_) => if s.word == Turn(t) then 3 else 1
    case WakeCall => 5
  }

  function Measure(s: State, iter: nat): int {
    10 * (2 * iter - s.HandOvers(Helper) - s.HandOvers(Main)) + Slack(s, Helper) + Slack(s, Main)
  }

  lemma MeasureNonNegative(s: State, iter: nat)
    requires Inv(s, iter)
    ensures Measure(s, iter) >= 0
  {
  }

  lemma StepDecreases(s: State, t: Thread, iter: nat)
    requires Inv(s, iter) && CanStep(s, t)
    ensures Measure(Step(s, t, iter), iter) < Measure(s, iter)
  {
    match t { case Helper => case Main => }
  }

  // ----- Whole runs

  /** Any interleaving from the initial state, with timeouts at any time if `timed`. */
  ghost predicate IsRun(run: seq<State>, iter: nat, timed: bool) {
    |run| >= 1 && run[0] == Init(iter)
    && forall k :: 0 <= k < |run| - 1 ==> Next(run[k], run[k + 1], iter) || (timed && TimesOut(run[k], run[k + 1]))
  }

  lemma {:induction false} RunInvariant(run: seq<State>, iter: nat, timed: bool, k: nat)
    requires IsRun(run, iter, timed) && k < |run|
    ensures Inv(run[k], iter) && (!timed ==> Measure(run[k], iter) <= 20 * iter + 4 - k)
    decreases k
  {
    if k == 0 {
      InitInv(iter);
    } else {
      RunInvariant(run, iter, timed, k - 1);
      assert Next(run[k - 1], run[k - 1 + 1], iter) || TimesOut(run[k - 1], run[k - 1 + 1]);
      if Next(run[k - 1], run[k], iter) {
        var t :| CanStep(run[k - 1], t) && run[k] == Step(run[k - 1], t, iter);
        StepKeepsInv(run[k - 1], t, iter);
        StepDecreases(run[k - 1], t, iter);
      } else {
        var t :| run[k - 1].At(t).pc == Asleep && run[k] == run[k - 1].With(t, Woken(run[k - 1].At(t)));
        TimeoutKeepsInv(run[k - 1], t, iter);
      }
    }
  }

  /**
   In every state of every run, timeouts or not, the hand-overs alternate, helper
   first, and a thread that sleeps although it is its turn is about to be woken.
   */
  lemma HandOversAlternate(run: seq<State>, iter: nat, timed: bool, k: nat)
    requires IsRun(run, iter, timed) && k < |run|
    ensures var s := run[k];
      && s.HandOvers(Helper) - s.HandOvers(Main) == (if s.word == Turn(Main) then 1 else 0)
      && s.HandOvers(Helper) <= iter
      && forall t :: s.At(t).pc == Asleep && s.word == Turn(t) ==> s.At(Other(t)).pc == WakeCall
  {
    RunInvariant(run, iter, timed, k);
  }

  /** Without timeouts no run goes on for ever, whatever the scheduler does. */
  lemma RunsAreBounded(run: seq<State>, iter: nat)
    requires IsRun(run, iter, false)
    ensures |run| <= 20 * iter + 5
  {
    RunInvariant(run, iter, false, |run| - 1);
    MeasureNonNegative(run[|run| - 1], iter);
  }

  /** No thread can take a step of its own. */
  ghost predicate Stuck(s: State, iter: nat) { forall s' :: !Next(s, s', iter) }

  /** A run that cannot go on without a timeout has handed over `iter` times on both sides. */
  lemma RunsComplete(run: seq<State>, iter: nat, timed: bool)
    requires IsRun(run, iter, timed) && Stuck(run[|run| - 1], iter)
    ensures var s := run[|run| - 1];
      Finished(s) && s.HandOvers(Helper) == iter && s.HandOvers(Main) == iter
  {
    var s := run[|run| - 1];
    RunInvariant(run, iter, timed, |run| - 1);
    if !Finished(s) {
      NotStuck(s, iter);
      var t := if CanStep(s, Helper) then Helper else Main;
      assert Next(s, Step(s, t, iter), iter);
    }
  }
}
