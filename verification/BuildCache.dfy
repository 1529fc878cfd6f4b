/**
 The pristine disk cache of `disk-build-cache.py`: `save` keeps a copy of the disk
 under a fingerprint of the build inputs, `restore` brings it back while the
 inputs are unchanged.  Every file operation is one step, and a run may be
 interrupted after any of them.
 */
module BuildCache {
  import opened Common

  /** The bytes of a disk image. */
  type Content = seq<int>

  /** A fingerprint of the build inputs. */
  type Key = string

  /** A file as `state` sees it; no two files ever have the same stamp (inode and times). */
  datatype File = File(content: Content, stamp: nat)

  /** Metadata: the fingerprint and the stamp of the cache file it was written for. */
  datatype Meta = Meta(fingerprint: Key, stamp: nat)

  /** Where the running script is, with what it holds in memory. */
  datatype Proc =
    | Idle
    // save
    | SaveCopy(before: Key)                       // about to clone the disk
    | SaveCheck(before: Key, temp: Content)       // about to compare the fingerprint again
    | SaveReplace(before: Key, temp: Content)     // about to rename the clone to the cache
    | SaveStat(before: Key)                       // about to stat the cache
    | SaveMeta(before: Key, stamp: nat)           // about to rename the metadata
    // restore; `disk` is the disk when it started
    | ReadMeta(disk: Content)
    | CheckStamp(disk: Content, m: Meta)          // about to stat the cache
    | CheckKey(disk: Content, m: Meta)            // about to compute the fingerprint
    | Clone(disk: Content, m: Meta)               // about to clone the cache
    | Partition(disk: Content, m: Meta, temp: Content)  // about to refresh the partition cache
    | CheckAgain(disk: Content, m: Meta, temp: Content) // about to compute the fingerprint again
    | ReplaceDisk(disk: Content, m: Meta, temp: Content)
    | Snapshot(disk: Content, m: Meta)            // about to write the manifest
    // exit status of restore, with the fingerprint computed last
    | Exit(code: nat, disk: Content, seen: Option<Key>)

  datatype State = State(
    disk: Content, key: Key, cache: Option<File>, meta: Option<Meta>, proc: Proc,
    born: map<nat, Content>,              // the content every stamp was given to
    captured: set<(Key, Content)>)        // what completed comparisons of a save vouch for

  datatype Event =
    // the surroundings
    | InputsChange(k: Key)
    | DiskChange(c: Content)              // the guest runs, or the disk is rebuilt
    | CacheOverwritten(c: Content, stamp: nat)
    | CacheLost
    | MetaLost                            // deleted or unreadable
    // the scripts
    | StartSave
    | StartRestore
    | Advance(stamp: nat)                 // the next file operation; a new file gets this stamp
    | Fail                                // the operation raises, the script exits with 1
    | Interrupt

  predicate Running(s: State) { !s.proc.Idle? && !s.proc.Exit? }

  /** One event, or None when it cannot happen.  Disk and cache are left alone by others while a script runs. */
  function Step(s: State, e: Event): Option<State> {
    match e
    case InputsChange(k) => Some(s.(key := k))
    case DiskChange(c) => if Running(s) then None else Some(s.(disk := c, proc := Idle))
    case CacheOverwritten(c, stamp) =>
      if Running(s) || stamp in s.born then None
      else Some(s.(cache := Some(File(c, stamp)), born := s.born[stamp := c]))
    case CacheLost => if Running(s) then None else Some(s.(cache := None))
    case MetaLost => if Running(s) then None else Some(s.(meta := None))
    case StartSave => if Running(s) then None else Some(s.(proc := SaveCopy(s.key)))
    case StartRestore => if Running(s) then None else Some(s.(proc := ReadMeta(s.disk)))
    case Interrupt => Some(s.(proc := Idle))
    case Fail => if Running(s) then Some(s.(proc := Idle)) else None
    case Advance(stamp) => if AdvanceSave(s, stamp).Some? then AdvanceSave(s, stamp) else AdvanceRestore(s)
  }

  /** The next file operation of `save`. */
  function AdvanceSave(s: State, stamp: nat): Option<State> {
    match s.proc
    case SaveCopy(before) => Some(s.(proc := SaveCheck(before, s.disk)))
    case SaveCheck(before, temp) =>
      if before != s.key then Some(s.(proc := Idle))
      else Some(s.(proc := SaveReplace(before, temp), captured := s.captured + {(before, temp)}))
    case SaveReplace(before, temp) =>
      if stamp in s.born then None
      else Some(s.(cache := Some(File(temp, stamp)), born := s.born[stamp := temp], proc := SaveStat(before)))
    case SaveStat(before) =>
      if s.cache.None? then Some(s.(proc := Idle))
      else Some(s.(proc := SaveMeta(before, s.cache.value.stamp)))
    case SaveMeta(before, st) => Some(s.(meta := Some(Meta(before, st)), proc := Idle))
    case _ => None
  }

  /** The next file operation of `restore`. */
  function AdvanceRestore(s: State): Option<State> {
    match s.proc
    case ReadMeta(disk) =>
      if s.meta.None? then Some(s.(proc := Exit(3, disk, None)))
      else Some(s.(proc := CheckStamp(disk, s.meta.value)))
    case CheckStamp(disk, m) =>
      if s.cache.None? || s.cache.value.stamp != m.stamp then Some(s.(proc := Exit(3, disk, None)))
      else Some(s.(proc := CheckKey(disk, m)))
    case CheckKey(disk, m) =>
      if m.fingerprint != s.key then Some(s.(proc := Exit(3, disk, Some(s.key))))
      else Some(s.(proc := Clone(disk, m)))
    case Clone(disk, m) =>
      if s.cache.None? then Some(s.(proc := Idle))
      else Some(s.(proc := Partition(disk, m, s.cache.value.content)))
    case Partition(disk, m, temp) => Some(s.(proc := CheckAgain(disk, m, temp)))
    case CheckAgain(disk, m, temp) =>
      if m.fingerprint != s.key then Some(s.(proc := Exit(3, disk, Some(s.key))))
      else Some(s.(proc := ReplaceDisk(disk, m, temp)))
    case ReplaceDisk(disk, m, temp) => Some(s.(disk := temp, proc := Snapshot(disk, m)))
    case Snapshot(disk, m) => Some(s.(proc := Exit(0, disk, Some(m.fingerprint))))
    case _ => None
  }

  // ----- The invariant

  /** A save has vouched for this metadata: its stamp was given to a capture under its fingerprint. */
  ghost predicate Vouched(s: State, m: Meta) {
    m.stamp in s.born && (m.fingerprint, s.born[m.stamp]) in s.captured
  }

  ghost predicate ProcInv(s: State) {
    match s.proc
    case SaveCheck(_, temp) => s.disk == temp
    case SaveReplace(before, temp) => (before, temp) in s.captured
    case SaveStat(before) => s.cache.Some? && (before, s.cache.value.content) in s.captured
    case SaveMeta(before, stamp) => Vouched(s, Meta(before, stamp))
    case ReadMeta(disk) => s.disk == disk
    case CheckStamp(disk, m) => s.disk == disk && Vouched(s, m)
    case CheckKey(disk, m) => s.disk == disk && Vouched(s, m) && s.cache.Some? && s.cache.value.stamp == m.stamp
    case Clone(disk, m) => s.disk == disk && Vouched(s, m) && s.cache.Some? && s.cache.value.stamp == m.stamp
    case Partition(disk, m, temp) => s.disk == disk && (m.fingerprint, temp) in s.captured
    case CheckAgain(disk, m, temp) => s.disk == disk && (m.fingerprint, temp) in s.captured
    case ReplaceDisk(disk, m, temp) => s.disk == disk && (m.fingerprint, temp) in s.captured
    case Snapshot(disk, m) => (m.fingerprint, s.disk) in s.captured
    case Exit(code, disk, seen) =>
      && (code == 0 || code == 3)
      && (code == 3 ==> s.disk == disk)
      && (code == 0 ==> seen.Some? && (seen.value, s.disk) in s.captured)
    case _ => true
  }

  ghost predicate Inv(s: State) {
    && (s.cache.Some? ==> s.cache.value.stamp in s.born && s.born[s.cache.value.stamp] == s.cache.value.content)
    && (s.meta.Some? ==> Vouched(s, s.meta.value))
    && ProcInv(s)
  }

  lemma StepKeepsInv(s: State, e: Event)
    requires Inv(s) && Step(s, e).Some?
    ensures Inv(Step(s, e).value)
  {
    if e.Advance? {
      if AdvanceSave(s, e.stamp).Some? { SaveKeepsInv(s, e.stamp); } else { RestoreKeepsInv(s); }
    }
  }

  lemma SaveKeepsInv(s: State, stamp: nat)
    requires Inv(s) && AdvanceSave(s, stamp).Some?
    ensures Inv(AdvanceSave(s, stamp).value)
  {
    match s.proc { case SaveReplace(_, _) => case _ => }
  }

  lemma RestoreKeepsInv(s: State)
    requires Inv(s) && AdvanceRestore(s).Some?
    ensures Inv(AdvanceRestore(s).value)
  {
    match s.proc { case Clone(_, _) => case _ => }
  }

  // ----- Whole histories

  ghost predicate IsHistory(h: seq<State>) {
    |h| >= 1
    && h[0].cache == None && h[0].meta == None && h[0].proc == Idle && h[0].captured == {}
    && forall i :: 0 <= i < |h| - 1 ==> StepAt(h, i)
  }

  ghost predicate StepAt(h: seq<State>, i: nat)
    requires i < |h| - 1
  {
    Follows(h[i], h[i + 1])
  }

  ghost predicate Follows(s: State, s': State) { exists e :: Step(s, e) == Some(s') }

  lemma {:induction false} HistoryInv(h: seq<State>, i: nat)
    requires IsHistory(h) && i < |h|
    ensures Inv(h[i])
    decreases i
  {
    if i > 0 {
      HistoryInv(h, i - 1);
      assert StepAt(h, i - 1);
      var e :| Step(h[i - 1], e) == Some(h[i]);
      StepKeepsInv(h[i - 1], e);
    }
  }

  /** A save captured this content: it compared fingerprints with this clone of the disk in hand. */
  ghost predicate SavedEarlier(h: seq<State>, i: nat, k: Key, c: Content)
    requires i < |h|
  {
    exists j :: 0 <= j < i && h[j].proc == SaveCheck(k, c) && h[j].key == k && h[j].disk == c
  }

  /** Captures come from saves and from nowhere else. */
  lemma {:induction false} CapturesAreSaves(h: seq<State>, i: nat, k: Key, c: Content)
    requires IsHistory(h) && i < |h| && (k, c) in h[i].captured
    ensures SavedEarlier(h, i, k, c)
    decreases i
  {
    if i > 0 {
      assert StepAt(h, i - 1);
      var e :| Step(h[i - 1], e) == Some(h[i]);
      if (k, c) in h[i - 1].captured {
        CapturesAreSaves(h, i - 1, k, c);
        var j :| 0 <= j < i - 1 && h[j].proc == SaveCheck(k, c) && h[j].key == k && h[j].disk == c;
        assert 0 <= j < i;
      } else {
        HistoryInv(h, i - 1);
        assert h[i - 1].proc == SaveCheck(k, c) && h[i - 1].key == k && h[i - 1].disk == c;
      }
    }
  }

  // ----- One run of restore

  predicate Restoring(p: Proc) {
    p.ReadMeta? || p.CheckStamp? || p.CheckKey? || p.Clone? || p.Partition? || p.CheckAgain? || p.ReplaceDisk?
    || p.Snapshot? || p.Exit?
  }

  /** A restore starts with state `j`. */
  predicate Started(h: seq<State>, j: nat)
    requires j < |h|
  {
    j > 0 && !Running(h[j - 1]) && h[j].proc.ReadMeta?
  }

  /** The states from `j` to `i` belong to one restore, which starts with state `j`. */
  ghost predicate OneRun(h: seq<State>, j: nat, i: nat)
    requires i < |h|
  {
    && j <= i && Started(h, j)
    && forall l :: j < l <= i ==> Restoring(h[l].proc) && !Started(h, l)
  }

  /** The disk is the same from state `j` to state `i`. */
  ghost predicate SameDisk(h: seq<State>, j: nat, i: nat)
    requires j <= i < |h|
  {
    forall l :: j <= l <= i ==> h[l].disk == h[j].disk
  }

  /** The restore has not replaced the disk. */
  predicate BeforeReplace(p: Proc) { Restoring(p) && !p.Snapshot? && !(p.Exit? && p.code == 0) }

  /** A step inside a restore. */
  lemma RestoreStep(s: State, s': State)
    requires Follows(s, s') && Restoring(s'.proc) && !(!Running(s) && s'.proc.ReadMeta?)
    ensures Restoring(s.proc) && s'.captured == s.captured
    ensures BeforeReplace(s'.proc) ==> BeforeReplace(s.proc) && s'.disk == s.disk
  {
    var e :| Step(s, e) == Some(s');
    if e.Advance? {
      AdvanceInRestore(s, e.stamp);
    }
  }

  lemma AdvanceInRestore(s: State, stamp: nat)
    ensures AdvanceSave(s, stamp).Some? ==> !Restoring(AdvanceSave(s, stamp).value.proc) && !Restoring(s.proc)
    ensures AdvanceRestore(s).Some? ==>
      var s' := AdvanceRestore(s).value;
      Restoring(s.proc) && s'.captured == s.captured && (BeforeReplace(s'.proc) ==> BeforeReplace(s.proc) && s'.disk == s.disk)
  {
  }

  lemma FirstIsIdle(h: seq<State>)
    requires IsHistory(h)
    ensures !Restoring(h[0].proc)
  {
  }

  /**
   Every restore has a start.  Between the two nothing is captured, and up to the
   replacement the disk stays what it was.
   */
  lemma {:induction false} RunHasStart(h: seq<State>, i: nat) returns (j: nat)
    requires IsHistory(h) && i < |h| && Restoring(h[i].proc)
    ensures OneRun(h, j, i) && h[i].captured == h[j].captured
    ensures BeforeReplace(h[i].proc) ==> SameDisk(h, j, i)
    decreases i
  {
    FirstIsIdle(h);
    if Started(h, i) {
      return i;
    }
    StepInRun(h, i);
    j := RunHasStart(h, i - 1);
    RunGrows(h, j, i);
  }

  lemma StepInRun(h: seq<State>, i: nat)
    requires IsHistory(h) && 0 < i < |h| && Restoring(h[i].proc) && !Started(h, i)
    ensures Restoring(h[i - 1].proc) && h[i].captured == h[i - 1].captured
    ensures BeforeReplace(h[i].proc) ==> BeforeReplace(h[i - 1].proc) && h[i].disk == h[i - 1].disk
  {
    assert StepAt(h, i - 1);
    RestoreStep(h[i - 1], h[i]);
  }

  lemma RunGrows(h: seq<State>, j: nat, i: nat)
    requires 0 < i < |h| && OneRun(h, j, i - 1) && Restoring(h[i].proc) && !Started(h, i)
    ensures OneRun(h, j, i)
    ensures SameDisk(h, j, i - 1) && h[i].disk == h[i - 1].disk ==> SameDisk(h, j, i)
  {
    if SameDisk(h, j, i - 1) { assert h[i - 1].disk == h[j].disk; }
  }

  /** The fingerprint a restore holds once it has compared it for the second time. */
  function Accepted(p: Proc): Option<Key> {
    match p
    case ReplaceDisk(_, m, _) => Some(m.fingerprint)
    case Snapshot(_, m) => Some(m.fingerprint)
    case Exit(code, _, seen) => if code == 0 then seen else None
    case _ => None
  }

  /** State `j` is the second comparison of the run that holds `k` in state `i`, and the inputs had that fingerprint. */
  ghost predicate Compared(h: seq<State>, j: nat, i: nat, k: Key)
    requires i < |h|
  {
    && j < i && h[j].proc.CheckAgain? && h[j].proc.m.fingerprint == k && h[j].key == k
    && forall l :: j < l <= i ==> Accepted(h[l].proc) == Some(k)
  }

  /** What is held was held before, or has just been compared. */
  lemma AcceptedStep(s: State, s': State)
    requires Follows(s, s') && Accepted(s'.proc).Some?
    ensures Accepted(s.proc) == Accepted(s'.proc)
      || (Accepted(s.proc).None? && s.proc.CheckAgain? && Some(s.key) == Some(s.proc.m.fingerprint) == Accepted(s'.proc))
  {
    var e :| Step(s, e) == Some(s');
  }

  lemma {:induction false} AcceptedWasCompared(h: seq<State>, i: nat) returns (j: nat)
    requires IsHistory(h) && i < |h| && Accepted(h[i].proc).Some?
    ensures Compared(h, j, i, Accepted(h[i].proc).value)
    decreases i
  {
    FirstIsIdle(h);
    assert StepAt(h, i - 1);
    AcceptedStep(h[i - 1], h[i]);
    if Accepted(h[i - 1].proc).Some? {
      j := AcceptedWasCompared(h, i - 1);
    } else {
      j := i - 1;
    }
  }

  /**
   In every history, with interruptions, failures and changes of inputs anywhere:
   when a restore exits with 0 the disk holds what a save before its start found on it
   while the inputs had a fingerprint that this very restore found again at its last
   comparison; when it exits with 3 the disk has not changed since its start.
   */
  lemma RestoreIsRight(h: seq<State>, i: nat)
    requires IsHistory(h) && i < |h| && h[i].proc.Exit?
    ensures h[i].proc.code == 0 || h[i].proc.code == 3
    ensures h[i].proc.code == 3 ==>
      exists start: nat :: OneRun(h, start, i) && SameDisk(h, start, i)
    ensures h[i].proc.code == 0 ==>
      exists start: nat, j: nat, k :: OneRun(h, start, i) && start < j && Compared(h, j, i, k) && SavedEarlier(h, start, k, h[i].disk)
  {
    HistoryInv(h, i);
    var start := RunHasStart(h, i);
    if h[i].proc.code == 0 {
      var j := AcceptedWasCompared(h, i);
      var k := Accepted(h[i].proc).value;
      CapturesAreSaves(h, start, k, h[i].disk);
      ComparedInRun(h, start, j, i, k);
      assert OneRun(h, start, i) && start < j && Compared(h, j, i, k) && SavedEarlier(h, start, k, h[i].disk);
    }
  }

  /** The comparison lies in the run: its start has accepted nothing yet. */
  lemma ComparedInRun(h: seq<State>, start: nat, j: nat, i: nat, k: Key)
    requires i < |h| && OneRun(h, start, i) && Compared(h, j, i, k)
    ensures start < j
  {
    assert Accepted(h[start].proc) == None;
  }

  // ----- Runs that are not disturbed

  /** File operations a script still has to do. */
  function Steps(p: Proc): nat {
    match p
    case SaveCopy(_) => 5 case SaveCheck(_, _) => 4 case SaveReplace(_, _) => 3 case SaveStat(_) => 2 case SaveMeta(_, _) => 1
    case ReadMeta(_) => 8 case CheckStamp(_, _) => 7 case CheckKey(_, _) => 6 case Clone(_, _) => 5
    case Partition(_, _, _) => 4 case CheckAgain(_, _, _) => 3 case ReplaceDisk(_, _, _) => 2 case Snapshot(_, _) => 1
    case _ => 0
  }

  /** The script runs to its end; a file it creates gets this stamp. */
  function Finish(s: State, stamp: nat): State
    decreases Steps(s.proc)
  {
    match Step(s, Advance(stamp))
    case None => s
    case Some(s') => if Steps(s'.proc) < Steps(s.proc) then Finish(s', stamp) else s
  }

  /** A save that is not disturbed leaves the disk in the cache, under the fingerprint of the inputs. */
  lemma {:induction false} SaveSaves(s: State, stamp: nat)
    requires !Running(s) && stamp !in s.born
    ensures var t := Finish(s.(proc := SaveCopy(s.key)), stamp);
      && Step(s, StartSave) == Some(s.(proc := SaveCopy(s.key)))
      && t.proc == Idle && t.disk == s.disk && t.key == s.key
      && t.cache == Some(File(s.disk, stamp)) && t.meta == Some(Meta(s.key, stamp))
  {
    var k, c := s.key, s.disk;
    var s1 := s.(proc := SaveCheck(k, c));
    var s2 := s1.(proc := SaveReplace(k, c), captured := s.captured + {(k, c)});
    var s3 := s2.(cache := Some(File(c, stamp)), born := s.born[stamp := c], proc := SaveStat(k));
    var s4 := s3.(proc := SaveMeta(k, stamp));
    var s5 := s4.(meta := Some(Meta(k, stamp)), proc := Idle);
    assert Finish(s5, stamp) == s5;
    assert Finish(s4, stamp) == s5;
    assert Finish(s3, stamp) == s5;
    assert Finish(s2, stamp) == s5;
    assert Finish(s1, stamp) == s5;
  }

  /** What is in the cache fits the inputs. */
  predicate Usable(s: State) {
    s.meta.Some? && s.cache.Some? && s.cache.value.stamp == s.meta.value.stamp && s.meta.value.fingerprint == s.key
  }

  /** A restore that is not disturbed puts the cached bytes on the disk and exits with 0 if and only if the cache fits. */
  lemma {:induction false} RestoreRestores(s: State, stamp: nat)
    requires !Running(s)
    ensures var t := Finish(s.(proc := ReadMeta(s.disk)), stamp);
      && Step(s, StartRestore) == Some(s.(proc := ReadMeta(s.disk)))
      && t.proc.Exit? && (t.proc.code == 0 <==> Usable(s)) && (t.proc.code == 3 <==> !Usable(s))
      && t.disk == (if Usable(s) then s.cache.value.content else s.disk) && t.cache == s.cache && t.meta == s.meta
  {
    if Usable(s) { UsableRestored(s, stamp); } else { UnusableMissed(s, stamp); }
  }

  lemma {:induction false} UsableRestored(s: State, stamp: nat)
    requires Usable(s)
    ensures Finish(s.(proc := ReadMeta(s.disk)), stamp)
         == s.(disk := s.cache.value.content, proc := Exit(0, s.disk, Some(s.key)))
  {
    var d, m, c := s.disk, s.meta.value, s.cache.value.content;
    var s1, s2, s3 := s.(proc := CheckStamp(d, m)), s.(proc := CheckKey(d, m)), s.(proc := Clone(d, m));
    var s4, s5, s6 := s.(proc := Partition(d, m, c)), s.(proc := CheckAgain(d, m, c)), s.(proc := ReplaceDisk(d, m, c));
    var s7 := s.(disk := c, proc := Snapshot(d, m));
    var s8 := s7.(proc := Exit(0, d, Some(m.fingerprint)));
    assert Finish(s8, stamp) == s8;
    assert Finish(s7, stamp) == s8;
    assert Finish(s6, stamp) == s8;
    assert Finish(s5, stamp) == s8;
    assert Finish(s4, stamp) == s8;
    assert Finish(s3, stamp) == s8;
    assert Finish(s2, stamp) == s8;
    assert Finish(s1, stamp) == s8;
  }

  lemma {:induction false} UnusableMissed(s: State, stamp: nat)
    requires !Usable(s)
    ensures var t := Finish(s.(proc := ReadMeta(s.disk)), stamp);
      t.proc.Exit? && t.proc.code == 3 && t == s.(proc := t.proc)
  {
    var d := s.disk;
    if s.meta.None? {
      var s1 := s.(proc := Exit(3, d, None));
      assert Finish(s1, stamp) == s1;
    } else if s.cache.None? || s.cache.value.stamp != s.meta.value.stamp {
      var s1, s2 := s.(proc := CheckStamp(d, s.meta.value)), s.(proc := Exit(3, d, None));
      assert Finish(s2, stamp) == s2;
      assert Finish(s1, stamp) == s2;
    } else {
      var m := s.meta.value;
      var s1, s2 := s.(proc := CheckStamp(d, m)), s.(proc := CheckKey(d, m));
      var s3 := s.(proc := Exit(3, d, Some(s.key)));
      assert Finish(s3, stamp) == s3;
      assert Finish(s2, stamp) == s3;
      assert Finish(s1, stamp) == s3;
    }
  }

  /** With unchanged inputs a save followed by a restore brings the disk back, whatever happened to it in between. */
  lemma {:induction false} SaveThenRestore(s: State, stamp: nat, other: Content)
    requires !Running(s) && stamp !in s.born
    ensures var saved := Finish(s.(proc := SaveCopy(s.key)), stamp).(disk := other);
      var t := Finish(saved.(proc := ReadMeta(other)), stamp);
      t.proc.Exit? && t.proc.code == 0 && t.disk == s.disk
  {
    SaveSaves(s, stamp);
    RestoreRestores(Finish(s.(proc := SaveCopy(s.key)), stamp).(disk := other), stamp);
  }
}
