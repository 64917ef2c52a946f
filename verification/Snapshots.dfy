/**
 * MemStorage.Save: a snapshot written to a temporary file and renamed over the
 * target, attempt after attempt, while the storage keeps changing and the
 * machine may stop at any point.
 */
module Snapshots {
  import opened Wrappers
  import opened Models
  import opened Memory

  type Bytes = seq<bv8>

  /**
   * encoding/json, of which only this is needed: what was encoded is decoded
   * again. There are values it cannot encode, such as a gauge that is not a number.
   */
  datatype Codec = Codec(encode: seq<Sample> -> Option<Bytes>, decode: Bytes -> Option<seq<Sample>>) {
    ghost predicate RoundTrips() {
      forall ms :: encode(ms).Some? ==> decode(encode(ms).value) == Some(ms)
    }
  }

  /** A file as other processes see it, whether a crash can still lose its contents, and its permissions. */
  datatype File = File(data: Bytes, synced: bool, mode: nat)

  /** The permissions os.CreateTemp gives a file, rw-------, and those of a finished snapshot, rw-r--r--. */
  const PRIVATE := 384
  const SHARED := 420

  type Disk = map<string, File>

  /** Where one call of save stands; the temporary file it works on is named tmp. */
  datatype Phase =
    | Ready
    | Encoded(data: Bytes)
    | Writing(tmp: string, data: Bytes)
    | Written(tmp: string, data: Bytes)
    | Synced(tmp: string, data: Bytes)
    | Closed(tmp: string, data: Bytes)
    | Readable(tmp: string, data: Bytes)
    | Cleaning(tmp: string)
    | Failed
    | Done(saved: bool)

  /**
   * current is what the storage holds; held are the states it has held since
   * Save was called. before is the disk at that moment, and litter the
   * temporary files whose removal failed.
   */
  datatype State = State(phase: Phase, attempt: nat, disk: Disk, current: Store, held: set<Store>, before: Disk,
                         litter: set<string>)

  /** What Save is called with. */
  datatype Call = Call(path: string, codec: Codec, schedule: nat)

  datatype Step =
    | Update(s: Store)
    | Snapshot(ms: seq<Sample>)
    | CreateTemp(suffix: string)
    | WriteSome(n: nat)
    | WriteAll
    | Sync
    | Close
    | Chmod
    | Rename
    | OperationFails
    | Remove(removed: bool)
    | Repeat
    | GiveUp

  /** The name os.CreateTemp builds for the pattern of the path. */
  function TempName(path: string, suffix: string): string {
    path + ".tmp-" + suffix
  }

  ghost predicate Init(s: State) {
    s.phase == Ready && s.attempt == 0 && s.held == {s.current} && s.before == s.disk && s.litter == {}
  }

  ghost predicate Next(c: Call, s: State, step: Step, s': State) {
    match step
    // other goroutines keep writing metrics
    case Update(u) => s' == s.(current := u, held := s.held + {u})
    case Snapshot(ms) =>
      && s.phase.Ready? && IsSnapshot(ms, s.current)
      && var data := c.codec.encode(ms);
      && s' == s.(phase := if data.Some? then Encoded(data.value) else Failed)
    case CreateTemp(suffix) =>
      && s.phase.Encoded? && TempName(c.path, suffix) !in s.disk
      && s' == s.(phase := Writing(TempName(c.path, suffix), s.phase.data),
                  disk := s.disk[TempName(c.path, suffix) := File([], false, PRIVATE)])
    // some of the data has reached the file
    case WriteSome(n) =>
      && s.phase.Writing? && n <= |s.phase.data|
      && s' == s.(disk := s.disk[s.phase.tmp := File(s.phase.data[..n], false, PRIVATE)])
    case WriteAll =>
      && s.phase.Writing?
      && s' == s.(phase := Written(s.phase.tmp, s.phase.data),
                  disk := s.disk[s.phase.tmp := File(s.phase.data, false, PRIVATE)])
    case Sync =>
      && s.phase.Written? && s.phase.tmp in s.disk
      && s' == s.(phase := Synced(s.phase.tmp, s.phase.data),
                  disk := s.disk[s.phase.tmp := s.disk[s.phase.tmp].(synced := true)])
    case Close => s.phase.Synced? && s' == s.(phase := Closed(s.phase.tmp, s.phase.data))
    case Chmod =>
      && s.phase.Closed? && s.phase.tmp in s.disk
      && s' == s.(phase := Readable(s.phase.tmp, s.phase.data),
                  disk := s.disk[s.phase.tmp := s.disk[s.phase.tmp].(mode := SHARED)])
    case Rename =>
      && s.phase.Readable? && s.phase.tmp in s.disk
      && s' == s.(phase := Done(true), disk := (s.disk - {s.phase.tmp})[c.path := s.disk[s.phase.tmp]])
    // any operation on files reports an error instead; what it wrote may remain, a failed rename has no effect
    case OperationFails => (
      match s.phase
      case Encoded(_) => s' == s.(phase := Failed)
      case Writing(tmp, _) => s' == s.(phase := Cleaning(tmp))
      case Written(tmp, _) => s' == s.(phase := Cleaning(tmp))
      case Synced(tmp, _) => s' == s.(phase := Cleaning(tmp))
      case Closed(tmp, _) => s' == s.(phase := Cleaning(tmp))
      case Readable(tmp, _) => s' == s.(phase := Cleaning(tmp))
      case _ => false)
    case Remove(removed) =>
      && s.phase.Cleaning?
      && s' == if removed then s.(phase := Failed, disk := s.disk - {s.phase.tmp})
               else s.(phase := Failed, litter := s.litter + {s.phase.tmp})
    // the retry driver: a new attempt starts from a new snapshot, or the error is returned
    case Repeat => s.phase.Failed? && s.attempt < c.schedule && s' == s.(phase := Ready, attempt := s.attempt + 1)
    case GiveUp => s.phase.Failed? && s' == s.(phase := Done(false))
  }

  ghost predicate IsRun(c: Call, states: seq<State>, steps: seq<Step>) {
    && |states| == |steps| + 1 && Init(states[0])
    && forall n | 0 <= n < |steps| :: Next(c, states[n], steps[n], states[n + 1])
  }

  function Lookup(d: Disk, name: string): Option<File> {
    if name in d then Some(d[name]) else None
  }

  /** data is a whole snapshot of a state held during the call. */
  ghost predicate Complete(c: Call, held: set<Store>, data: Bytes) {
    exists ms, s :: s in held && IsSnapshot(ms, s) && c.codec.encode(ms) == Some(data)
  }

  /** The temporary file is not the target, and holds all of the snapshot from the point where that is known. */
  ghost predicate TempOk(c: Call, s: State, tmp: string, data: Bytes, written: bool, synced: bool) {
    && tmp != c.path && tmp !in s.before && tmp in s.disk && Complete(c, s.held, data)
    && (written ==> s.disk[tmp].data == data) && (synced ==> s.disk[tmp].synced)
  }

  ghost predicate PhaseOk(c: Call, s: State) {
    match s.phase
    case Encoded(data) => Complete(c, s.held, data)
    case Writing(tmp, data) => TempOk(c, s, tmp, data, false, false)
    case Written(tmp, data) => TempOk(c, s, tmp, data, true, false)
    case Synced(tmp, data) => TempOk(c, s, tmp, data, true, true)
    case Closed(tmp, data) => TempOk(c, s, tmp, data, true, true)
    case Readable(tmp, data) => TempOk(c, s, tmp, data, true, true) && s.disk[tmp].mode == SHARED
    case Cleaning(tmp) => tmp != c.path && tmp !in s.before && tmp in s.disk
    case _ => true
  }

  /** The target holds a whole snapshot that a crash cannot take back and that others can read. */
  ghost predicate IsSaved(c: Call, held: set<Store>, disk: Disk) {
    && c.path in disk && disk[c.path].synced && disk[c.path].mode == SHARED
    && Complete(c, held, disk[c.path].data)
  }

  /** The target is as it was, or a whole snapshot that a crash cannot take back. */
  ghost predicate TargetOk(c: Call, s: State) {
    if s.phase == Done(true)
    then IsSaved(c, s.held, s.disk)
    else Lookup(s.disk, c.path) == Lookup(s.before, c.path)
  }

  /** The temporary file being worked on. */
  function Temps(p: Phase): set<string> {
    match p
    case Writing(tmp, _) => {tmp}
    case Written(tmp, _) => {tmp}
    case Synced(tmp, _) => {tmp}
    case Closed(tmp, _) => {tmp}
    case Readable(tmp, _) => {tmp}
    case Cleaning(tmp) => {tmp}
    case _ => {}
  }

  /** All other files are as they were, and the only new ones are temporary. */
  ghost predicate ElsewhereOk(c: Call, s: State) {
    && (forall name | name in s.before && name != c.path :: Lookup(s.disk, name) == Some(s.before[name]))
    && s.disk.Keys <= s.before.Keys + s.litter + Temps(s.phase) + {c.path}
  }

  ghost predicate Inv(c: Call, s: State) {
    && s.current in s.held && s.attempt <= c.schedule
    && PhaseOk(c, s) && TargetOk(c, s) && ElsewhereOk(c, s)
  }

  lemma CompleteStays(c: Call, held: set<Store>, u: Store, data: Bytes)
    requires Complete(c, held, data)
    ensures Complete(c, held + {u}, data)
  {
    var ms, s :| s in held && IsSnapshot(ms, s) && c.codec.encode(ms) == Some(data);
    assert s in held + {u};
  }

  lemma UpdateKeeps(c: Call, s: State, u: Store)
    requires Inv(c, s)
    ensures Inv(c, s.(current := u, held := s.held + {u}))
  {
    forall data | Complete(c, s.held, data)
      ensures Complete(c, s.held + {u}, data)
    {
      CompleteStays(c, s.held, u, data);
    }
  }

  lemma StepKeeps(c: Call, s: State, step: Step, s': State)
    requires Inv(c, s) && Next(c, s, step, s')
    ensures Inv(c, s') && s'.before == s.before
  {
    match step
    case Update(u) => UpdateKeeps(c, s, u);
    case Snapshot(ms) =>
      assert s'.phase.Encoded? ==> Complete(c, s.held, s'.phase.data);
    case CreateTemp(suffix) =>
      assert |TempName(c.path, suffix)| > |c.path|;
      assert TempName(c.path, suffix) !in s.before;
    case _ =>
  }

  lemma {:induction false} RunKeeps(c: Call, states: seq<State>, steps: seq<Step>, n: nat)
    requires IsRun(c, states, steps) && n <= |steps|
    ensures Inv(c, states[n]) && states[n].before == states[0].disk
  {
    if n > 0 {
      RunKeeps(c, states, steps, n - 1);
      StepKeeps(c, states[n - 1], steps[n - 1], states[n]);
    }
  }

  /** The states held are those the storage was in from the start of the call on, and no others. */
  lemma {:induction false} HeldAreTheStates(c: Call, states: seq<State>, steps: seq<Step>, n: nat)
    requires IsRun(c, states, steps) && n <= |steps|
    ensures forall s :: s in states[n].held <==> exists m :: 0 <= m <= n && states[m].current == s
  {
    if n > 0 {
      HeldAreTheStates(c, states, steps, n - 1);
      assert Next(c, states[n - 1], steps[n - 1], states[n]);
      assert states[n].held == states[n - 1].held + {states[n].current} by {
        RunKeeps(c, states, steps, n - 1);
      }
    }
  }

  /** A temporary file stays only where removing it failed. */
  lemma {:induction false} LitterIsOfFailedRemovals(c: Call, states: seq<State>, steps: seq<Step>, n: nat, tmp: string)
    requires IsRun(c, states, steps) && n <= |steps| && tmp in states[n].litter
    ensures exists m :: 0 <= m < n && steps[m] == Remove(false) && states[m].phase == Cleaning(tmp)
  {
    assert Next(c, states[n - 1], steps[n - 1], states[n]);
    if tmp in states[n - 1].litter {
      LitterIsOfFailedRemovals(c, states, steps, n - 1, tmp);
    }
  }

  /** Where no operation fails an attempt saves the snapshot it took, and changes no file but the target. */
  lemma AttemptCanSucceed(c: Call, s: State, ms: seq<Sample>, suffix: string)
    returns (states: seq<State>, steps: seq<Step>)
    requires s.phase.Ready? && IsSnapshot(ms, s.current) && c.codec.encode(ms).Some?
    requires TempName(c.path, suffix) !in s.disk
    ensures |states| == |steps| + 1 == 8 && states[0] == s
    ensures forall n | 0 <= n < |steps| :: Next(c, states[n], steps[n], states[n + 1])
    ensures states[7].phase == Done(true)
    ensures states[7].disk == s.disk[c.path := File(c.codec.encode(ms).value, true, SHARED)]
  {
    var data, tmp := c.codec.encode(ms).value, TempName(c.path, suffix);
    assert |tmp| > |c.path|;
    var s1 := s.(phase := Encoded(data));
    var s2 := s1.(phase := Writing(tmp, data), disk := s.disk[tmp := File([], false, PRIVATE)]);
    var s3 := s2.(phase := Written(tmp, data), disk := s2.disk[tmp := File(data, false, PRIVATE)]);
    var s4 := s3.(phase := Synced(tmp, data), disk := s3.disk[tmp := File(data, true, PRIVATE)]);
    var s5 := s4.(phase := Closed(tmp, data));
    var s6 := s5.(phase := Readable(tmp, data), disk := s5.disk[tmp := File(data, true, SHARED)]);
    var s7 := s6.(phase := Done(true), disk := (s6.disk - {tmp})[c.path := File(data, true, SHARED)]);
    states := [s, s1, s2, s3, s4, s5, s6, s7];
    steps := [Snapshot(ms), CreateTemp(suffix), WriteAll, Sync, Close, Chmod, Rename];
    assert s6.disk - {tmp} == s.disk;
  }

  /**
   * What may be found under the target's name after the machine stops in
   * state s: the file of that moment, its contents arbitrary unless they were
   * flushed, or the file of before, as a rename may not have reached the disk.
   */
  ghost predicate CrashLeaves(c: Call, s: State, found: Option<Bytes>) {
    || (Lookup(s.before, c.path).None? && found.None?)
    || (Lookup(s.before, c.path).Some? && found == Some(s.before[c.path].data))
    || (Lookup(s.disk, c.path).Some? && found.Some? && (s.disk[c.path].synced ==> found == Some(s.disk[c.path].data)))
  }

  /** The file found is the one that was there, or a whole snapshot. */
  ghost predicate OldOrComplete(c: Call, s: State, found: Option<Bytes>) {
    || found == (if c.path in s.before then Some(s.before[c.path].data) else None)
    || (found.Some? && Complete(c, s.held, found.value))
  }

  /**
   * Crash safety. Wherever in any attempt the machine stops, the target holds
   * what it held before the call or a complete snapshot of one state the
   * storage held during it, as long as what was there before had been flushed.
   */
  lemma CrashSafe(c: Call, states: seq<State>, steps: seq<Step>, n: nat, found: Option<Bytes>)
    requires IsRun(c, states, steps) && n <= |steps|
    requires c.path in states[0].disk ==> states[0].disk[c.path].synced
    requires CrashLeaves(c, states[n], found)
    ensures OldOrComplete(c, states[n], found)
  {
    RunKeeps(c, states, steps, n);
  }

  /**
   * Save returns nil only with a complete, flushed snapshot in place that
   * others can read, and an error only with the target untouched. Either way the other files are as
   * they were, and a temporary file is left behind only if it could not be removed.
   */
  lemma SaveReportsWhatItDid(c: Call, states: seq<State>, steps: seq<Step>, n: nat)
    requires IsRun(c, states, steps) && n <= |steps| && states[n].phase.Done?
    ensures states[n].phase.saved ==> IsSaved(c, states[n].held, states[n].disk)
    ensures !states[n].phase.saved ==> Lookup(states[n].disk, c.path) == Lookup(states[0].disk, c.path)
    ensures states[n].attempt <= c.schedule
    ensures forall name | name in states[0].disk && name != c.path ::
              Lookup(states[n].disk, name) == Some(states[0].disk[name])
    ensures states[n].disk.Keys <= states[0].disk.Keys + {c.path} + states[n].litter
  {
    RunKeeps(c, states, steps, n);
  }

  /**
   * Save and Load together: a complete snapshot found after a crash, loaded
   * into any storage, lays one of the states held during the call over it, and
   * loading it again changes nothing.
   */
  lemma LoadAfterCrash(c: Call, held: set<Store>, data: Bytes, s: Store) returns (saved: Store)
    requires c.codec.RoundTrips() && Complete(c, held, data)
    ensures saved in held && c.codec.decode(data).Some?
    ensures var ms := c.codec.decode(data).value;
            && RestoreAll(s, ms) == Overlay(s, saved) && CountUnusable(ms) == 0
            && RestoreAll(RestoreAll(s, ms), ms) == RestoreAll(s, ms)
  {
    var ms, t :| t in held && IsSnapshot(ms, t) && c.codec.encode(ms) == Some(data);
    saved := t;
    LoadRestoresSnapshot(s, ms, t);
    LoadTwiceIsLoadOnce(s, ms);
  }
}
