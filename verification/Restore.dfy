/** Restoring a snapshot: one attempt, and any number of interrupted attempts that share a resume file. */
module Restore {
  import opened Domain

  /** A restore that was asked for: the selected files, where each goes, and which places are allowed. */
  datatype Job = Job(store: Store, hash: Hash, files: seq<SnapshotFile>, at: string -> string, inBase: string -> bool)

  /** How moving a staged file into place goes; a copy that breaks off may leave a prefix behind. */
  datatype Move = Moves | Breaks(left: Option<nat>)

  /** What the surroundings do while one file is restored. */
  datatype FileEnv = FileEnv(
    cancelled: bool,      // at the head of the loop
    staged: bool,         // the staging directory for the file exists
    downloads: bool,
    cancelledLate: bool,  // after the download
    dirMade: bool,
    move: Move,
    readable: bool,       // the restored file can be read back
    saves: bool)          // the resume file can be replaced

  datatype State = State(
    targets: Disk,
    completed: set<string>,      // object keys done, in memory
    saved: Option<set<string>>,  // the resume file
    restored: nat,
    bytes: nat,
    failed: nat,
    fetched: seq<nat>)           // positions downloaded in this attempt

  function Stored(j: Job, f: SnapshotFile): Option<Bytes> {
    if f.backupPath in j.store && j.store[f.backupPath].Blob? then Some(j.store[f.backupPath].data) else None
  }

  /** Bytes are what the manifest promises: its size and, where recorded, its checksum. */
  predicate Checks(hash: Hash, f: SnapshotFile, data: Bytes) {
    |data| == f.size && (f.checksum.Some? ==> hash(data) == f.checksum.value)
  }

  predicate Sized(j: Job, targets: Disk, f: SnapshotFile) {
    j.at(f.sourcePath) in targets && |targets[j.at(f.sourcePath)]| == f.size
  }

  predicate Matches(j: Job, targets: Disk, f: SnapshotFile) {
    j.at(f.sourcePath) in targets && Checks(j.hash, f, targets[j.at(f.sourcePath)])
  }

  predicate Skips(j: Job, f: SnapshotFile, s: State) {
    f.backupPath in s.completed && Sized(j, s.targets, f)
  }

  /** The attempt ends at this file. */
  predicate Stops(j: Job, f: SnapshotFile, e: FileEnv, s: State) {
    e.cancelled || (!Skips(j, f, s) && e.staged && e.downloads && Stored(j, f).Some? && e.cancelledLate)
  }

  function Fail(s: State): State {
    s.(failed := s.failed + 1)
  }

  /** Put a downloaded object in its place and check it there. */
  function Place(j: Job, f: SnapshotFile, e: FileEnv, s: State, data: Bytes): State {
    if !j.inBase(j.at(f.sourcePath)) || !e.dirMade then Fail(s)
    else
      match e.move
      case Breaks(None) => Fail(s)
      case Breaks(Some(n)) =>
        Fail(s.(targets := s.targets[j.at(f.sourcePath) := if n <= |data| then data[..n] else data]))
      case Moves =>
        var t := s.(targets := s.targets[j.at(f.sourcePath) := data]);
        if !e.readable || !Checks(j.hash, f, data) then Fail(t)
        else t.(restored := t.restored + 1, bytes := t.bytes + f.size, completed := t.completed + {f.backupPath},
                saved := if e.saves then Some(t.completed + {f.backupPath}) else t.saved)
  }

  function Step(j: Job, m: nat, e: FileEnv, s: State): State
    requires m < |j.files|
  {
    var f := j.files[m];
    if e.cancelled then s
    else if Skips(j, f, s) then s.(restored := s.restored + 1, bytes := s.bytes + f.size)
    else
      var t := s.(completed := s.completed - {f.backupPath});
      if !e.staged then Fail(t)
      else
        var u := t.(fetched := t.fetched + [m]);
        if !e.downloads || Stored(j, f).None? then Fail(u)
        else if e.cancelledLate then u
        else Place(j, f, e, u, Stored(j, f).value)
  }

  /** The loop over the first `n` files, and whether it was stopped among them. */
  function After(j: Job, env: seq<FileEnv>, s: State, n: nat): State
    requires n <= |j.files| == |env|
  {
    if n == 0 then s
    else if StoppedBy(j, env, s, n - 1) then After(j, env, s, n - 1)
    else Step(j, n - 1, env[n - 1], After(j, env, s, n - 1))
  }

  predicate StoppedBy(j: Job, env: seq<FileEnv>, s: State, n: nat)
    requires n <= |j.files| == |env|
  {
    n > 0 && (StoppedBy(j, env, s, n - 1) || Stops(j, j.files[n - 1], env[n - 1], After(j, env, s, n - 1)))
  }

  // ------------------------------------------------ selection

  predicate Selected(f: SnapshotFile, prefixes: seq<string>) {
    prefixes == [] || exists i :: 0 <= i < |prefixes| && prefixes[i] <= f.sourcePath
  }

  /** The selected files, in manifest order. */
  function Selection(files: seq<SnapshotFile>, prefixes: seq<string>): seq<SnapshotFile> {
    if files == [] then []
    else
      var n := |files| - 1;
      Selection(files[..n], prefixes) + if Selected(files[n], prefixes) then [files[n]] else []
  }

  /** The positions of the files under one of the prefixes, or of all files if there is none. */
  function Chosen(files: seq<SnapshotFile>, prefixes: seq<string>): (at: seq<nat>)
    ensures forall k :: 0 <= k < |at| ==> at[k] < |files| && Selected(files[at[k]], prefixes)
    ensures forall k, l :: 0 <= k < l < |at| ==> at[k] < at[l]
    ensures forall m :: 0 <= m < |files| && Selected(files[m], prefixes) ==> m in at
  {
    if files == [] then []
    else
      var n := |files| - 1;
      var before := Chosen(files[..n], prefixes);
      assert forall m :: 0 <= m < n ==> files[..n][m] == files[m];
      before + if Selected(files[n], prefixes) then [n] else []
  }

  lemma {:induction false} SelectionIs(files: seq<SnapshotFile>, prefixes: seq<string>)
    ensures var at, r := Chosen(files, prefixes), Selection(files, prefixes);
            |r| == |at| && forall k :: 0 <= k < |at| ==> r[k] == files[at[k]]
  {
    if files != [] {
      var n := |files| - 1;
      SelectionIs(files[..n], prefixes);
      assert forall m :: 0 <= m < n ==> files[..n][m] == files[m];
    }
  }

  /** Keep the files whose source path starts with one of the prefixes; no prefix selects all. */
  method FilterFiles(files: seq<SnapshotFile>, prefixes: seq<string>) returns (matched: seq<SnapshotFile>)
    ensures matched == Selection(files, prefixes)
    ensures prefixes == [] ==> matched == files
    ensures var at := Chosen(files, prefixes);
            |matched| == |at| && forall k :: 0 <= k < |at| ==> matched[k] == files[at[k]]
  {
    SelectionIs(files, prefixes);
    if prefixes == [] {
      AllSelected(files);
      return files;
    }
    matched := [];
    for i := 0 to |files|
      invariant matched == Selection(files[..i], prefixes)
    {
      assert files[..i + 1][..i] == files[..i];
      var hit := false;
      for k := 0 to |prefixes|
        invariant !hit && forall q :: 0 <= q < k ==> !(prefixes[q] <= files[i].sourcePath)
      {
        if prefixes[k] <= files[i].sourcePath {
          hit := true;
          break;
        }
      }
      if hit { matched := matched + [files[i]]; }
    }
    assert files[..|files|] == files;
  }

  lemma {:induction false} AllSelected(files: seq<SnapshotFile>)
    ensures Selection(files, []) == files
  {
    if files != [] { AllSelected(files[..|files| - 1]); }
  }

  // ------------------------------------------------ one attempt

  datatype Status = Completed | Partial | Failed

  datatype AttemptEnv = AttemptEnv(
    cancelledFirst: bool,  // before anything is done
    manifestRead: bool,
    stagingMade: bool,
    loads: bool,           // the resume file can be read
    files: seq<FileEnv>,
    cancelledLast: bool,   // after the loop
    cleans: bool)          // the staging directory can be removed

  datatype Report = Report(status: Status, restored: nat, bytes: nat, failed: nat)

  /** What is left on the machine after an attempt. */
  datatype Left = Left(targets: Disk, saved: Option<set<string>>)

  function StartState(targets: Disk, saved: Option<set<string>>, loads: bool): State {
    State(targets, if loads && saved.Some? then saved.value else {}, saved, 0, 0, 0, [])
  }

  /** A cancelled attempt is partial once something was restored, failed before. */
  function CancelStatus(s: State): Status {
    if s.restored > 0 then Partial else Failed
  }

  function EndStatus(s: State): Status {
    if s.failed == 0 && s.restored > 0 then Completed else if s.restored == 0 then Failed else Partial
  }

  function Conclude(s: State, cancelled: bool, cleans: bool): (Report, Left) {
    var status := if cancelled then CancelStatus(s) else EndStatus(s);
    (Report(status, s.restored, s.bytes, s.failed),
     Left(s.targets, if status.Completed? && cleans then None else s.saved))
  }

  function Attempt(j: Job, env: AttemptEnv, was: Left): (Report, Left)
    requires |env.files| == |j.files|
  {
    if env.cancelledFirst || !env.manifestRead then (Report(Failed, 0, 0, 0), was)
    else if j.files == [] then (Report(Completed, 0, 0, 0), was)
    else if !env.stagingMade then (Report(Failed, 0, 0, 0), was)
    else
      var s := StartState(was.targets, was.saved, env.loads);
      var n := |j.files|;
      Conclude(After(j, env.files, s, n), StoppedBy(j, env.files, s, n) || env.cancelledLast, env.cleans)
  }

  /** The machine a snapshot is restored onto. */
  class Machine {
    var targets: Disk
    var saved: Option<set<string>>

    /** One attempt, file by file. */
    method RestoreFromSnapshot(j: Job, env: AttemptEnv) returns (report: Report)
      requires |env.files| == |j.files|
      modifies this
      ensures (report, Left(targets, saved)) == Attempt(j, env, Left(old(targets), old(saved)))
    {
      report := Report(Failed, 0, 0, 0);
      if env.cancelledFirst || !env.manifestRead { return; }
      if j.files == [] {
        report := Report(Completed, 0, 0, 0);
        return;
      }
      if !env.stagingMade { return; }
      var s := StartState(targets, saved, env.loads);
      ghost var start := s;
      var cancelled := false;
      for i := 0 to |j.files|
        invariant !StoppedBy(j, env.files, start, i) && !cancelled
        invariant s == After(j, env.files, start, i) && s.targets == targets && s.saved == saved
      {
        var f, e := j.files[i], env.files[i];
        var stop := Stops(j, f, e, s);
        s := RestoreOne(j, i, e, s);
        if stop {
          StoppedStays(j, env.files, start, i + 1, |j.files|);
          cancelled := true;
          break;
        }
      }
      if !cancelled && env.cancelledLast { cancelled := true; }
      var status := if cancelled then CancelStatus(s) else EndStatus(s);
      if status.Completed? && env.cleans { saved := None; }
      report := Report(status, s.restored, s.bytes, s.failed);
    }

    /** One file: skip it, or download it, put it in place, check it and remember it. */
    method RestoreOne(j: Job, m: nat, e: FileEnv, s: State) returns (t: State)
      requires m < |j.files| && s.targets == targets && s.saved == saved
      modifies this
      ensures t == Step(j, m, e, s) && t.targets == targets && t.saved == saved
    {
      t := s;
      var f := j.files[m];
      if e.cancelled { return; }
      var target := j.at(f.sourcePath);
      if f.backupPath in t.completed {
        if target in targets && |targets[target]| == f.size {
          t := t.(restored := t.restored + 1, bytes := t.bytes + f.size);
          return;
        }
      }
      t := t.(completed := t.completed - {f.backupPath});
      if !e.staged { t := Fail(t); return; }
      t := t.(fetched := t.fetched + [m]);
      var item := Stored(j, f);
      if !e.downloads || item.None? { t := Fail(t); return; }
      if e.cancelledLate { return; }
      if !j.inBase(target) || !e.dirMade { t := Fail(t); return; }
      var data := item.value;
      if e.move.Breaks? {
        if e.move.left.Some? {
          targets := targets[target := if e.move.left.value <= |data| then data[..e.move.left.value] else data];
          t := t.(targets := targets);
        }
        t := Fail(t);
        return;
      }
      targets := targets[target := data];
      t := t.(targets := targets);
      if !e.readable || !Checks(j.hash, f, targets[target]) { t := Fail(t); return; }
      t := t.(restored := t.restored + 1, bytes := t.bytes + f.size, completed := t.completed + {f.backupPath});
      if e.saves {
        saved := Some(t.completed);
        t := t.(saved := saved);
      }
    }
  }

  lemma {:induction false} StoppedStays(j: Job, env: seq<FileEnv>, s: State, n: nat, m: nat)
    requires n <= m <= |j.files| == |env| && StoppedBy(j, env, s, n)
    ensures StoppedBy(j, env, s, m) && After(j, env, s, m) == After(j, env, s, n)
  {
    if n < m { StoppedStays(j, env, s, n, m - 1); }
  }
}
