/** Restores that were interrupted any number of times finish with every file in place. */
module RestoreResume {
  import opened Domain
  import opened Restore
  import Keys

  /** Every selected file's object is present and as the manifest promises. */
  predicate Whole(j: Job) {
    forall m :: 0 <= m < |j.files| ==>
      Stored(j, j.files[m]).Some? && Checks(j.hash, j.files[m], Stored(j, j.files[m]).value)
  }

  predicate DistinctTargets(j: Job) {
    forall a, b :: 0 <= a < b < |j.files| ==> j.at(j.files[a].sourcePath) != j.at(j.files[b].sourcePath)
  }

  predicate InBase(j: Job) {
    forall m :: 0 <= m < |j.files| ==> j.inBase(j.at(j.files[m].sourcePath))
  }

  /** Another selected file has the same object. */
  predicate Shared(j: Job, m: nat)
    requires m < |j.files|
  {
    exists k :: 0 <= k < |j.files| && k != m && j.files[k].backupPath == j.files[m].backupPath
  }

  /** If the file at the target has the right size, it is the right file. */
  predicate Trusty(j: Job, targets: Disk, f: SnapshotFile) {
    Sized(j, targets, f) ==> Matches(j, targets, f)
  }

  /** Size is enough evidence for every file that may be skipped. */
  predicate Safe(j: Job, targets: Disk, done: set<string>) {
    forall m :: 0 <= m < |j.files| ==>
      Trusty(j, targets, j.files[m]) || (!Shared(j, m) && j.files[m].backupPath !in done)
  }

  predicate SafeState(j: Job, s: State) {
    Safe(j, s.targets, s.completed) && (s.saved.Some? ==> Safe(j, s.targets, s.saved.value))
  }

  predicate SafeLeft(j: Job, l: Left) {
    Safe(j, l.targets, if l.saved.Some? then l.saved.value else {})
  }

  /** Two disks differ at most at one path. */
  predicate OnlyAt(a: Disk, b: Disk, path: string) {
    forall p :: p in a.Keys + b.Keys && p != path ==> p in a && p in b && a[p] == b[p]
  }

  /** Only the file's own target changes, and it is never left with the right size and wrong bytes. */
  predicate OwnWrite(j: Job, f: SnapshotFile, before: Disk, after: Disk) {
    after == before || (Trusty(j, after, f) && OnlyAt(before, after, j.at(f.sourcePath)))
  }

  /** What one file can do to the state. */
  lemma {:induction false} StepShape(j: Job, m: nat, e: FileEnv, s: State)
    requires m < |j.files| && Whole(j)
    ensures var f, t := j.files[m], Step(j, m, e, s);
            && OwnWrite(j, f, s.targets, t.targets)
            && t.completed <= s.completed + {f.backupPath}
            && (f.backupPath in t.completed ==>
                  (f.backupPath in s.completed && t.targets == s.targets) || Matches(j, t.targets, f))
            && (t.saved == s.saved || t.saved == Some(t.completed))
  {
    var f := j.files[m];
    var data := Stored(j, f).value;
    var at := j.at(f.sourcePath);
    if !e.cancelled && !Skips(j, f, s) && e.staged && e.downloads && !e.cancelledLate && j.inBase(at) && e.dirMade {
      match e.move
      case Breaks(None) =>
      case Breaks(Some(n)) =>
        var d := if n <= |data| then data[..n] else data;
        assert Step(j, m, e, s).targets == s.targets[at := d];
        assert |d| == |data| ==> d == data;
      case Moves =>
        assert Step(j, m, e, s).targets == s.targets[at := data];
    }
  }

  lemma {:induction false} SafeKept(j: Job, m: nat, before: Disk, after: Disk, done: set<string>, more: set<string>)
    requires m < |j.files| && DistinctTargets(j) && Safe(j, before, done)
    requires OwnWrite(j, j.files[m], before, after) && more <= done + {j.files[m].backupPath}
    requires j.files[m].backupPath in more ==>
               (j.files[m].backupPath in done && after == before) || Matches(j, after, j.files[m])
    ensures Safe(j, after, more)
  {
    var f := j.files[m];
    forall k | 0 <= k < |j.files|
      ensures Trusty(j, after, j.files[k]) || (!Shared(j, k) && j.files[k].backupPath !in more)
    {
      if k != m {
        assert j.at(j.files[k].sourcePath) != j.at(f.sourcePath);
        assert Trusty(j, after, j.files[k]) == Trusty(j, before, j.files[k]);
        if j.files[k].backupPath == f.backupPath { assert Shared(j, k); }
      }
    }
  }

  /** The resume file, written earlier, stays safe too. */
  lemma {:induction false} SavedKept(j: Job, m: nat, before: Disk, after: Disk, saved: set<string>)
    requires m < |j.files| && DistinctTargets(j) && Safe(j, before, saved)
    requires OwnWrite(j, j.files[m], before, after)
    ensures Safe(j, after, saved)
  {
    forall k | 0 <= k < |j.files|
      ensures Trusty(j, after, j.files[k]) || (!Shared(j, k) && j.files[k].backupPath !in saved)
    {
      if k != m { assert j.at(j.files[k].sourcePath) != j.at(j.files[m].sourcePath); }
    }
  }

  lemma {:induction false} StepSafe(j: Job, m: nat, e: FileEnv, s: State)
    requires m < |j.files| && Whole(j) && DistinctTargets(j) && SafeState(j, s)
    ensures SafeState(j, Step(j, m, e, s))
  {
    var t := Step(j, m, e, s);
    StepShape(j, m, e, s);
    SafeKept(j, m, s.targets, t.targets, s.completed, t.completed);
    if s.saved.Some? { SavedKept(j, m, s.targets, t.targets, s.saved.value); }
  }

  lemma {:induction false} LoopSafe(j: Job, env: seq<FileEnv>, s: State, n: nat)
    requires n <= |j.files| == |env| && Whole(j) && DistinctTargets(j) && SafeState(j, s)
    ensures SafeState(j, After(j, env, s, n))
  {
    if n > 0 {
      LoopSafe(j, env, s, n - 1);
      if !StoppedBy(j, env, s, n - 1) { StepSafe(j, n - 1, env[n - 1], After(j, env, s, n - 1)); }
    }
  }

  lemma {:induction false} LessDone(j: Job, targets: Disk, done: set<string>)
    requires Safe(j, targets, done)
    ensures Safe(j, targets, {})
  {
  }

  lemma {:induction false} AttemptSafe(j: Job, env: AttemptEnv, was: Left)
    requires |env.files| == |j.files| && Whole(j) && DistinctTargets(j) && SafeLeft(j, was)
    ensures SafeLeft(j, Attempt(j, env, was).1)
  {
    if !env.cancelledFirst && env.manifestRead && j.files != [] && env.stagingMade {
      var s := StartState(was.targets, was.saved, env.loads);
      LessDone(j, was.targets, if was.saved.Some? then was.saved.value else {});
      LoopSafe(j, env.files, s, |j.files|);
      LessDone(j, After(j, env.files, s, |j.files|).targets, After(j, env.files, s, |j.files|).completed);
    }
  }

  /** What is left after a series of attempts. */
  function LeftAfter(j: Job, attempts: seq<AttemptEnv>, targets: Disk): Left
    requires forall i :: 0 <= i < |attempts| ==> |attempts[i].files| == |j.files|
  {
    if attempts == [] then Left(targets, None)
    else Attempt(j, attempts[|attempts| - 1], LeftAfter(j, attempts[..|attempts| - 1], targets)).1
  }

  lemma {:induction false} AttemptsSafe(j: Job, attempts: seq<AttemptEnv>, targets: Disk)
    requires forall i :: 0 <= i < |attempts| ==> |attempts[i].files| == |j.files|
    requires Whole(j) && DistinctTargets(j) && Safe(j, targets, {})
    ensures SafeLeft(j, LeftAfter(j, attempts, targets))
  {
    if attempts != [] {
      AttemptsSafe(j, attempts[..|attempts| - 1], targets);
      AttemptSafe(j, attempts[|attempts| - 1], LeftAfter(j, attempts[..|attempts| - 1], targets));
    }
  }

  // ------------------------------------------------ the attempt that finishes

  predicate Smooth(e: FileEnv) {
    !e.cancelled && e.staged && e.downloads && !e.cancelledLate && e.dirMade && e.move.Moves? && e.readable
  }

  predicate SmoothAttempt(env: AttemptEnv) {
    && !env.cancelledFirst && env.manifestRead && env.stagingMade && env.loads && !env.cancelledLast
    && forall m :: 0 <= m < |env.files| ==> Smooth(env.files[m])
  }

  /** A smooth step restores its file and forgets nothing that was done. */
  lemma {:induction false} SmoothStep(j: Job, m: nat, e: FileEnv, s: State)
    requires m < |j.files| && Whole(j) && InBase(j) && Smooth(e)
    requires Trusty(j, s.targets, j.files[m]) || j.files[m].backupPath !in s.completed
    ensures var f, t := j.files[m], Step(j, m, e, s);
            && !Stops(j, f, e, s)
            && t.restored == s.restored + 1 && t.failed == s.failed && t.bytes == s.bytes + f.size
            && Matches(j, t.targets, f) && s.completed <= t.completed
            && t.fetched == (if Skips(j, f, s) then s.fetched else s.fetched + [m])
            && OnlyAt(s.targets, t.targets, j.at(f.sourcePath))
  {
    var f := j.files[m];
    if !Skips(j, f, s) {
      assert Step(j, m, e, s).targets == s.targets[j.at(f.sourcePath) := Stored(j, f).value];
    }
  }

  predicate SameTarget(j: Job, f: SnapshotFile, a: Disk, b: Disk) {
    var at := j.at(f.sourcePath);
    (at in a <==> at in b) && (at in a ==> a[at] == b[at])
  }

  /** The state of the finishing attempt after `n` files. */
  predicate OnTrack(j: Job, s: State, start: State, n: nat)
    requires n <= |j.files|
  {
    && s.restored == n && s.failed == 0
    && start.completed <= s.completed
    && (forall k :: 0 <= k < n ==> Matches(j, s.targets, j.files[k]))
    && (forall k :: n <= k < |j.files| ==> SameTarget(j, j.files[k], start.targets, s.targets))
    && (forall k :: k in s.fetched ==> k < n && !Skips(j, j.files[k], start))
  }

  lemma {:induction false} FinishStep(j: Job, m: nat, e: FileEnv, s: State, start: State)
    requires m < |j.files| && Whole(j) && InBase(j) && DistinctTargets(j) && Smooth(e)
    requires SafeState(j, s) && OnTrack(j, s, start, m)
    ensures !Stops(j, j.files[m], e, s) && OnTrack(j, Step(j, m, e, s), start, m + 1)
  {
    var f, t := j.files[m], Step(j, m, e, s);
    SmoothStep(j, m, e, s);
    forall k | 0 <= k < |j.files| && k != m ensures SameTarget(j, j.files[k], s.targets, t.targets) {
      assert j.at(j.files[k].sourcePath) != j.at(f.sourcePath);
    }
    assert SameTarget(j, f, start.targets, s.targets);
    if Skips(j, f, start) { assert Skips(j, f, s); }
  }

  lemma {:induction false} FinishLoop(j: Job, env: seq<FileEnv>, start: State, n: nat)
    requires n <= |j.files| == |env| && Whole(j) && InBase(j) && DistinctTargets(j)
    requires forall m :: 0 <= m < |env| ==> Smooth(env[m])
    requires SafeState(j, start) && start.restored == 0 && start.failed == 0 && start.fetched == []
    ensures !StoppedBy(j, env, start, n) && SafeState(j, After(j, env, start, n))
    ensures OnTrack(j, After(j, env, start, n), start, n)
  {
    if n > 0 {
      FinishLoop(j, env, start, n - 1);
      var s := After(j, env, start, n - 1);
      FinishStep(j, n - 1, env[n - 1], s, start);
      StepSafe(j, n - 1, env[n - 1], s);
    }
  }

  /** Restore resume: after any attempts, cancelled or failing anywhere, one smooth attempt on a whole
      snapshot ends completed with every selected file restored and in place, and downloads nothing
      that was recorded as done and kept its size. Files that share an object must not start out
      with a wrong file of the right size at their target. */
  lemma {:induction false} RestoreResumes(j: Job, attempts: seq<AttemptEnv>, last: AttemptEnv, targets: Disk)
    requires forall i :: 0 <= i < |attempts| ==> |attempts[i].files| == |j.files|
    requires |last.files| == |j.files| && SmoothAttempt(last)
    requires Whole(j) && InBase(j) && DistinctTargets(j)
    requires forall m :: 0 <= m < |j.files| && Shared(j, m) ==> Trusty(j, targets, j.files[m])
    ensures var was := LeftAfter(j, attempts, targets);
            var (report, left) := Attempt(j, last, was);
            var start := StartState(was.targets, was.saved, true);
            && report.status == Completed && report.restored == |j.files| && report.failed == 0
            && (forall m :: 0 <= m < |j.files| ==> Matches(j, left.targets, j.files[m]))
            && (forall m :: m in After(j, last.files, start, |j.files|).fetched ==>
                  m < |j.files| && !Skips(j, j.files[m], start))
  {
    AttemptsSafe(j, attempts, targets);
    var was := LeftAfter(j, attempts, targets);
    var start := StartState(was.targets, was.saved, true);
    FinishLoop(j, last.files, start, |j.files|);
  }

  /** "x" and "x.gz" with the same bytes: one object. Restored below "/r". */
  function GzipPair(hash: Hash): Job {
    var a := SnapshotFile("/v/x", Keys.ObjectKey("s", "path_0/x"), 1, 0, Some(hash([1])), 420, "");
    var b := SnapshotFile("/v/x.gz", Keys.ObjectKey("s", "path_0/x.gz"), 1, 0, Some(hash([1])), 420, "");
    Job(map[a.backupPath := Blob([1])], hash, [a, b], x => "/r" + x, _ => true)
  }

  lemma {:induction false} GzipPairFacts(hash: Hash)
    ensures var j := GzipPair(hash);
            Whole(j) && InBase(j) && DistinctTargets(j) && j.files[0].backupPath == j.files[1].backupPath
  {
    GzipSharesObject();
    assert |"/r" + "/v/x"| != |"/r" + "/v/x.gz"|;
  }

  /** Why shared objects need care: a stale file of the right size at the second target is counted as
      restored because the first file of the same object was. */
  lemma {:induction false} SharedObjectSkipped(hash: Hash, last: AttemptEnv)
    requires CollisionFree(hash) && |last.files| == 2 && SmoothAttempt(last)
    ensures var j := GzipPair(hash);
            var (report, left) := Attempt(j, last, Left(map["/r/v/x.gz" := [9]], None));
            Whole(j) && report.status == Completed && !Matches(j, left.targets, j.files[1])
  {
    var j := GzipPair(hash);
    GzipPairFacts(hash);
    assert j.at("/v/x.gz") == "/r/v/x.gz" by { assert "/r" + "/v/x.gz" == "/r/v/x.gz"; }
    assert [9 as byte][0] != [1 as byte][0];
    assert hash([9]) != hash([1]);
    SecondSkipped(j, last, map["/r/v/x.gz" := [9]]);
  }

  lemma {:induction false} GzipSharesObject()
    ensures Keys.ObjectKey("s", "path_0/x") == Keys.ObjectKey("s", "path_0/x.gz")
  {
    Keys.ObjectKeysCollide("s", "path_0/x", "path_0/x.gz");
    Keys.SlotCollision("path_0/x", "path_0/x.gz");
    assert "path_0/x.gz" == "path_0/x" + Keys.GZ;
    assert "path_0/x"[5..] != Keys.GZ;
  }

  /** Two files on one object, and something of the right size at the second target only. */
  lemma {:induction false} SecondSkipped(j: Job, last: AttemptEnv, targets: Disk)
    requires |j.files| == |last.files| == 2 && SmoothAttempt(last) && Whole(j) && InBase(j) && DistinctTargets(j)
    requires j.files[0].backupPath == j.files[1].backupPath
    requires Sized(j, targets, j.files[1]) && !Matches(j, targets, j.files[1])
    ensures var (report, left) := Attempt(j, last, Left(targets, None));
            report.status == Completed && !Matches(j, left.targets, j.files[1])
  {
    var start := StartState(targets, None, true);
    SmoothStep(j, 0, last.files[0], start);
    var s := Step(j, 0, last.files[0], start);
    assert s == After(j, last.files, start, 1) && !StoppedBy(j, last.files, start, 1);
    assert j.at(j.files[0].sourcePath) != j.at(j.files[1].sourcePath);
    assert Skips(j, j.files[1], s);
    var t := Step(j, 1, last.files[1], s);
    assert t == After(j, last.files, start, 2) && !StoppedBy(j, last.files, start, 2);
  }
}
