/** Exactly when interrupted restores always end with every file in place. */
module RestoreExact {
  import opened Domain
  import opened Restore
  import opened RestoreResume
  import Verify

  /** An attempt that completes only file `k` and leaves its resume file behind: every other file fails
      to be staged. */
  function OnlyFile(j: Job, k: nat): AttemptEnv {
    AttemptEnv(false, true, true, true,
               seq(|j.files|, i => FileEnv(false, i == k, true, false, true, Moves, true, true)), false, false)
  }

  /** An attempt in which nothing goes wrong. */
  function AllWell(j: Job): AttemptEnv {
    AttemptEnv(false, true, true, true, seq(|j.files|, _ => FileEnv(false, true, true, false, true, Moves, true, true)),
               false, true)
  }

  function Fetched(j: Job, k: nat): Bytes
    requires k < |j.files| && Whole(j)
  {
    Stored(j, j.files[k]).value
  }

  /** After the attempt: the file is in place, its object is recorded, and nothing else has changed. */
  predicate OnlyDone(j: Job, k: nat, targets: Disk, s: State, n: nat)
    requires k < |j.files| && Whole(j)
  {
    if n <= k then s.targets == targets && s.completed == {} && s.saved == None
    else s.targets == targets[j.at(j.files[k].sourcePath) := Fetched(j, k)] && s.saved == Some({j.files[k].backupPath})
  }

  lemma {:induction false} OnlyStep(j: Job, k: nat, targets: Disk, s: State, n: nat)
    requires k < |j.files| && n < |j.files| && Whole(j) && InBase(j) && OnlyDone(j, k, targets, s, n)
    ensures !Stops(j, j.files[n], OnlyFile(j, k).files[n], s)
    ensures OnlyDone(j, k, targets, Step(j, n, OnlyFile(j, k).files[n], s), n + 1)
  {
    var e := OnlyFile(j, k).files[n];
    assert e == FileEnv(false, n == k, true, false, true, Moves, true, true);
    if n == k { assert {} - {j.files[k].backupPath} + {j.files[k].backupPath} == {j.files[k].backupPath}; }
  }

  lemma {:induction false} OnlyLoop(j: Job, k: nat, targets: Disk, n: nat)
    requires k < |j.files| && n <= |j.files| && Whole(j) && InBase(j)
    ensures var start := StartState(targets, None, true);
            && !StoppedBy(j, OnlyFile(j, k).files, start, n)
            && OnlyDone(j, k, targets, After(j, OnlyFile(j, k).files, start, n), n)
  {
    if n > 0 {
      OnlyLoop(j, k, targets, n - 1);
      OnlyStep(j, k, targets, After(j, OnlyFile(j, k).files, StartState(targets, None, true), n - 1), n - 1);
    }
  }

  lemma {:induction false} OnlyLeft(j: Job, k: nat, targets: Disk)
    requires k < |j.files| && Whole(j) && InBase(j)
    ensures LeftAfter(j, [OnlyFile(j, k)], targets)
            == Left(targets[j.at(j.files[k].sourcePath) := Fetched(j, k)], Some({j.files[k].backupPath}))
  {
    OnlyLoop(j, k, targets, |j.files|);
    assert [OnlyFile(j, k)][..0] == [];
  }

  /** A file that is skipped as done keeps whatever is at its target, through a smooth attempt. */
  lemma {:induction false} SkippedKeeps(j: Job, env: seq<FileEnv>, start: State, m: nat, n: nat)
    requires Verify.AllSmooth(j, env) && Whole(j) && InBase(j) && DistinctTargets(j) && m < |env| && n <= |env|
    requires Skips(j, j.files[m], start)
    ensures var s := After(j, env, start, n);
            j.files[m].backupPath in s.completed && SameTarget(j, j.files[m], start.targets, s.targets)
  {
    if n > 0 {
      SkippedKeeps(j, env, start, m, n - 1);
      SkippedTurn(j, env, start, m, n - 1);
    }
  }

  lemma {:induction false} SkippedTurn(j: Job, env: seq<FileEnv>, start: State, m: nat, n: nat)
    requires Verify.AllSmooth(j, env) && Whole(j) && InBase(j) && DistinctTargets(j) && m < |env| && n < |env|
    requires Skips(j, j.files[m], start)
    requires var s := After(j, env, start, n);
             j.files[m].backupPath in s.completed && SameTarget(j, j.files[m], start.targets, s.targets)
    ensures var t := After(j, env, start, n + 1);
            j.files[m].backupPath in t.completed && SameTarget(j, j.files[m], start.targets, t.targets)
  {
    Verify.Turn(j, env, start, n);
    assert Verify.Passes(j, n);
    if n == m {
      Verify.SmoothNeverStops(j, env, start, n);
      assert Skips(j, j.files[m], After(j, env, start, n));
    } else {
      assert j.at(j.files[n].sourcePath) != j.at(j.files[m].sourcePath);
    }
  }

  /** If a file shares its object and starts out with a wrong file of the right size at its target, one
      attempt that completes the other file and one in which nothing goes wrong leave it there. */
  lemma {:induction false} StaleSurvives(j: Job, targets: Disk, m: nat, k: nat)
    requires Whole(j) && InBase(j) && DistinctTargets(j) && m < |j.files| && k < |j.files| && m != k
    requires j.files[m].backupPath == j.files[k].backupPath && !Trusty(j, targets, j.files[m])
    ensures var (report, left) := Attempt(j, AllWell(j), LeftAfter(j, [OnlyFile(j, k)], targets));
            !Matches(j, left.targets, j.files[m])
  {
    var was := LeftAfter(j, [OnlyFile(j, k)], targets);
    OnlyLeft(j, k, targets);
    assert j.at(j.files[m].sourcePath) != j.at(j.files[k].sourcePath);
    var start := StartState(was.targets, was.saved, true);
    assert SameTarget(j, j.files[m], targets, start.targets);
    assert Skips(j, j.files[m], start);
    SkippedKeeps(j, AllWell(j).files, start, m, |j.files|);
  }

  // ------------------------------------------------ the exact condition

  predicate Fits(j: Job, attempts: seq<AttemptEnv>) {
    forall i :: 0 <= i < |attempts| ==> |attempts[i].files| == |j.files|
  }

  /** The smooth attempt after these attempts ends with every selected file in place. */
  predicate AllInPlace(j: Job, attempts: seq<AttemptEnv>, last: AttemptEnv, targets: Disk)
    requires Fits(j, attempts) && |last.files| == |j.files|
  {
    var left := Attempt(j, last, LeftAfter(j, attempts, targets)).1;
    forall m :: 0 <= m < |j.files| ==> Matches(j, left.targets, j.files[m])
  }

  ghost predicate AlwaysInPlace(j: Job, targets: Disk) {
    forall attempts, last: AttemptEnv ::
      Fits(j, attempts) && |last.files| == |j.files| && SmoothAttempt(last) ==> AllInPlace(j, attempts, last, targets)
  }

  /** No file that shares its object starts out with a wrong file of the right size at its target. */
  predicate NoStaleSharer(j: Job, targets: Disk) {
    forall m :: 0 <= m < |j.files| && Shared(j, m) ==> Trusty(j, targets, j.files[m])
  }

  /** Interrupted restores always end with every file in place exactly when no file that shares its
      object starts out with a wrong file of the right size at its target. */
  lemma {:induction false} InPlaceIff(j: Job, targets: Disk)
    requires Whole(j) && InBase(j) && DistinctTargets(j)
    ensures AlwaysInPlace(j, targets) <==> NoStaleSharer(j, targets)
  {
    if NoStaleSharer(j, targets) {
      forall attempts, last: AttemptEnv | Fits(j, attempts) && |last.files| == |j.files| && SmoothAttempt(last)
        ensures AllInPlace(j, attempts, last, targets)
      {
        EndsInPlace(j, attempts, last, targets);
      }
    } else {
      var m :| 0 <= m < |j.files| && Shared(j, m) && !Trusty(j, targets, j.files[m]);
      var k :| 0 <= k < |j.files| && k != m && j.files[k].backupPath == j.files[m].backupPath;
      StaysStale(j, targets, m, k);
    }
  }

  lemma {:induction false} EndsInPlace(j: Job, attempts: seq<AttemptEnv>, last: AttemptEnv, targets: Disk)
    requires Whole(j) && InBase(j) && DistinctTargets(j) && NoStaleSharer(j, targets)
    requires Fits(j, attempts) && |last.files| == |j.files| && SmoothAttempt(last)
    ensures AllInPlace(j, attempts, last, targets)
  {
    RestoreResumes(j, attempts, last, targets);
  }

  lemma {:induction false} StaysStale(j: Job, targets: Disk, m: nat, k: nat)
    requires Whole(j) && InBase(j) && DistinctTargets(j) && m < |j.files| && k < |j.files| && m != k
    requires j.files[m].backupPath == j.files[k].backupPath && !Trusty(j, targets, j.files[m])
    ensures Fits(j, [OnlyFile(j, k)]) && SmoothAttempt(AllWell(j)) && |AllWell(j).files| == |j.files|
    ensures !AllInPlace(j, [OnlyFile(j, k)], AllWell(j), targets)
  {
    StaleSurvives(j, targets, m, k);
  }

  /** For the other files nothing is asked: with distinct objects the restore always succeeds. */
  lemma {:induction false} DistinctObjectsAlwaysInPlace(j: Job, targets: Disk)
    requires Whole(j) && InBase(j) && DistinctTargets(j)
    requires forall a, b :: 0 <= a < b < |j.files| ==> j.files[a].backupPath != j.files[b].backupPath
    ensures AlwaysInPlace(j, targets)
  {
    InPlaceIff(j, targets);
  }
}
