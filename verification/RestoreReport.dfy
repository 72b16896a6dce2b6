/** What a restore attempt reports, for every attempt: reaching the loop or not, cancelled or not. */
module RestoreReport {
  import opened Domain
  import opened Restore

  /** The attempt gets as far as its files. */
  predicate Starts(j: Job, env: AttemptEnv) {
    !env.cancelledFirst && env.manifestRead && j.files != [] && env.stagingMade
  }

  /** The attempt was cancelled at one of its files, or after the last one. */
  predicate Interrupted(j: Job, env: AttemptEnv, was: Left)
    requires |env.files| == |j.files|
  {
    StoppedBy(j, env.files, StartState(was.targets, was.saved, env.loads), |j.files|) || env.cancelledLast
  }

  // ------------------------------------------------ one file

  /** The attempt goes all the way to putting the object in place. */
  predicate PutsInPlace(j: Job, f: SnapshotFile, e: FileEnv) {
    && e.staged && e.downloads && Stored(j, f).Some? && !e.cancelledLate
    && j.inBase(j.at(f.sourcePath)) && e.dirMade && e.move.Moves?
  }

  /** One file of an attempt, exactly: when it counts as restored and when as failed, which downloads it
      starts, what it leaves at its target, and when the resume file is replaced. */
  lemma {:induction false} FileExact(j: Job, m: nat, e: FileEnv, s: State)
    requires m < |j.files|
    ensures var f, t := j.files[m], Step(j, m, e, s);
            var target := j.at(f.sourcePath);
            var skipped := !e.cancelled && f.backupPath in s.completed && Sized(j, s.targets, f);
            var placed := !e.cancelled && !skipped && PutsInPlace(j, f, e);
            var good := placed && e.readable && Checks(j.hash, f, Stored(j, f).value);
            && (t.restored == s.restored + 1 && t.bytes == s.bytes + f.size <==> skipped || good)
            && (t.restored == s.restored && t.bytes == s.bytes <==> !skipped && !good)
            && (t.failed == s.failed + 1 <==> !skipped && !good && !Stops(j, f, e, s))
            && t.fetched == s.fetched + (if !e.cancelled && !skipped && e.staged then [m] else [])
            && (placed ==> t.targets == s.targets[target := Stored(j, f).value])
            && (forall p :: p != target ==> (p in t.targets <==> p in s.targets))
            && (forall p :: p != target && p in s.targets ==> t.targets[p] == s.targets[p])
            && (good && e.saves ==> t.saved == Some(t.completed))
            && (!good || !e.saves ==> t.saved == s.saved)
            && (e.cancelled || skipped ==> t.completed == s.completed && t.targets == s.targets)
            && (!e.cancelled && !skipped ==> (f.backupPath in t.completed <==> good))
  {
  }

  // ------------------------------------------------ one attempt

  /** The resume file as the loop last wrote it. */
  function LastSaved(j: Job, env: AttemptEnv, was: Left): Option<set<string>>
    requires |env.files| == |j.files|
  {
    After(j, env.files, StartState(was.targets, was.saved, env.loads), |j.files|).saved
  }

  /** An attempt starts from the resume file if that can be read, and from nothing otherwise: then it fetches
      every file whose object it has not put in place itself. */
  lemma {:induction false} UnreadableResumeRefetches(j: Job, env: seq<FileEnv>, targets: Disk,
                                                     saved: Option<set<string>>, m: nat)
    requires m < |j.files| == |env| && !StoppedBy(j, env, StartState(targets, saved, false), m)
    requires !env[m].cancelled && env[m].staged
    requires forall k :: 0 <= k < m ==> j.files[k].backupPath != j.files[m].backupPath
    ensures m in After(j, env, StartState(targets, saved, false), m + 1).fetched
  {
    NotYetDone(j, env, StartState(targets, saved, false), m, j.files[m].backupPath);
    FileExact(j, m, env[m], After(j, env, StartState(targets, saved, false), m));
  }

  lemma {:induction false} NotYetDone(j: Job, env: seq<FileEnv>, s: State, n: nat, key: string)
    requires n <= |j.files| == |env| && key !in s.completed
    requires forall k :: 0 <= k < n ==> j.files[k].backupPath != key
    ensures key !in After(j, env, s, n).completed
  {
    if n > 0 {
      NotYetDone(j, env, s, n - 1, key);
      OtherKeyKept(j, n - 1, env[n - 1], After(j, env, s, n - 1), key);
    }
  }

  lemma {:induction false} OtherKeyKept(j: Job, m: nat, e: FileEnv, s: State, key: string)
    requires m < |j.files| && j.files[m].backupPath != key
    ensures key in Step(j, m, e, s).completed <==> key in s.completed
  {
  }

  /** Every file the loop gets to is restored or failed. */
  lemma {:induction false} CountsAddUp(j: Job, env: seq<FileEnv>, s: State, n: nat)
    requires n <= |j.files| == |env|
    ensures var t := After(j, env, s, n);
            && t.restored + t.failed <= s.restored + s.failed + n
            && (!StoppedBy(j, env, s, n) ==> t.restored + t.failed == s.restored + s.failed + n)
            && (StoppedBy(j, env, s, n) ==> t.restored + t.failed < s.restored + s.failed + n)
  {
    if n > 0 {
      CountsAddUp(j, env, s, n - 1);
      StepCounts(j, n - 1, env[n - 1], After(j, env, s, n - 1));
    }
  }

  lemma {:induction false} StepCounts(j: Job, m: nat, e: FileEnv, s: State)
    requires m < |j.files|
    ensures var t := Step(j, m, e, s);
            t.restored + t.failed == s.restored + s.failed + if Stops(j, j.files[m], e, s) then 0 else 1
  {
  }

  /** A cancellation seen at the head of the loop always ends it; one that ends it was seen there or after
      a download. */
  lemma {:induction false} StopCause(j: Job, env: seq<FileEnv>, s: State, n: nat)
    requires n <= |j.files| == |env|
    ensures (exists m :: 0 <= m < n && env[m].cancelled) ==> StoppedBy(j, env, s, n)
    ensures StoppedBy(j, env, s, n) ==> exists m :: 0 <= m < n && (env[m].cancelled || env[m].cancelledLate)
  {
    if n > 0 { StopCause(j, env, s, n - 1); }
  }

  /** The report of every attempt. An attempt that does not reach its files reports nothing restored and
      leaves the machine alone; it is completed only if it read the manifest and no file was selected. One
      that does is completed exactly when it was not cancelled and restored every file, failed exactly when
      it restored none, and partial otherwise; once completed, its resume file goes with the staging directory,
      and until then it stays as last written. */
  lemma {:induction false} ReportExact(j: Job, env: AttemptEnv, was: Left)
    requires |env.files| == |j.files|
    ensures var (report, left) := Attempt(j, env, was);
            var n := |j.files|;
            && (!Starts(j, env) ==> report.restored == report.bytes == report.failed == 0 && left == was)
            && (report.status.Completed? <==>
                && !env.cancelledFirst && env.manifestRead && report.restored == n
                && (n > 0 ==> env.stagingMade && !Interrupted(j, env, was)))
            && (report.status.Failed? <==>
                env.cancelledFirst || !env.manifestRead || (n > 0 && report.restored == 0))
            && (report.status.Partial? <==>
                Starts(j, env) && report.restored > 0 && (Interrupted(j, env, was) || report.failed > 0))
            && (report.status.Completed? ==> report.failed == 0 && (n > 0 && env.cleans ==> left.saved == None))
            && (Starts(j, env) && !report.status.Completed? ==> left.saved == LastSaved(j, env, was))
            && report.restored + report.failed <= n
            && (Starts(j, env) && !Interrupted(j, env, was) ==> report.restored + report.failed == n)
  {
    if Starts(j, env) { CountsAddUp(j, env.files, StartState(was.targets, was.saved, env.loads), |j.files|); }
  }
}
