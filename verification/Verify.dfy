/** Verification, test restore and real restore judge a snapshot's files alike. */
module Verify {
  import opened Domain
  import opened Restore
  import RestoreResume

  datatype Verdict = Passed | Mixed | Bad

  datatype Check = Check(verdict: Verdict, verified: nat, failed: nat, bytes: nat, sizeOnly: nat)

  /** Files that pass among the first `n`: the object is intact and nothing local failed. */
  function Good(store: Store, hash: Hash, files: seq<SnapshotFile>, local: seq<bool>, n: nat): nat
    requires n <= |files| == |local|
  {
    if n == 0 then 0
    else Good(store, hash, files, local, n - 1) + if local[n - 1] && Intact(store, hash, files[n - 1]) then 1 else 0
  }

  function GoodBytes(store: Store, hash: Hash, files: seq<SnapshotFile>, local: seq<bool>, n: nat): nat
    requires n <= |files| == |local|
  {
    if n == 0 then 0
    else GoodBytes(store, hash, files, local, n - 1)
         + if local[n - 1] && Intact(store, hash, files[n - 1]) then files[n - 1].size else 0
  }

  /** Good files whose manifest entry has no checksum. */
  function SizeOnly(store: Store, hash: Hash, files: seq<SnapshotFile>, local: seq<bool>, n: nat): nat
    requires n <= |files| == |local|
  {
    if n == 0 then 0
    else SizeOnly(store, hash, files, local, n - 1)
         + if local[n - 1] && Intact(store, hash, files[n - 1]) && files[n - 1].checksum.None? then 1 else 0
  }

  /** An empty snapshot never passes. */
  function VerdictOf(verified: nat, failed: nat): Verdict {
    if verified + failed == 0 then Bad
    else if failed == 0 then Passed
    else if verified == 0 then Bad
    else Mixed
  }

  /** The files that pass. */
  function GoodOnes(store: Store, hash: Hash, files: seq<SnapshotFile>, local: seq<bool>, n: nat): seq<SnapshotFile>
    requires n <= |files| == |local|
  {
    if n == 0 then []
    else
      GoodOnes(store, hash, files, local, n - 1)
      + if local[n - 1] && Intact(store, hash, files[n - 1]) then [files[n - 1]] else []
  }

  function Sizes(files: seq<SnapshotFile>): nat {
    if files == [] then 0 else Sizes(files[..|files| - 1]) + files[|files| - 1].size
  }

  function Unsummed(files: seq<SnapshotFile>): nat {
    if files == [] then 0 else Unsummed(files[..|files| - 1]) + if files[|files| - 1].checksum.None? then 1 else 0
  }

  /** A file is among those that pass exactly when its object is intact and nothing local failed. */
  lemma {:induction false} GoodOnesMeaning(store: Store, hash: Hash, files: seq<SnapshotFile>, local: seq<bool>,
                                           n: nat, f: SnapshotFile)
    requires n <= |files| == |local|
    ensures f in GoodOnes(store, hash, files, local, n)
            <==> Intact(store, hash, f) && exists m :: 0 <= m < n && local[m] && files[m] == f
  {
    if n > 0 { GoodOnesMeaning(store, hash, files, local, n - 1, f); }
  }

  lemma {:induction false} OneMore(files: seq<SnapshotFile>, f: SnapshotFile)
    ensures Sizes(files + [f]) == Sizes(files) + f.size
    ensures Unsummed(files + [f]) == Unsummed(files) + if f.checksum.None? then 1 else 0
  {
    assert (files + [f])[..|files|] == files;
  }

  /** The counts are those of the files that pass: how many, how large, and how many without a checksum. */
  lemma {:induction false} CountsAreOfGood(store: Store, hash: Hash, files: seq<SnapshotFile>, local: seq<bool>, n: nat)
    requires n <= |files| == |local|
    ensures var good := GoodOnes(store, hash, files, local, n);
            && Good(store, hash, files, local, n) == |good|
            && GoodBytes(store, hash, files, local, n) == Sizes(good)
            && SizeOnly(store, hash, files, local, n) == Unsummed(good)
  {
    if n > 0 {
      CountsAreOfGood(store, hash, files, local, n - 1);
      var before := GoodOnes(store, hash, files, local, n - 1);
      if local[n - 1] && Intact(store, hash, files[n - 1]) {
        OneMore(before, files[n - 1]);
        assert GoodOnes(store, hash, files, local, n) == before + [files[n - 1]];
      } else {
        assert GoodOnes(store, hash, files, local, n) == before;
      }
    }
  }

  lemma {:induction false} GoodAtMost(store: Store, hash: Hash, files: seq<SnapshotFile>, local: seq<bool>, n: nat)
    requires n <= |files| == |local|
    ensures Good(store, hash, files, local, n) <= n
  {
    if n > 0 { GoodAtMost(store, hash, files, local, n - 1); }
  }

  /** Download every object of a snapshot and compare it with the manifest. */
  method VerifyIntegrity(store: Store, hash: Hash, snap: Option<Snapshot>, local: seq<bool>) returns (r: Check)
    requires snap.Some? ==> |local| == |snap.value.files|
    ensures snap.None? ==> r == Check(Bad, 0, 0, 0, 0)
    ensures snap.Some? ==>
              var n := |local|;
              && r.verified == Good(store, hash, snap.value.files, local, n)
              && r.verified + r.failed == n
              && r.bytes == GoodBytes(store, hash, snap.value.files, local, n)
              && r.sizeOnly == SizeOnly(store, hash, snap.value.files, local, n)
              && r.verdict == VerdictOf(r.verified, r.failed)
  {
    r := Check(Bad, 0, 0, 0, 0);
    if snap.None? { return; }
    var files := snap.value.files;
    var verified, failed, bytes, sizeOnly := 0, 0, 0, 0;
    for i := 0 to |files|
      invariant verified == Good(store, hash, files, local, i) && verified + failed == i
      invariant bytes == GoodBytes(store, hash, files, local, i) && sizeOnly == SizeOnly(store, hash, files, local, i)
    {
      var f := files[i];
      if !local[i] || f.backupPath !in store || !store[f.backupPath].Blob? {
        failed := failed + 1;
        continue;
      }
      var data := store[f.backupPath].data;
      if |data| != f.size {
        failed := failed + 1;
        continue;
      }
      if f.checksum.Some? {
        if hash(data) != f.checksum.value {
          failed := failed + 1;
          continue;
        }
      } else {
        sizeOnly := sizeOnly + 1;
      }
      bytes := bytes + |data|;
      verified := verified + 1;
    }
    r := Check(VerdictOf(verified, failed), verified, failed, bytes, sizeOnly);
  }

  /** Restore into a scratch directory, compare, and throw the directory away. */
  method TestRestore(store: Store, hash: Hash, snap: Option<Snapshot>, at: string -> string,
                     local: seq<bool>) returns (r: Check)
    requires snap.Some? ==> |local| == |snap.value.files|
    ensures snap.None? ==> r == Check(Bad, 0, 0, 0, 0)
    ensures snap.Some? ==>
              var n := |local|;
              && r.verified == Good(store, hash, snap.value.files, local, n)
              && r.verified + r.failed == n
              && r.bytes == GoodBytes(store, hash, snap.value.files, local, n)
              && r.verdict == VerdictOf(r.verified, r.failed)
  {
    r := Check(Bad, 0, 0, 0, 0);
    if snap.None? { return; }
    var files := snap.value.files;
    var scratch: Disk := map[];
    var verified, failed, bytes := 0, 0, 0;
    for i := 0 to |files|
      invariant verified == Good(store, hash, files, local, i) && verified + failed == i
      invariant bytes == GoodBytes(store, hash, files, local, i)
    {
      var f := files[i];
      var target := at(f.sourcePath);
      if !local[i] || f.backupPath !in store || !store[f.backupPath].Blob? {
        failed := failed + 1;
        continue;
      }
      scratch := scratch[target := store[f.backupPath].data];
      if |scratch[target]| != f.size || (f.checksum.Some? && hash(scratch[target]) != f.checksum.value) {
        failed := failed + 1;
      } else {
        verified := verified + 1;
        bytes := bytes + |scratch[target]|;
      }
    }
    r := Check(VerdictOf(verified, failed), verified, failed, bytes, 0);
  }

  // ------------------------------------------------ agreement with a real restore

  predicate Passes(j: Job, m: nat)
    requires m < |j.files|
  {
    Intact(j.store, j.hash, j.files[m])
  }

  /** A restore onto a machine with nothing to resume. */
  function Begin(targets: Disk): State {
    StartState(targets, None, true)
  }

  predicate AllSmooth(j: Job, env: seq<FileEnv>) {
    |env| == |j.files| && forall m :: 0 <= m < |env| ==> RestoreResume.Smooth(env[m])
  }

  /** File `m` counts as restored. */
  predicate RestoredAt(j: Job, env: seq<FileEnv>, start: State, m: nat)
    requires m < |j.files| == |env|
  {
    After(j, env, start, m + 1).restored == After(j, env, start, m).restored + 1
  }

  /** A smooth step counts its file exactly when it is skipped or intact. */
  lemma {:induction false} SmoothVerdict(j: Job, m: nat, e: FileEnv, s: State)
    requires m < |j.files| && RestoreResume.InBase(j) && RestoreResume.Smooth(e)
    ensures var f, t := j.files[m], Step(j, m, e, s);
            && !Stops(j, f, e, s)
            && (if Skips(j, f, s) || Passes(j, m)
                then t.restored == s.restored + 1 && t.failed == s.failed && t.bytes == s.bytes + f.size
                else t.restored == s.restored && t.failed == s.failed + 1 && t.bytes == s.bytes)
            && t.completed == (if Skips(j, f, s) || Passes(j, m) then s.completed + {f.backupPath}
                               else s.completed - {f.backupPath})
            && RestoreResume.OnlyAt(s.targets, t.targets, j.at(f.sourcePath))
  {
    var f := j.files[m];
    assert f.backupPath in s.completed && Sized(j, s.targets, f) ==> s.completed + {f.backupPath} == s.completed;
  }

  lemma {:induction false} SmoothNeverStops(j: Job, env: seq<FileEnv>, start: State, n: nat)
    requires AllSmooth(j, env) && RestoreResume.InBase(j) && n <= |env|
    ensures !StoppedBy(j, env, start, n)
    ensures After(j, env, start, n).restored + After(j, env, start, n).failed == start.restored + start.failed + n
  {
    if n > 0 {
      SmoothNeverStops(j, env, start, n - 1);
      SmoothVerdict(j, n - 1, env[n - 1], After(j, env, start, n - 1));
    }
  }

  /** One loop turn of a smooth restore. */
  lemma {:induction false} Turn(j: Job, env: seq<FileEnv>, start: State, m: nat)
    requires AllSmooth(j, env) && RestoreResume.InBase(j) && m < |env|
    ensures var f, s, t := j.files[m], After(j, env, start, m), After(j, env, start, m + 1);
            && (RestoredAt(j, env, start, m) <==> Skips(j, f, s) || Passes(j, m))
            && (if RestoredAt(j, env, start, m)
                then t.restored == s.restored + 1 && t.failed == s.failed && t.bytes == s.bytes + f.size
                else t.restored == s.restored && t.failed == s.failed + 1 && t.bytes == s.bytes)
            && t.completed == (if RestoredAt(j, env, start, m) then s.completed + {f.backupPath}
                               else s.completed - {f.backupPath})
            && RestoreResume.OnlyAt(s.targets, t.targets, j.at(f.sourcePath))
  {
    SmoothNeverStops(j, env, start, m);
    SmoothVerdict(j, m, env[m], After(j, env, start, m));
  }

  /** No object is good for one file and bad for a later one. */
  predicate Consistent(j: Job) {
    forall a, b :: 0 <= a < b < |j.files| && j.files[a].backupPath == j.files[b].backupPath && Passes(j, a) ==>
      Passes(j, b)
  }

  /** Restoring and verifying agree on every file. */
  predicate Agree(j: Job, env: seq<FileEnv>, targets: Disk)
    requires |env| == |j.files|
  {
    forall m :: 0 <= m < |j.files| ==> AgreeAt(j, env, targets, m)
  }

  predicate AgreeAt(j: Job, env: seq<FileEnv>, targets: Disk, m: nat)
    requires m < |j.files| == |env|
  {
    RestoredAt(j, env, Begin(targets), m) == Passes(j, m)
  }

  predicate PassedBefore(j: Job, n: nat, key: string)
    requires n <= |j.files|
  {
    exists a :: 0 <= a < n && j.files[a].backupPath == key && Passes(j, a)
  }

  /** Up to `n`, what is completed belongs to an intact earlier file. */
  lemma {:induction false} CompletedPassed(j: Job, env: seq<FileEnv>, targets: Disk, n: nat)
    requires AllSmooth(j, env) && RestoreResume.InBase(j) && n <= |env| && Consistent(j)
    ensures forall key :: key in After(j, env, Begin(targets), n).completed ==> PassedBefore(j, n, key)
  {
    if n > 0 {
      var start, m := Begin(targets), n - 1;
      CompletedPassed(j, env, targets, m);
      Turn(j, env, start, m);
      forall key | key in After(j, env, start, n).completed ensures PassedBefore(j, n, key) {
        if key == j.files[m].backupPath {
          SkippedPasses(j, env, targets, m);
        } else {
          var a :| 0 <= a < m && j.files[a].backupPath == key && Passes(j, a);
        }
      }
    }
  }

  lemma {:induction false} SkippedPasses(j: Job, env: seq<FileEnv>, targets: Disk, m: nat)
    requires m < |j.files| == |env| && Consistent(j)
    requires forall key :: key in After(j, env, Begin(targets), m).completed ==> PassedBefore(j, m, key)
    ensures Skips(j, j.files[m], After(j, env, Begin(targets), m)) ==> Passes(j, m)
  {
    if Skips(j, j.files[m], After(j, env, Begin(targets), m)) {
      var a :| 0 <= a < m && j.files[a].backupPath == j.files[m].backupPath && Passes(j, a);
    }
  }

  /** On a consistent snapshot a fresh restore counts exactly the intact files, whatever is already at
      the targets. */
  lemma {:induction false} ConsistentAgrees(j: Job, env: seq<FileEnv>, targets: Disk)
    requires AllSmooth(j, env) && RestoreResume.InBase(j) && Consistent(j)
    ensures Agree(j, env, targets)
  {
    forall m | 0 <= m < |j.files| ensures AgreeAt(j, env, targets, m) {
      Turn(j, env, Begin(targets), m);
      CompletedPassed(j, env, targets, m);
      SkippedPasses(j, env, targets, m);
    }
  }

  lemma {:induction false} TurnWrites(j: Job, env: seq<FileEnv>, start: State, m: nat, b: nat)
    requires AllSmooth(j, env) && RestoreResume.InBase(j) && RestoreResume.DistinctTargets(j) && m < b < |env|
    ensures Sized(j, After(j, env, start, m).targets, j.files[b]) ==>
              Sized(j, After(j, env, start, m + 1).targets, j.files[b])
  {
    Turn(j, env, start, m);
    assert j.at(j.files[m].sourcePath) != j.at(j.files[b].sourcePath);
  }

  /** The targets of later files are untouched. */
  lemma {:induction false} LaterUntouched(j: Job, env: seq<FileEnv>, targets: Disk, n: nat, b: nat)
    requires AllSmooth(j, env) && RestoreResume.InBase(j) && RestoreResume.DistinctTargets(j) && n <= b < |env|
    ensures Sized(j, targets, j.files[b]) ==> Sized(j, After(j, env, Begin(targets), n).targets, j.files[b])
  {
    if n > 0 {
      LaterUntouched(j, env, targets, n - 1, b);
      TurnWrites(j, env, Begin(targets), n - 1, b);
    }
  }

  /** An intact file's object stays completed while every later file of that object counts too. */
  lemma {:induction false} StaysCompleted(j: Job, env: seq<FileEnv>, start: State, a: nat, n: nat)
    requires AllSmooth(j, env) && RestoreResume.InBase(j) && a < n <= |env| && Passes(j, a)
    requires forall k :: a < k < n && j.files[k].backupPath == j.files[a].backupPath ==> Passes(j, k)
    ensures j.files[a].backupPath in After(j, env, start, n).completed
  {
    Turn(j, env, start, n - 1);
    if a < n - 1 { StaysCompleted(j, env, start, a, n - 1); }
  }

  /** The first file whose object was good for an earlier one but is bad for it. */
  lemma {:induction false} FirstOffender(j: Job, b: nat) returns (a: nat, c: nat)
    requires b < |j.files|
    requires exists k :: 0 <= k < b && j.files[k].backupPath == j.files[b].backupPath && Passes(j, k)
    requires !Passes(j, b)
    ensures a < c <= b && j.files[a].backupPath == j.files[c].backupPath && Passes(j, a) && !Passes(j, c)
    ensures forall k :: a < k < c && j.files[k].backupPath == j.files[a].backupPath ==> Passes(j, k)
  {
    a :| 0 <= a < b && j.files[a].backupPath == j.files[b].backupPath && Passes(j, a);
    c := a + 1;
    while !(j.files[c].backupPath == j.files[a].backupPath && !Passes(j, c))
      invariant a < c <= b
      invariant forall k :: a < k < c && j.files[k].backupPath == j.files[a].backupPath ==> Passes(j, k)
      decreases b - c
    {
      c := c + 1;
    }
  }

  /** An inconsistent snapshot is judged differently on a machine with a stale file of the right size. */
  lemma {:induction false} InconsistentDisagrees(j: Job, env: seq<FileEnv>) returns (targets: Disk)
    requires AllSmooth(j, env) && RestoreResume.InBase(j) && RestoreResume.DistinctTargets(j) && !Consistent(j)
    ensures !Agree(j, env, targets)
  {
    var x, y :|
      0 <= x < y < |j.files| && j.files[x].backupPath == j.files[y].backupPath && Passes(j, x) && !Passes(j, y);
    var a, b := FirstOffender(j, y);
    targets := map[j.at(j.files[b].sourcePath) := seq(j.files[b].size, _ => 0 as byte)];
    assert Sized(j, targets, j.files[b]);
    LaterUntouched(j, env, targets, b, b);
    StaysCompleted(j, env, Begin(targets), a, b);
    Turn(j, env, Begin(targets), b);
    assert !AgreeAt(j, env, targets, b);
  }

  /** With distinct targets, fresh restores agree with verification on every machine exactly when the
      snapshot is consistent. */
  lemma {:induction false} AgreeIffConsistent(j: Job, env: seq<FileEnv>)
    requires AllSmooth(j, env) && RestoreResume.InBase(j) && RestoreResume.DistinctTargets(j)
    ensures (forall targets :: Agree(j, env, targets)) <==> Consistent(j)
  {
    if Consistent(j) {
      forall targets ensures Agree(j, env, targets) { ConsistentAgrees(j, env, targets); }
    } else {
      var targets := InconsistentDisagrees(j, env);
    }
  }

  // ------------------------------------------------ equal counts and statuses

  function AllLocal(j: Job): seq<bool> {
    seq(|j.files|, _ => true)
  }

  lemma {:induction false} GoodTurn(j: Job, m: nat)
    requires m < |j.files|
    ensures Good(j.store, j.hash, j.files, AllLocal(j), m + 1)
            == Good(j.store, j.hash, j.files, AllLocal(j), m) + if Passes(j, m) then 1 else 0
    ensures GoodBytes(j.store, j.hash, j.files, AllLocal(j), m + 1)
            == GoodBytes(j.store, j.hash, j.files, AllLocal(j), m) + if Passes(j, m) then j.files[m].size else 0
  {
    assert AllLocal(j)[m];
  }

  lemma {:induction false} CountTurn(j: Job, env: seq<FileEnv>, targets: Disk, m: nat)
    requires AllSmooth(j, env) && RestoreResume.InBase(j) && m < |env| && AgreeAt(j, env, targets, m)
    ensures After(j, env, Begin(targets), m + 1).restored - Good(j.store, j.hash, j.files, AllLocal(j), m + 1)
            == After(j, env, Begin(targets), m).restored - Good(j.store, j.hash, j.files, AllLocal(j), m)
    ensures After(j, env, Begin(targets), m + 1).bytes - GoodBytes(j.store, j.hash, j.files, AllLocal(j), m + 1)
            == After(j, env, Begin(targets), m).bytes - GoodBytes(j.store, j.hash, j.files, AllLocal(j), m)
  {
    Turn(j, env, Begin(targets), m);
    GoodTurn(j, m);
  }

  lemma {:induction false} EqualCounts(j: Job, env: seq<FileEnv>, targets: Disk, n: nat)
    requires AllSmooth(j, env) && RestoreResume.InBase(j) && Agree(j, env, targets) && n <= |env|
    ensures After(j, env, Begin(targets), n).restored == Good(j.store, j.hash, j.files, AllLocal(j), n)
  {
    if n > 0 {
      EqualCounts(j, env, targets, n - 1);
      CountTurn(j, env, targets, n - 1);
    }
  }

  lemma {:induction false} EqualBytes(j: Job, env: seq<FileEnv>, targets: Disk, n: nat)
    requires AllSmooth(j, env) && RestoreResume.InBase(j) && Agree(j, env, targets) && n <= |env|
    ensures After(j, env, Begin(targets), n).bytes == GoodBytes(j.store, j.hash, j.files, AllLocal(j), n)
  {
    if n > 0 {
      EqualBytes(j, env, targets, n - 1);
      CountTurn(j, env, targets, n - 1);
    }
  }

  predicate Corresponds(s: Status, v: Verdict) {
    (s.Completed? <==> v.Passed?) && (s.Partial? <==> v.Mixed?) && (s.Failed? <==> v.Bad?)
  }

  /** On a consistent snapshot, a fresh restore with nothing failing reports the counts and bytes of
      verification and test restore; the statuses correspond exactly when the snapshot is not empty. */
  lemma {:induction false} RestoreMatchesVerify(j: Job, env: AttemptEnv, targets: Disk)
    requires AllSmooth(j, env.files) && RestoreResume.SmoothAttempt(env) && RestoreResume.InBase(j) && Consistent(j)
    ensures var n := |j.files|;
            var report := Attempt(j, env, Left(targets, None)).0;
            var verified := Good(j.store, j.hash, j.files, AllLocal(j), n);
            && report.restored == verified && report.restored + report.failed == n
            && report.bytes == GoodBytes(j.store, j.hash, j.files, AllLocal(j), n)
            && (verified <= n && (Corresponds(report.status, VerdictOf(verified, n - verified)) <==> n > 0))
  {
    ConsistentAgrees(j, env.files, targets);
    EqualCounts(j, env.files, targets, |j.files|);
    EqualBytes(j, env.files, targets, |j.files|);
    SmoothNeverStops(j, env.files, Begin(targets), |j.files|);
    GoodAtMost(j.store, j.hash, j.files, AllLocal(j), |j.files|);
  }
}
