/** How the engine comes to write a snapshot on which restore and verification disagree: "x" and "x.gz" are
    uploaded, the run is interrupted, "x" changes, and the resumed run uploads "x" again while "x.gz" is
    carried over. One object then serves both entries. */
module Disagreement {
  import opened Domain
  import opened Engine
  import FullRun
  import Keys
  import Restore
  import RestoreResume
  import Resume
  import Verify

  function Plain(modTime: int): BackupFile {
    BackupFile("/v/x", "path_0/x", 1, modTime, 420, "", false)
  }

  function Zipped(): BackupFile {
    BackupFile("/v/x.gz", "path_0/x.gz", 1, 0, 420, "", false)
  }

  /** The machine when "/v/x" holds one byte. */
  function Machine(x: byte): Disk {
    map["/v/x" := [x], "/v/x.gz" := [2]]
  }

  function First(hash: Hash): Ctx {
    Ctx("s", true, map[], map[], Machine(1), Machine(1), hash)
  }

  /** The lines the interrupted run leaves. */
  function Lines(hash: Hash): seq<SnapshotFile> {
    [UploadEntry(First(hash), Plain(0), true), UploadEntry(First(hash), Zipped(), true)]
  }

  function Second(hash: Hash): Ctx {
    Resuming(hash, Lines(hash))
  }

  lemma {:induction false} Names()
    ensures "/v/x" != "/v/x.gz" && Keys.EnsureGzip("path_0/x") == Keys.EnsureGzip("path_0/x.gz")
  {
    assert |"/v/x"| != |"/v/x.gz"|;
    FullRun.GzipShares("path_0/x");
    assert "path_0/x" + ".gz" == "path_0/x.gz";
  }

  lemma {:induction false} OneObject(c: Ctx, modTime: int)
    ensures KeyOf(c, Plain(modTime)) == KeyOf(c, Zipped())
  {
    Names();
    Keys.ObjectKeysCollide(c.id, "path_0/x", "path_0/x.gz");
  }

  predicate Recorded(env: seq<FileEnv>) {
    |env| == 2 && Resume.Clear(env) && env[0].recorded && env[1].recorded
  }

  /** The first run uploads both files and records them. */
  lemma {:induction false} FirstLog(hash: Hash, env: seq<FileEnv>)
    requires Recorded(env)
    ensures Resume.Appended(First(hash), [Plain(0), Zipped()], env) == Lines(hash)
  {
    var c, files := First(hash), [Plain(0), Zipped()];
    Names();
    var outs, writes := Outcomes(c, files, env), Writes(c, env);
    assert outs[0] == Uploaded(Lines(hash)[0]) && outs[1] == Uploaded(Lines(hash)[1]);
    assert !Halted(outs, 1) && !Halted(outs, 0);
    assert RecordedTo(outs, writes, 1) == [0];
    assert RecordedTo(outs, writes, 2) == [0, 1];
  }

  lemma {:induction false} TwoLines(a: SnapshotFile, b: SnapshotFile)
    ensures LastWins([a, b]) == map[EntryKey(a) := a][EntryKey(b) := b]
  {
    assert [a][..0] == [] && LastWins([a]) == map[EntryKey(a) := a];
    LastWinsSnoc([a], b);
    assert [a] + [b] == [a, b];
  }

  /** Of two files, the second one is carried over. */
  lemma {:induction false} OneResumed(entries: map<string, SnapshotFile>, f: BackupFile, g: BackupFile)
    requires !LookupHits(entries, f) && LookupHits(entries, g)
    ensures ResumedMap([f, g], entries) == map[LookupKey(g) := entries[LookupKey(g)]]
  {
    assert [f][..0] == [] && [f, g][..1] == [f];
    assert ResumedMap([], entries) == map[];
    assert ResumedMap([f], entries) == map[];
  }

  /** The second run resumes "x.gz" only. */
  lemma {:induction false} SecondResumes(hash: Hash)
    ensures Second(hash).resumed == map["/v/x.gz" := Lines(hash)[1]]
  {
    Names();
    TwoLines(Lines(hash)[0], Lines(hash)[1]);
    OneResumed(LastWins(Lines(hash)), Plain(1), Zipped());
  }

  function Manifested(hash: Hash): seq<SnapshotFile> {
    [UploadEntry(Second(hash), Plain(1), true), Lines(hash)[1]]
  }

  /** The second run sends "x" under the object of both. */
  lemma {:induction false} SecondOutcomes(hash: Hash, store: Store, env: seq<FileEnv>)
    requires |env| == 2 && Resume.Clear(env)
    ensures var c, files := Second(hash), [Plain(1), Zipped()];
            var outs := Outcomes(c, files, env);
            && !Halted(outs, 2) && EntriesTo(outs, 2) == Manifested(hash)
            && KeyOf(c, Plain(1)) in StoreTo(c, store, files, env, outs, 2)
            && StoreTo(c, store, files, env, outs, 2)[KeyOf(c, Plain(1))] == Blob([3])
  {
    var c, files := Second(hash), [Plain(1), Zipped()];
    SecondResumes(hash);
    Names();
    var outs := Outcomes(c, files, env);
    assert outs[0] == Uploaded(Manifested(hash)[0]) && outs[1] == Resumed(Manifested(hash)[1]);
    assert !Halted(outs, 0) && !Halted(outs, 1);
    assert EntriesTo(outs, 1) == [Manifested(hash)[0]];
    StepDelivers(c, store, files, env, outs, 0);
    assert StoreTo(c, store, files, env, outs, 2) == StoreTo(c, store, files, env, outs, 1);
  }

  /** What the second run publishes, and the object it leaves. */
  lemma {:induction false} SecondPublishes(hash: Hash, store: Store, env: RunEnv)
    requires |env.files| == 2 && Resume.Clear(env.files) && !env.cancelledAtEnd && env.manifest.ManifestUploaded?
    ensures var r := Run(Second(hash), store, [Plain(1), Zipped()], None, env);
            && r.published.Some? && r.published.value.files == Manifested(hash)
            && KeyOf(Second(hash), Plain(1)) in r.store && r.store[KeyOf(Second(hash), Plain(1))] == Blob([3])
  {
    SecondOutcomes(hash, store, env.files);
    FullRun.OffManifest(Second(hash), Plain(1));
  }

  /** A machine to restore onto, below "/r". */
  function Restoring(store: Store, hash: Hash, files: seq<SnapshotFile>): Restore.Job {
    Restore.Job(store, hash, files, x => "/r" + x, _ => true)
  }

  /** Two entries on one object, good for the first and bad for the second, and something of the second
      one's size at its target. */
  lemma {:induction false} SecondCounts(j: Restore.Job, env: seq<Restore.FileEnv>, targets: Disk)
    requires Verify.AllSmooth(j, env) && RestoreResume.InBase(j) && RestoreResume.DistinctTargets(j)
    requires |j.files| == 2 && j.files[0].backupPath == j.files[1].backupPath
    requires Verify.Passes(j, 0) && Restore.Sized(j, targets, j.files[1])
    ensures Verify.RestoredAt(j, env, Verify.Begin(targets), 1)
  {
    Verify.LaterUntouched(j, env, targets, 1, 1);
    Verify.StaysCompleted(j, env, Verify.Begin(targets), 0, 1);
    Verify.Turn(j, env, Verify.Begin(targets), 1);
  }

  lemma {:induction false} Verdicts(hash: Hash, store: Store)
    requires CollisionFree(hash)
    requires KeyOf(Second(hash), Plain(1)) in store && store[KeyOf(Second(hash), Plain(1))] == Blob([3])
    ensures var j := Restoring(store, hash, Manifested(hash));
            && j.files[0].backupPath == j.files[1].backupPath
            && Verify.Passes(j, 0) && !Verify.Passes(j, 1)
  {
    OneObject(Second(hash), 1);
    OneObject(First(hash), 0);
    assert [2 as byte][0] != [3 as byte][0];
    assert hash([2]) != hash([3]);
  }

  /** The context of the resumed run, given the lines it finds. */
  function Resuming(hash: Hash, log: seq<SnapshotFile>): Ctx {
    Ctx("s", true, ResumedMap([Plain(1), Zipped()], LastWins(log)), map[], Machine(3), Machine(3), hash)
  }

  /** The interrupted run leaves its store and its lines, and publishes nothing. */
  lemma {:induction false} FirstInterrupted(hash: Hash, env: RunEnv)
    requires Recorded(env.files) && env.cancelledAtEnd
    ensures Run(First(hash), map[], [Plain(0), Zipped()], None, env).published.None?
    ensures Resuming(hash, Resume.Appended(First(hash), [Plain(0), Zipped()], env.files)) == Second(hash)
  {
    FirstLog(hash, env.files);
  }

  lemma {:induction false} StaleCounts(hash: Hash, store: Store, env: seq<Restore.FileEnv>)
    requires CollisionFree(hash) && |env| == 2 && forall m :: 0 <= m < 2 ==> RestoreResume.Smooth(env[m])
    requires KeyOf(Second(hash), Plain(1)) in store && store[KeyOf(Second(hash), Plain(1))] == Blob([3])
    ensures var j := Restoring(store, hash, Manifested(hash));
            !Verify.Passes(j, 1) && Verify.RestoredAt(j, env, Verify.Begin(map["/r/v/x.gz" := [9]]), 1)
  {
    var j := Restoring(store, hash, Manifested(hash));
    Verdicts(hash, store);
    assert "/r" + "/v/x.gz" == "/r/v/x.gz" && |"/r" + "/v/x"| != |"/r" + "/v/x.gz"|;
    SecondCounts(j, env, map["/r/v/x.gz" := [9]]);
  }

  /** The whole story: interrupted run, change, resumed run, and a restore over a stale file. The second
      entry counts as restored and fails verification. */
  lemma {:induction false} RestoreCountsWhatVerifyRejects(hash: Hash, first: RunEnv, second: RunEnv,
                                                          env: seq<Restore.FileEnv>)
    requires CollisionFree(hash) && Recorded(first.files) && first.cancelledAtEnd
    requires |second.files| == 2 && Resume.Clear(second.files)
    requires !second.cancelledAtEnd && second.manifest.ManifestUploaded?
    requires |env| == 2 && forall m :: 0 <= m < 2 ==> RestoreResume.Smooth(env[m])
    ensures var interrupted := Run(First(hash), map[], [Plain(0), Zipped()], None, first);
            var log := Resume.Appended(First(hash), [Plain(0), Zipped()], first.files);
            var resumed := Run(Resuming(hash, log), interrupted.store, [Plain(1), Zipped()], None, second);
            && interrupted.published.None?
            && resumed.published.Some? && |resumed.published.value.files| == 2
            && var j := Restoring(resumed.store, hash, resumed.published.value.files);
               !Verify.Passes(j, 1) && Verify.RestoredAt(j, env, Verify.Begin(map["/r/v/x.gz" := [9]]), 1)
  {
    var interrupted := Run(First(hash), map[], [Plain(0), Zipped()], None, first);
    FirstInterrupted(hash, first);
    SecondPublishes(hash, interrupted.store, second);
    StaleCounts(hash, Run(Second(hash), interrupted.store, [Plain(1), Zipped()], None, second).store, env);
  }
}
