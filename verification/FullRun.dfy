/** A full run with nothing going wrong, and the two ways it can still publish a broken snapshot: a file
    changes while it is backed up, or two walked files whose paths differ only by a trailing ".gz" share an
    object. */
module FullRun {
  import opened Domain
  import opened Engine
  import Resume
  import History
  import Keys

  /** Every file is uploaded: nothing resumed, nothing referenced, nothing stopped, every hash read. */
  predicate Plain(c: Ctx, files: seq<BackupFile>, env: seq<FileEnv>) {
    && |files| == |env|
    && c.resumed == map[] && c.prev == map[]
    && Resume.Clear(env)
    && forall m :: 0 <= m < |files| ==> files[m].sourcePath in c.disk && files[m].sourcePath in c.later
  }

  predicate SharesSlot(f: BackupFile, g: BackupFile) {
    Keys.EnsureGzip(f.snapshotPath) == Keys.EnsureGzip(g.snapshotPath)
  }

  /** File `k` is the last one with the object of file `m`. */
  predicate LastSharer(files: seq<BackupFile>, m: nat, k: nat)
    requires m < |files| && k < |files|
  {
    SharesSlot(files[k], files[m]) && forall j :: k < j < |files| ==> !SharesSlot(files[j], files[m])
  }

  /** What was sent last for the object of file `m` has the walked size, and is what was hashed. */
  predicate SentAsRecorded(c: Ctx, files: seq<BackupFile>, m: nat, k: nat)
    requires m < |files| && k < |files|
  {
    && |Content(c, files[k])| == files[m].size
    && files[m].sourcePath in c.later && Content(c, files[k]) == c.later[files[m].sourcePath]
  }

  /** For every file, the last one with its object was sent as recorded. */
  predicate AllAsRecorded(c: Ctx, files: seq<BackupFile>) {
    forall m, k :: 0 <= m < |files| && 0 <= k < |files| && LastSharer(files, m, k) ==> SentAsRecorded(c, files, m, k)
  }

  /** Files that share an object have the same bytes. */
  predicate SharedAgree(c: Ctx, files: seq<BackupFile>) {
    forall a, b :: 0 <= a < b < |files| && SharesSlot(files[a], files[b]) ==>
      Content(c, files[a]) == Content(c, files[b])
  }

  /** The entry of every walked file. */
  function Uploads(c: Ctx, files: seq<BackupFile>): seq<SnapshotFile> {
    seq(|files|, m requires 0 <= m < |files| => UploadEntry(c, files[m], true))
  }

  lemma {:induction false} PlainOutcome(c: Ctx, files: seq<BackupFile>, env: seq<FileEnv>, m: nat)
    requires Plain(c, files, env) && m < |files|
    ensures Outcomes(c, files, env)[m] == Uploaded(Uploads(c, files)[m]) && Verdict(env[m]).Delivered?
  {
  }

  lemma {:induction false} AllKept(outs: seq<Outcome>, es: seq<SnapshotFile>, n: nat)
    requires |outs| == |es| && n <= |outs| && forall m :: 0 <= m < |outs| ==> outs[m] == Uploaded(es[m])
    ensures !Halted(outs, n) && EntriesTo(outs, n) == es[..n]
  {
    if n > 0 {
      AllKept(outs, es, n - 1);
      assert es[..n] == es[..n - 1] + [es[n - 1]];
    }
  }

  lemma {:induction false} AllUploaded(c: Ctx, files: seq<BackupFile>, env: seq<FileEnv>, n: nat)
    requires Plain(c, files, env) && n <= |files|
    ensures !Halted(Outcomes(c, files, env), n)
    ensures EntriesTo(Outcomes(c, files, env), n) == Uploads(c, files)[..n]
  {
    var outs := Outcomes(c, files, env);
    forall m | 0 <= m < |outs| ensures outs[m] == Uploaded(Uploads(c, files)[m]) { PlainOutcome(c, files, env, m); }
    AllKept(outs, Uploads(c, files), n);
  }

  lemma {:induction false} KeysShare(c: Ctx, f: BackupFile, g: BackupFile)
    ensures KeyOf(c, f) == KeyOf(c, g) <==> SharesSlot(f, g)
  {
    Keys.ObjectKeysCollide(c.id, f.snapshotPath, g.snapshotPath);
  }

  lemma {:induction false} HasLastSharer(files: seq<BackupFile>, m: nat) returns (k: nat)
    requires m < |files|
    ensures m <= k < |files| && LastSharer(files, m, k)
  {
    var slots := seq(|files|, i requires 0 <= i < |files| => Keys.EnsureGzip(files[i].snapshotPath));
    k := LastEqual(slots, m);
    forall j | 0 <= j < |files| ensures SharesSlot(files[j], files[m]) <==> slots[j] == slots[m] {}
  }

  lemma {:induction false} LastEqual(keys: seq<string>, m: nat) returns (k: nat)
    requires m < |keys|
    ensures m <= k < |keys| && keys[k] == keys[m] && forall j :: k < j < |keys| ==> keys[j] != keys[m]
  {
    k := |keys| - 1;
    while keys[k] != keys[m]
      invariant m <= k < |keys|
      invariant forall j :: k < j < |keys| ==> keys[j] != keys[m]
      decreases k
    {
      k := k - 1;
    }
  }

  /** The object under a file's key holds the bytes of the last walked file with that key. */
  lemma {:induction false} LastWriter(c: Ctx, store: Store, files: seq<BackupFile>, env: seq<FileEnv>, m: nat, k: nat)
    requires Plain(c, files, env) && m < |files| && k < |files| && LastSharer(files, m, k)
    ensures var after := StoreTo(c, store, files, env, Outcomes(c, files, env), |files|);
            KeyOf(c, files[m]) in after && after[KeyOf(c, files[m])] == Blob(Content(c, files[k]))
  {
    KeysShare(c, files[k], files[m]);
    forall j | k < j < |files| ensures KeyOf(c, files[j]) != KeyOf(c, files[k]) { KeysShare(c, files[j], files[m]); }
    AllUploaded(c, files, env, k);
    PlainOutcome(c, files, env, k);
    UploadedStaysUnlessHit(c, store, files, env, Outcomes(c, files, env), k, |files|);
  }

  /** One entry is intact exactly when the last file with its object was sent as recorded. */
  lemma {:induction false} IntactIffLast(c: Ctx, store: Store, files: seq<BackupFile>, env: seq<FileEnv>, m: nat,
                                         k: nat)
    requires Plain(c, files, env) && CollisionFree(c.hash) && m < |files| && k < |files|
    requires KeyOf(c, files[m]) in store && store[KeyOf(c, files[m])] == Blob(Content(c, files[k]))
    ensures Intact(store, c.hash, UploadEntry(c, files[m], true)) <==> SentAsRecorded(c, files, m, k)
  {
    var e := UploadEntry(c, files[m], true);
    assert e.checksum == Some(c.hash(c.later[files[m].sourcePath]));
  }

  /** What a plain run leaves: the loop's store with the manifest of all uploads on top. */
  lemma {:induction false} PlainRun(c: Ctx, store: Store, files: seq<BackupFile>, prev: Option<Snapshot>, env: RunEnv)
    requires Plain(c, files, env.files) && files != [] && !env.cancelledAtEnd && env.manifest.ManifestUploaded?
    ensures var r := Run(c, store, files, prev, env);
            && r.published.Some? && r.published.value.files == Uploads(c, files)
            && r.store == StoreTo(c, store, files, env.files, Outcomes(c, files, env.files), |files|)
                          [Keys.ManifestKey(c.id) := Manifest(r.published.value)]
  {
    AllUploaded(c, files, env.files, |files|);
    assert Uploads(c, files)[..|files|] == Uploads(c, files);
  }

  lemma {:induction false} OffManifest(c: Ctx, f: BackupFile)
    requires Keys.SlashFree(c.id)
    ensures KeyOf(c, f) != Keys.ManifestKey(c.id)
  {
    Keys.ObjectKeyFacts(c.id, f.snapshotPath);
    Keys.ManifestKeyFacts(c.id);
  }

  /** One file of the published snapshot. */
  lemma {:induction false} FileIntactIff(c: Ctx, store: Store, files: seq<BackupFile>, env: seq<FileEnv>, s: Snapshot,
                                         m: nat, k: nat)
    requires Plain(c, files, env) && CollisionFree(c.hash) && Keys.SlashFree(c.id)
    requires m < |files| && k < |files| && LastSharer(files, m, k)
    ensures var after := StoreTo(c, store, files, env, Outcomes(c, files, env), |files|);
            Intact(after[Keys.ManifestKey(c.id) := Manifest(s)], c.hash, UploadEntry(c, files[m], true)) <==>
            SentAsRecorded(c, files, m, k)
  {
    LastWriter(c, store, files, env, m, k);
    OffManifest(c, files[m]);
    IntactIffLast(c, StoreTo(c, store, files, env, Outcomes(c, files, env), |files|)
                       [Keys.ManifestKey(c.id) := Manifest(s)], files, env, m, k);
  }

  /** A plain full run publishes a sound snapshot exactly when, for every file, the last one sent under its
      object key was sent with the walked size and with the bytes that were hashed. */
  lemma {:induction false} FullRunSoundIff(c: Ctx, store: Store, files: seq<BackupFile>, prev: Option<Snapshot>,
                                           env: RunEnv)
    requires Plain(c, files, env.files) && files != [] && CollisionFree(c.hash) && Keys.SlashFree(c.id)
    requires !env.cancelledAtEnd && env.manifest.ManifestUploaded?
    ensures var r := Run(c, store, files, prev, env);
            r.published.Some? && (Sound(r.store, c.hash, r.published.value) <==> AllAsRecorded(c, files))
  {
    PlainRun(c, store, files, prev, env);
    var r := Run(c, store, files, prev, env);
    var s := r.published.value;
    if AllAsRecorded(c, files) {
      forall e | e in s.files ensures Intact(r.store, c.hash, e) {
        var m :| 0 <= m < |files| && Uploads(c, files)[m] == e;
        var k := HasLastSharer(files, m);
        FileIntactIff(c, store, files, env.files, s, m, k);
      }
    }
    if Sound(r.store, c.hash, s) {
      forall m, k | 0 <= m < |files| && 0 <= k < |files| && LastSharer(files, m, k)
        ensures SentAsRecorded(c, files, m, k)
      {
        assert Uploads(c, files)[m] in s.files;
        FileIntactIff(c, store, files, env.files, s, m, k);
      }
    }
  }

  /** When no file changes while it is backed up, that says that files sharing an object agree. */
  lemma {:induction false} SteadyRunSoundIff(c: Ctx, files: seq<BackupFile>)
    requires forall f :: f in files ==> History.Steady(f, c.disk, c.later)
    ensures AllAsRecorded(c, files) <==> SharedAgree(c, files)
  {
    if AllAsRecorded(c, files) {
      forall a, b | 0 <= a < b < |files| && SharesSlot(files[a], files[b])
        ensures Content(c, files[a]) == Content(c, files[b])
      {
        var k := HasLastSharer(files, a);
        assert LastSharer(files, b, k) && files[a] in files && files[b] in files;
        assert SentAsRecorded(c, files, a, k) && SentAsRecorded(c, files, b, k);
      }
    }
    if SharedAgree(c, files) {
      forall m, k | 0 <= m < |files| && 0 <= k < |files| && LastSharer(files, m, k)
        ensures SentAsRecorded(c, files, m, k)
      {
        assert files[m] in files && !(k < m);
        assert m < k ==> SharesSlot(files[m], files[k]);
      }
    }
  }

  /** A file that is appended to between being sent and being hashed: the snapshot is not sound. */
  lemma {:induction false} ChangingFileBreaks(hash: Hash, env: RunEnv)
    requires CollisionFree(hash) && |env.files| == 1 && Resume.Clear(env.files)
    requires !env.cancelledAtEnd && env.manifest.ManifestUploaded?
    ensures var f := BackupFile("/v/a.log", "path_0/a.log", 1, 0, 420, "", false);
            var c := Ctx("s", false, map[], map[], map["/v/a.log" := [1]], map["/v/a.log" := [1, 2]], hash);
            var r := Run(c, map[], [f], None, env);
            r.published.Some? && !Sound(r.store, hash, r.published.value)
  {
    var f := BackupFile("/v/a.log", "path_0/a.log", 1, 0, 420, "", false);
    var c := Ctx("s", false, map[], map[], map["/v/a.log" := [1]], map["/v/a.log" := [1, 2]], hash);
    FullRunSoundIff(c, map[], [f], None, env);
    assert LastSharer([f], 0, 0);
    assert |Content(c, f)| != |c.later["/v/a.log"]|;
    assert !SentAsRecorded(c, [f], 0, 0);
  }

  /** Two steady files that share an object and differ break the snapshot. */
  lemma {:induction false} TwoSharersBreak(c: Ctx, f: BackupFile, g: BackupFile, env: RunEnv)
    requires Plain(c, [f, g], env.files) && CollisionFree(c.hash) && Keys.SlashFree(c.id)
    requires !env.cancelledAtEnd && env.manifest.ManifestUploaded?
    requires History.Steady(f, c.disk, c.later) && History.Steady(g, c.disk, c.later)
    requires SharesSlot(f, g) && Content(c, f) != Content(c, g)
    ensures var r := Run(c, map[], [f, g], None, env);
            r.published.Some? && !Sound(r.store, c.hash, r.published.value)
  {
    FullRunSoundIff(c, map[], [f, g], None, env);
    SteadyRunSoundIff(c, [f, g]);
    assert [f, g][0] == f && [f, g][1] == g;
  }

  lemma {:induction false} GzipShares(path: string)
    requires |path| >= 3 && path[|path| - 1] != 'z'
    ensures Keys.EnsureGzip(path) == Keys.EnsureGzip(path + ".gz")
  {
    Keys.SlotCollision(path, path + ".gz");
    if Keys.HasSuffix(path, Keys.GZ) { Keys.SuffixLast(path, Keys.GZ); }
  }

  /** The counterexample: a log and its compressed copy side by side. The snapshot names one object
      for both, and it is not sound. */
  lemma {:induction false} GzipNeighbourBreaks(hash: Hash, env: RunEnv)
    requires CollisionFree(hash) && |env.files| == 2 && Resume.Clear(env.files)
    requires !env.cancelledAtEnd && env.manifest.ManifestUploaded?
    ensures var log := BackupFile("/v/a.log", "path_0/a.log", 1, 0, 420, "", false);
            var zip := BackupFile("/v/a.log.gz", "path_0/a.log.gz", 1, 0, 420, "", false);
            var disk := map["/v/a.log" := [1], "/v/a.log.gz" := [2]];
            var c := Ctx("s", false, map[], map[], disk, disk, hash);
            var r := Run(c, map[], [log, zip], None, env);
            r.published.Some? && !Sound(r.store, hash, r.published.value)
  {
    var log := BackupFile("/v/a.log", "path_0/a.log", 1, 0, 420, "", false);
    var zip := BackupFile("/v/a.log.gz", "path_0/a.log.gz", 1, 0, 420, "", false);
    var disk := map["/v/a.log" := [1], "/v/a.log.gz" := [2]];
    var c := Ctx("s", false, map[], map[], disk, disk, hash);
    GzipShares("path_0/a.log");
    assert "path_0/a.log" + ".gz" == "path_0/a.log.gz";
    assert Content(c, log)[0] != Content(c, zip)[0];
    TwoSharersBreak(c, log, zip, env);
  }
}
