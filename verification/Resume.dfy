/** Resuming: any number of interrupted attempts, followed by one that finishes, publish the manifest
    an uninterrupted run would have published, and no recorded upload is repeated. */
module Resume {
  import opened Domain
  import opened Incremental
  import opened Engine

  /** One interrupted attempt: how much of the journal survived until it started, and what happened. */
  datatype Cut = Cut(kept: nat, env: seq<FileEnv>)

  /** Source files can be read for hashing. */
  predicate Readable(env: seq<FileEnv>) {
    forall m :: 0 <= m < |env| ==> env[m].hashReadable && env[m].sumReadable
  }

  /** Nothing stops the run and every transfer ends in success. */
  predicate Clear(env: seq<FileEnv>) {
    Readable(env) && forall m :: 0 <= m < |env| ==> !env[m].cancelled && Verdict(env[m]).Delivered?
  }

  predicate DistinctKeys(files: seq<BackupFile>) {
    forall a, b :: 0 <= a < b < |files| ==> LookupKey(files[a]) != LookupKey(files[b])
  }

  /** The context of an attempt that finds `log` in its journal. */
  function With(c: Ctx, files: seq<BackupFile>, log: seq<SnapshotFile>): Ctx {
    c.(resumed := ResumedMap(files, LastWins(log)))
  }

  predicate CutsOk(files: seq<BackupFile>, cuts: seq<Cut>) {
    forall i :: 0 <= i < |cuts| ==> |cuts[i].env| == |files| && Readable(cuts[i].env)
  }

  /** What an attempt appends to its journal. */
  function Appended(c: Ctx, files: seq<BackupFile>, env: seq<FileEnv>): seq<SnapshotFile>
    requires |files| == |env|
  {
    LogEntries(Outcomes(c, files, env), Writes(c, env), |files|)
  }

  /** What is left of a journal after losing all but its first `kept` lines. */
  function Kept(log: seq<SnapshotFile>, kept: nat): seq<SnapshotFile> {
    if kept <= |log| then log[..kept] else log
  }

  /** The journal after the interrupted attempts. */
  function LogAfter(c: Ctx, files: seq<BackupFile>, cuts: seq<Cut>): seq<SnapshotFile>
    requires CutsOk(files, cuts)
  {
    if cuts == [] then []
    else
      var n := |cuts| - 1;
      var found := Kept(LogAfter(c, files, cuts[..n]), cuts[n].kept);
      found + Appended(With(c, files, found), files, cuts[n].env)
  }

  /** A journal that only holds entries an uninterrupted run would produce itself. */
  predicate Genuine(c: Ctx, files: seq<BackupFile>, log: seq<SnapshotFile>) {
    forall e :: e in log ==> GenuineEntry(c, files, e)
  }

  predicate GenuineEntry(c: Ctx, files: seq<BackupFile>, e: SnapshotFile) {
    exists m :: 0 <= m < |files| && GenuineFor(c, files[m], e)
  }

  predicate GenuineFor(c: Ctx, f: BackupFile, e: SnapshotFile) {
    e == UploadEntry(c, f, true) && DecideFile(f, c.prev, CurrentSum(c, f, true)).Upload?
  }

  lemma {:induction false} AppendsGenuine(c: Ctx, files: seq<BackupFile>, log: seq<SnapshotFile>, env: seq<FileEnv>)
    requires |env| == |files| && Readable(env) && Genuine(c, files, log)
    ensures Genuine(c, files, log + Appended(With(c, files, log), files, env))
  {
    var d := With(c, files, log);
    var outs, added := Outcomes(d, files, env), Appended(d, files, env);
    var rec := RecordedTo(outs, Writes(d, env), |files|);
    forall e | e in added ensures GenuineEntry(c, files, e) {
      var p :| 0 <= p < |added| && added[p] == e;
      OutcomeFacts(d, files[rec[p]], env[rec[p]]);
      assert GenuineFor(c, files[rec[p]], e);
    }
  }

  lemma {:induction false} LogsGenuine(c: Ctx, files: seq<BackupFile>, cuts: seq<Cut>)
    requires CutsOk(files, cuts)
    ensures Genuine(c, files, LogAfter(c, files, cuts))
  {
    if cuts != [] {
      LogsGenuine(c, files, cuts[..|cuts| - 1]);
      var last := cuts[|cuts| - 1];
      var found := Kept(LogAfter(c, files, cuts[..|cuts| - 1]), last.kept);
      assert Genuine(c, files, found);
      AppendsGenuine(c, files, found, last.env);
    }
  }

  /** With distinct keys, the journal's entry for a walked file is that file's own upload. */
  lemma {:induction false} JournalEntryIsOwn(c: Ctx, files: seq<BackupFile>, log: seq<SnapshotFile>, m: nat)
    requires Genuine(c, files, log) && DistinctKeys(files) && m < |files|
    requires LookupKey(files[m]) in LastWins(log)
    ensures GenuineFor(c, files[m], LastWins(log)[LookupKey(files[m])])
    ensures LookupKey(files[m]) in With(c, files, log).resumed
    ensures With(c, files, log).resumed[LookupKey(files[m])] == LastWins(log)[LookupKey(files[m])]
  {
    var key := LookupKey(files[m]);
    LastWinsMeaning(log, key);
    var e := LastWins(log)[key];
    assert e in log && EntryKey(e) == key;
    assert GenuineEntry(c, files, e);
    var k :| 0 <= k < |files| && GenuineFor(c, files[k], e);
    assert LookupKey(files[k]) == key && k == m;
    assert LookupHits(LastWins(log), files[m]);
    ResumedMeaning(files, LastWins(log), key);
  }

  /** What a clear run keeps for one file does not depend on what its journal already holds. */
  lemma {:induction false} SameEntry(c: Ctx, files: seq<BackupFile>, log: seq<SnapshotFile>, m: nat, a: FileEnv,
                                     b: FileEnv)
    requires Genuine(c, files, log) && DistinctKeys(files) && m < |files| && c.resumed == map[]
    requires Clear([a]) && Clear([b])
    ensures Yield(Classify(With(c, files, log), files[m], a)) == Yield(Classify(c, files[m], b))
    ensures !Halts(Classify(With(c, files, log), files[m], a)) && !Halts(Classify(c, files[m], b))
  {
    assert [a][0] == a && [b][0] == b;
    var key := LookupKey(files[m]);
    ResumedMeaning(files, LastWins(log), key);
    if key in LastWins(log) { JournalEntryIsOwn(c, files, log, m); }
  }

  lemma {:induction false} SameEntries(c: Ctx, files: seq<BackupFile>, log: seq<SnapshotFile>,
                                       a: seq<FileEnv>, b: seq<FileEnv>, n: nat)
    requires Genuine(c, files, log) && DistinctKeys(files) && n <= |files| == |a| == |b| && c.resumed == map[]
    requires Clear(a) && Clear(b)
    ensures EntriesTo(Outcomes(With(c, files, log), files, a), n) == EntriesTo(Outcomes(c, files, b), n)
    ensures !Halted(Outcomes(With(c, files, log), files, a), n) && !Halted(Outcomes(c, files, b), n)
  {
    if n > 0 {
      SameEntries(c, files, log, a, b, n - 1);
      assert [a[n - 1]][0] == a[n - 1] && [b[n - 1]][0] == b[n - 1];
      SameEntry(c, files, log, n - 1, a[n - 1], b[n - 1]);
    }
  }

  /** An attempt sends no file that the journal it found has recorded. */
  lemma {:induction false} SendsNothingRecorded(c: Ctx, files: seq<BackupFile>, log: seq<SnapshotFile>,
                                                env: seq<FileEnv>,
                                                m: nat)
    requires |env| == |files| && Genuine(c, files, log) && DistinctKeys(files)
    requires m in SentTo(Outcomes(With(c, files, log), files, env), |files|)
    ensures m < |files| && LookupKey(files[m]) !in LastWins(log)
  {
    OutcomeFacts(With(c, files, log), files[m], env[m]);
    OwnIfRecorded(c, files, log, m);
  }

  lemma {:induction false} OwnIfRecorded(c: Ctx, files: seq<BackupFile>, log: seq<SnapshotFile>, m: nat)
    requires Genuine(c, files, log) && DistinctKeys(files) && m < |files|
    ensures LookupKey(files[m]) in LastWins(log) ==> LookupKey(files[m]) in With(c, files, log).resumed
  {
    if LookupKey(files[m]) in LastWins(log) { JournalEntryIsOwn(c, files, log, m); }
  }

  /** The journal that attempt number `i` found. */
  function FoundBy(c: Ctx, files: seq<BackupFile>, cuts: seq<Cut>, i: nat): seq<SnapshotFile>
    requires CutsOk(files, cuts) && i < |cuts|
  {
    Kept(LogAfter(c, files, cuts[..i]), cuts[i].kept)
  }

  /** No attempt, interrupted or not, repeats an upload its journal vouches for. */
  lemma {:induction false} NoAttemptRepeats(c: Ctx, files: seq<BackupFile>, cuts: seq<Cut>, i: nat, m: nat)
    requires CutsOk(files, cuts) && DistinctKeys(files) && i < |cuts|
    requires m in SentTo(Outcomes(With(c, files, FoundBy(c, files, cuts, i)), files, cuts[i].env), |files|)
    ensures m < |files| && LookupKey(files[m]) !in LastWins(FoundBy(c, files, cuts, i))
  {
    LogsGenuine(c, files, cuts[..i]);
    assert Genuine(c, files, FoundBy(c, files, cuts, i));
    SendsNothingRecorded(c, files, FoundBy(c, files, cuts, i), cuts[i].env, m);
  }

  /** Resume equivalence: for any interruptions, and any loss of journal lines between them, the
      attempt that finishes publishes the manifest of an uninterrupted run over the same tree, and
      it sends no file that the journal it found has recorded. */
  lemma {:induction false} ResumeEquivalence(c: Ctx, store: Store, found: Store, files: seq<BackupFile>,
                                             prev: Option<Snapshot>, cuts: seq<Cut>, kept: nat, env: RunEnv,
                                             uninterrupted: RunEnv)
    requires CutsOk(files, cuts) && DistinctKeys(files) && c.resumed == map[]
    requires |env.files| == |uninterrupted.files| == |files| && Clear(env.files) && Clear(uninterrupted.files)
    requires env.timestamp == uninterrupted.timestamp
    requires !env.cancelledAtEnd && env.manifest.ManifestUploaded?
    requires !uninterrupted.cancelledAtEnd && uninterrupted.manifest.ManifestUploaded?
    ensures var log := Kept(LogAfter(c, files, cuts), kept);
            var last := With(c, files, log);
            && Run(last, found, files, prev, env).published == Run(c, store, files, prev, uninterrupted).published
            && forall m :: m in SentTo(Outcomes(last, files, env.files), |files|) ==>
                 m < |files| && LookupKey(files[m]) !in LastWins(log)
  {
    var log := Kept(LogAfter(c, files, cuts), kept);
    LogsGenuine(c, files, cuts);
    assert Genuine(c, files, log);
    SameEntries(c, files, log, env.files, uninterrupted.files, |files|);
    forall m | m in SentTo(Outcomes(With(c, files, log), files, env.files), |files|)
      ensures m < |files| && LookupKey(files[m]) !in LastWins(log)
    {
      SendsNothingRecorded(c, files, log, env.files, m);
    }
  }
}
