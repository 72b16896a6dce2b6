/** What one run sends, keeps and publishes, file by file, in terms of what happened to each file. */
module RunExact {
  import opened Domain
  import opened Engine
  import Keys

  // ------------------------------------------------ one file

  /** One of the at most two transfers went through. */
  predicate Arrives(env: FileEnv) {
    env.first.Delivered? || (env.first.Failed? && !env.backoffCancelled && env.second.Delivered?)
  }

  /** Both transfers failed. */
  predicate GivenUp(env: FileEnv) {
    env.first.Failed? && !env.backoffCancelled && env.second.Failed?
  }

  /** The run was cancelled during a transfer or between the two. */
  predicate CutOff(env: FileEnv) {
    env.first.Cancelled? || (env.first.Failed? && (env.backoffCancelled || env.second.Cancelled?))
  }

  /** The file was recorded in the journal the run continues. */
  predicate Carried(c: Ctx, f: BackupFile) {
    LookupKey(f) in c.resumed
  }

  /** The previous manifest has the file with its size, and with its time or its current bytes. */
  predicate Unchanged(c: Ctx, f: BackupFile, readable: bool) {
    && !f.systemState && LookupKey(f) in c.prev
    && var was := c.prev[LookupKey(f)];
       && was.size == f.size
       && (|| was.modTime == f.modTime
           || (readable && f.sourcePath in c.disk && was.checksum == Some(c.hash(c.disk[f.sourcePath]))))
  }

  /** The file has to be sent. */
  predicate Sent(c: Ctx, f: BackupFile, env: FileEnv) {
    !env.cancelled && !Carried(c, f) && !Unchanged(c, f, env.hashReadable)
  }

  /** The run ends at this file. */
  predicate Ends(c: Ctx, f: BackupFile, env: FileEnv) {
    env.cancelled || (Sent(c, f, env) && CutOff(env))
  }

  predicate Keeps(c: Ctx, f: BackupFile, env: FileEnv) {
    !env.cancelled && (Carried(c, f) || Unchanged(c, f, env.hashReadable) || Arrives(env))
  }

  /** Every outcome, exactly. */
  lemma {:induction false} OutcomeIff(c: Ctx, f: BackupFile, env: FileEnv)
    ensures var o := Classify(c, f, env);
            && (o.Stopped? <==> env.cancelled)
            && (o.Resumed? <==> !env.cancelled && Carried(c, f))
            && (o.Referenced? <==> !env.cancelled && !Carried(c, f) && Unchanged(c, f, env.hashReadable))
            && (o.Uploaded? <==> Sent(c, f, env) && Arrives(env))
            && (o.Skipped? <==> Sent(c, f, env) && GivenUp(env))
            && (o.StoppedUploading? <==> Sent(c, f, env) && CutOff(env))
  {
  }

  /** The manifest entry of a file, field by field. */
  predicate IsEntry(c: Ctx, f: BackupFile, env: FileEnv, e: SnapshotFile) {
    if Carried(c, f) then e == c.resumed[LookupKey(f)]
    else
      && e.sourcePath == f.sourcePath && e.originalPath == f.originalPath
      && e.size == f.size && e.modTime == f.modTime && e.mode == f.mode % 512
      && if Unchanged(c, f, env.hashReadable) then
           e.backupPath == c.prev[LookupKey(f)].backupPath && e.checksum == c.prev[LookupKey(f)].checksum
         else
           && e.backupPath == Keys.EnsureGzip(Keys.Prefix(c.id) + Keys.FILES + f.snapshotPath)
           && e.checksum == if env.sumReadable && f.sourcePath in c.later then Some(c.hash(c.later[f.sourcePath]))
                            else None
  }

  lemma {:induction false} OutcomeEntry(c: Ctx, f: BackupFile, env: FileEnv)
    ensures var o := Classify(c, f, env);
            if Keeps(c, f, env) then |Yield(o)| == 1 && IsEntry(c, f, env, Yield(o)[0]) && !Halts(o)
            else Yield(o) == [] && (Halts(o) <==> Ends(c, f, env))
  {
    OutcomeIff(c, f, env);
  }

  /** What an attempt leaves under its key, where there was this before. */
  function Leaves(was: Option<Object>, data: Bytes, a: Attempt): Option<Object> {
    match a
    case Delivered => Some(Blob(data))
    case Failed(Untouched) => was
    case Failed(Removed) => None
    case Failed(Partial(part)) => Some(Blob(part))
    case Cancelled(Untouched) => was
    case Cancelled(Removed) => None
    case Cancelled(Partial(part)) => Some(Blob(part))
  }

  function Under(store: Store, key: string): Option<Object> {
    if key in store then Some(store[key]) else None
  }

  /** A file's object after its transfers: a second one is made exactly after a plain failure that the run
      outlives, on top of what the first one left; no other object changes. */
  lemma {:induction false} TransferExact(store: Store, key: string, data: Bytes, env: FileEnv, other: string)
    ensures var once := Leaves(Under(store, key), data, env.first);
            Under(Transfer(store, key, data, env), key)
            == if env.first.Failed? && !env.backoffCancelled then Leaves(once, data, env.second) else once
    ensures other != key ==> SameAt(store, Transfer(store, key, data, env), other)
  {
  }

  // ------------------------------------------------ the loop

  lemma {:induction false} HaltedIff(c: Ctx, files: seq<BackupFile>, env: seq<FileEnv>, n: nat)
    requires n <= |files| == |env|
    ensures Halted(Outcomes(c, files, env), n) <==> exists m :: 0 <= m < n && Ends(c, files[m], env[m])
  {
    if n > 0 {
      HaltedIff(c, files, env, n - 1);
      OutcomeEntry(c, files[n - 1], env[n - 1]);
    }
  }

  /** The positions of the files the loop keeps. */
  function KeptTo(c: Ctx, files: seq<BackupFile>, env: seq<FileEnv>, n: nat): (kept: seq<nat>)
    requires n <= |files| == |env|
    ensures forall k :: 0 <= k < |kept| ==> kept[k] < n
  {
    if n == 0 then []
    else KeptTo(c, files, env, n - 1) + if Keeps(c, files[n - 1], env[n - 1]) then [n - 1] else []
  }

  /** They are exactly the files that are kept, each once, in walking order. */
  lemma {:induction false} KeptMeaning(c: Ctx, files: seq<BackupFile>, env: seq<FileEnv>, n: nat)
    requires n <= |files| == |env|
    ensures var kept := KeptTo(c, files, env, n);
            && (forall k, l :: 0 <= k < l < |kept| ==> kept[k] < kept[l])
            && (forall m :: 0 <= m < n ==> (m in kept <==> Keeps(c, files[m], env[m])))
  {
    if n > 0 { KeptMeaning(c, files, env, n - 1); }
  }

  /** These are the entries of the files at these positions. */
  predicate EntriesAt(c: Ctx, files: seq<BackupFile>, env: seq<FileEnv>, at: seq<nat>, entries: seq<SnapshotFile>)
    requires |files| == |env| && forall k :: 0 <= k < |at| ==> at[k] < |files|
  {
    |entries| == |at| && forall k :: 0 <= k < |at| ==> IsEntry(c, files[at[k]], env[at[k]], entries[k])
  }

  /** These are the entries of the kept files, in walking order. */
  predicate EntriesOf(c: Ctx, files: seq<BackupFile>, env: seq<FileEnv>, n: nat, entries: seq<SnapshotFile>)
    requires n <= |files| == |env|
  {
    EntriesAt(c, files, env, KeptTo(c, files, env, n), entries)
  }

  lemma {:induction false} EntriesSnoc(c: Ctx, files: seq<BackupFile>, env: seq<FileEnv>, at: seq<nat>, m: nat,
                                       entries: seq<SnapshotFile>, e: SnapshotFile)
    requires m < |files| == |env| && forall k :: 0 <= k < |at| ==> at[k] < |files|
    requires EntriesAt(c, files, env, at, entries) && IsEntry(c, files[m], env[m], e)
    ensures EntriesAt(c, files, env, at + [m], entries + [e])
  {
    var next, all := at + [m], entries + [e];
    forall k | 0 <= k < |next| ensures IsEntry(c, files[next[k]], env[next[k]], all[k]) {
      if k < |at| { assert next[k] == at[k] && all[k] == entries[k]; }
    }
  }

  lemma {:induction false} KeptEntries(c: Ctx, files: seq<BackupFile>, env: seq<FileEnv>, outs: seq<Outcome>, n: nat)
    requires n <= |files| == |env| && outs == Outcomes(c, files, env) && !Halted(outs, n)
    ensures EntriesOf(c, files, env, n, EntriesTo(outs, n))
  {
    if n > 0 {
      KeptEntries(c, files, env, outs, n - 1);
      OutcomeEntry(c, files[n - 1], env[n - 1]);
      var kept, entries := KeptTo(c, files, env, n - 1), EntriesTo(outs, n - 1);
      if Keeps(c, files[n - 1], env[n - 1]) {
        EntriesSnoc(c, files, env, kept, n - 1, entries, Yield(outs[n - 1])[0]);
        assert EntriesTo(outs, n) == entries + [Yield(outs[n - 1])[0]];
      } else {
        assert EntriesTo(outs, n) == entries && KeptTo(c, files, env, n) == kept;
      }
    }
  }

  /** The loop reaches this file. */
  predicate Reached(c: Ctx, files: seq<BackupFile>, env: seq<FileEnv>, m: nat)
    requires m < |files| == |env|
  {
    forall k :: 0 <= k < m ==> !Ends(c, files[k], env[k])
  }

  /** A transfer is started exactly for the files the loop reaches that have to be sent. */
  lemma {:induction false} SentIff(c: Ctx, files: seq<BackupFile>, env: seq<FileEnv>, n: nat, m: nat)
    requires m < |files| == |env| && n <= |files|
    ensures m in SentTo(Outcomes(c, files, env), n)
            <==> m < n && Reached(c, files, env, m) && Sent(c, files[m], env[m])
  {
    SentMeaning(Outcomes(c, files, env), n, m);
    HaltedIff(c, files, env, m);
    OutcomeIff(c, files[m], env[m]);
  }

  lemma {:induction false} SentMeaning(outs: seq<Outcome>, n: nat, m: nat)
    requires n <= |outs| && m < |outs|
    ensures m in SentTo(outs, n) <==> m < n && !Halted(outs, m) && Sends(outs[m])
  {
    if n > 0 { SentMeaning(outs, n - 1, m); }
  }

  /** A system-state file, a new file, one of another size, and one whose time changed and whose bytes changed
      or could not be read are each sent. */
  lemma {:induction false} ChangedIsSent(c: Ctx, files: seq<BackupFile>, env: seq<FileEnv>, m: nat)
    requires m < |files| == |env| && Reached(c, files, env, m) && !env[m].cancelled && !Carried(c, files[m])
    requires var f := files[m];
             || f.systemState || LookupKey(f) !in c.prev || c.prev[LookupKey(f)].size != f.size
             || (&& c.prev[LookupKey(f)].modTime != f.modTime
                 && (|| !env[m].hashReadable || f.sourcePath !in c.disk
                     || c.prev[LookupKey(f)].checksum != Some(c.hash(c.disk[f.sourcePath]))))
    ensures m in SentTo(Outcomes(c, files, env), |files|)
  {
    SentIff(c, files, env, |files|, m);
  }

  // ------------------------------------------------ the run

  /** The end of a run, given whether the loop was stopped and what it kept. */
  lemma {:induction false} FinishExactly(c: Ctx, store: Store, halted: bool, entries: seq<SnapshotFile>,
                                         prev: Option<Snapshot>, env: RunEnv)
    ensures var r := Finish(c, store, halted, entries, prev, env);
            && (r.published.Some? <==>
                !halted && entries != [] && !env.cancelledAtEnd && env.manifest.ManifestUploaded?)
            && (r.stopped <==> halted || (entries != [] && (env.cancelledAtEnd || env.manifest.ManifestCancelled?)))
            && (r.published.Some? ==> r.published.value.files == entries && HeadOf(c, prev, env, r.published.value))
  {
  }

  /** Everything in a manifest but its entries. */
  predicate HeadOf(c: Ctx, prev: Option<Snapshot>, env: RunEnv, snap: Snapshot) {
    && snap.id == c.id && snap.timestamp == env.timestamp && snap.size == EntrySizes(snap.files)
    && (prev.Some? ==> snap.formatVersion == 2 && snap.baseId == prev.value.id)
    && (prev.None? ==> snap.formatVersion == 0 && snap.baseId == "")
  }

  predicate SomeEnds(c: Ctx, files: seq<BackupFile>, env: seq<FileEnv>)
    requires |files| == |env|
  {
    exists m :: 0 <= m < |files| && Ends(c, files[m], env[m])
  }

  predicate SomeKept(c: Ctx, files: seq<BackupFile>, env: seq<FileEnv>)
    requires |files| == |env|
  {
    exists m :: 0 <= m < |files| && Keeps(c, files[m], env[m])
  }

  lemma {:induction false} SomeKeptIff(c: Ctx, files: seq<BackupFile>, env: seq<FileEnv>, entries: seq<SnapshotFile>)
    requires |files| == |env| && EntriesOf(c, files, env, |files|, entries)
    ensures SomeKept(c, files, env) <==> entries != []
  {
    var kept := KeptTo(c, files, env, |files|);
    KeptMeaning(c, files, env, |files|);
    if kept != [] { assert kept[0] in kept && Keeps(c, files[kept[0]], env[kept[0]]); }
  }

  /** A run publishes exactly when it reaches the end of the walk with something to keep and the manifest
      goes through, and then the entries of exactly the files it kept: those carried over from the journal,
      those unchanged, and those of which one of two transfers arrived. */
  lemma {:induction false} PublishesExactly(c: Ctx, store: Store, files: seq<BackupFile>, prev: Option<Snapshot>,
                                            env: RunEnv)
    requires |files| == |env.files|
    ensures var r := Run(c, store, files, prev, env);
            var ended, some := SomeEnds(c, files, env.files), SomeKept(c, files, env.files);
            && (r.published.Some? <==> !ended && some && !env.cancelledAtEnd && env.manifest.ManifestUploaded?)
            && (r.stopped <==> ended || (some && (env.cancelledAtEnd || env.manifest.ManifestCancelled?)))
            && (r.published.Some? ==>
                  && EntriesOf(c, files, env.files, |files|, r.published.value.files)
                  && HeadOf(c, prev, env, r.published.value))
  {
    var outs, n := Outcomes(c, files, env.files), |files|;
    FinishExactly(c, StoreTo(c, store, files, env.files, outs, n), Halted(outs, n), EntriesTo(outs, n), prev, env);
    HaltedIff(c, files, env.files, n);
    if !Halted(outs, n) {
      KeptEntries(c, files, env.files, outs, n);
      SomeKeptIff(c, files, env.files, EntriesTo(outs, n));
    }
  }

  /** Some entry of the manifest is this file's. */
  predicate Listed(c: Ctx, f: BackupFile, env: FileEnv, entries: seq<SnapshotFile>) {
    exists k :: 0 <= k < |entries| && IsEntry(c, f, env, entries[k])
  }

  /** A file of which a transfer arrived, be it the second, is in the published manifest. */
  lemma {:induction false} ArrivedIsPublished(c: Ctx, store: Store, files: seq<BackupFile>, prev: Option<Snapshot>,
                                              env: RunEnv, m: nat)
    requires m < |files| == |env.files| && Run(c, store, files, prev, env).published.Some?
    requires Sent(c, files[m], env.files[m]) && Arrives(env.files[m])
    ensures Listed(c, files[m], env.files[m], Run(c, store, files, prev, env).published.value.files)
  {
    PublishesExactly(c, store, files, prev, env);
    var kept := KeptTo(c, files, env.files, |files|);
    KeptMeaning(c, files, env.files, |files|);
    assert Keeps(c, files[m], env.files[m]);
    var k :| 0 <= k < |kept| && kept[k] == m;
    assert IsEntry(c, files[m], env.files[m], Run(c, store, files, prev, env).published.value.files[k]);
  }

  // ------------------------------------------------ nothing changed

  predicate AllUnchanged(c: Ctx, files: seq<BackupFile>, env: seq<FileEnv>) {
    && |files| == |env|
    && forall m :: 0 <= m < |files| ==> !env[m].cancelled && Unchanged(c, files[m], env[m].hashReadable)
  }

  /** The entry of an unchanged file: its own size, time and mode, and the bytes where they are. */
  predicate RefersBack(c: Ctx, f: BackupFile, e: SnapshotFile) {
    && LookupKey(f) in c.prev && e.backupPath == c.prev[LookupKey(f)].backupPath
    && e.checksum == c.prev[LookupKey(f)].checksum
    && EntryTag(e) == FileTag(f) && e.sourcePath == f.sourcePath && e.mode == f.mode % 512
  }

  predicate AllReferBack(c: Ctx, files: seq<BackupFile>, n: nat, entries: seq<SnapshotFile>)
    requires n <= |files|
  {
    |entries| == n && forall m :: 0 <= m < n ==> RefersBack(c, files[m], entries[m])
  }

  lemma {:induction false} ReferencedOutcome(c: Ctx, f: BackupFile, env: FileEnv)
    requires c.resumed == map[] && !env.cancelled && Unchanged(c, f, env.hashReadable)
    ensures var o := Classify(c, f, env); o.Referenced? && RefersBack(c, f, o.entry)
  {
    OutcomeIff(c, f, env);
  }

  lemma {:induction false} OnlyReferences(c: Ctx, store: Store, files: seq<BackupFile>, env: seq<FileEnv>,
                                          outs: seq<Outcome>, n: nat)
    requires n <= |files| == |env| == |outs| && forall m :: 0 <= m < |outs| ==> outs[m].Referenced?
    ensures SentTo(outs, n) == [] && !Halted(outs, n) && StoreTo(c, store, files, env, outs, n) == store
    ensures |EntriesTo(outs, n)| == n && forall m :: 0 <= m < n ==> EntriesTo(outs, n)[m] == outs[m].entry
  {
    if n > 0 { OnlyReferences(c, store, files, env, outs, n - 1); }
  }

  lemma {:induction false} NothingSent(c: Ctx, store: Store, files: seq<BackupFile>, env: seq<FileEnv>,
                                       outs: seq<Outcome>)
    requires c.resumed == map[] && AllUnchanged(c, files, env) && outs == Outcomes(c, files, env)
    ensures SentTo(outs, |files|) == [] && !Halted(outs, |files|)
    ensures StoreTo(c, store, files, env, outs, |files|) == store
    ensures AllReferBack(c, files, |files|, EntriesTo(outs, |files|))
  {
    forall m | 0 <= m < |files| ensures outs[m].Referenced? && RefersBack(c, files[m], outs[m].entry) {
      ReferencedOutcome(c, files[m], env[m]);
      assert outs[m] == Classify(c, files[m], env[m]);
    }
    OnlyReferences(c, store, files, env, outs, |files|);
  }

  /** A run over files none of which changed sends nothing; if it publishes, it refers every file back and
      adds nothing to the store but its manifest. */
  lemma {:induction false} UnchangedSendsNothing(c: Ctx, store: Store, files: seq<BackupFile>, prev: Option<Snapshot>,
                                                 env: RunEnv)
    requires c.resumed == map[] && AllUnchanged(c, files, env.files)
    ensures var r := Run(c, store, files, prev, env);
            && SentTo(Outcomes(c, files, env.files), |files|) == []
            && (r.published.Some? <==> files != [] && !env.cancelledAtEnd && env.manifest.ManifestUploaded?)
            && (r.published.Some? ==>
                  && AllReferBack(c, files, |files|, r.published.value.files)
                  && r.store == store[Keys.ManifestKey(c.id) := Manifest(r.published.value)])
  {
    var outs, n := Outcomes(c, files, env.files), |files|;
    NothingSent(c, store, files, env.files, outs);
    FinishExactly(c, store, false, EntriesTo(outs, n), prev, env);
  }

  // ------------------------------------------------ cleaning up

  /** What a stopped run leaves: everything when a journal can resume it; otherwise nothing below its prefix
      that could be deleted, and everything else. */
  lemma {:induction false} StoppedLeaves(c: Ctx, store: Store, files: seq<BackupFile>, prev: Option<Snapshot>,
                                         env: RunEnv, key: string)
    requires |files| == |env.files| && Run(c, store, files, prev, env).stopped
    ensures var loop := StoreTo(c, store, files, env.files, Outcomes(c, files, env.files), |files|);
            var left := Run(c, store, files, prev, env).store;
            && (c.journaled || !Keys.Scoped(key, c.id) || key !in env.deletable ==> SameAt(loop, left, key))
            && (!c.journaled && Keys.Scoped(key, c.id) && key in env.deletable ==> key !in left)
  {
  }
}
