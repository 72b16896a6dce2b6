/** What published snapshots are good for: they never change again, nothing a run deletes was
    theirs, and they denote the tree their run walked. */
module RestorePoints {
  import opened Domain
  import opened Incremental
  import opened Engine
  import opened History
  import Keys

  // ------------------------------------------------ deletion safety

  /** No manifest in the store names this key. */
  predicate Unnamed(store: Store, key: string) {
    forall k, e :: k in store && store[k].Manifest? && e in store[k].snap.files ==> e.backupPath != key
  }

  /** A run changes or deletes only keys under a snapshot that is not published, and none that a
      manifest names. */
  lemma {:induction false} RunTouchesOnlyUnpublished(w: World, r: RunInput, hash: Hash, key: string)
    requires Inv(w, hash) && StepOk(w, Backup(r)) && Coherent(w.walks + [r.walk])
    requires key in w.store && !SameAt(w.store, Next(w, Backup(r), hash).store, key)
    ensures !IsPublished(w.store, Keys.Owner(key))
    ensures w.store[key].Blob? && Unnamed(w.store, key)
    ensures Keys.Owner(key) == RunCtx(w, r, hash).id || StaleId(w, r, Keys.Owner(key))
  {
    var c, store, after := RunCtx(w, r, hash), StoreOpened(w, r), RunOf(w, r, hash).store;
    OpenMakesReady(w, r, hash);
    RunKeepsStore(c, store, w.used + {r.freshId}, w.walks, r.walk, RunLog(w, r), r.prev, r.env);
    OpenKeepsStore(w, r, hash);
    RunIdUnpublished(w, r, hash);
    if SameAt(w.store, store, key) {
      assert !SameAt(store, after, key);
    } else {
      var id :| StaleId(w, r, id) && OnlyInside(w.store, store, id);
      assert JournalOk(w, hash, w.journals[r.name]);
    }
    UnpublishedIsUnnamed(w.store, hash, w.used, key);
  }

  lemma {:induction false} RunIdUnpublished(w: World, r: RunInput, hash: Hash)
    requires Inv(w, hash) && StepOk(w, Backup(r))
    ensures !IsPublished(w.store, RunCtx(w, r, hash).id)
  {
    UnpublishedId(w.store, hash, w.used, r.freshId);
    if OpenedBy(w, r).Continued? { assert JournalOk(w, hash, w.journals[r.name]); }
  }

  lemma {:induction false} UnpublishedIsUnnamed(store: Store, hash: Hash, used: set<string>, key: string)
    requires StoreOk(store, hash, used) && key in store && !IsPublished(store, Keys.Owner(key))
    ensures store[key].Blob? && Unnamed(store, key)
  {
    forall k | k in store && store[k].Manifest? ensures forall e :: e in store[k].snap.files ==> e.backupPath != key {
      assert ManifestOk(store, hash, used, k);
    }
    if store[key].Manifest? {
      assert ManifestOk(store, hash, used, key);
      Keys.ManifestKeyFacts(store[key].snap.id);
    }
  }

  /** Deletion safety: whatever the history, the next run changes or deletes only objects under its own
      prefix and that of the one journal it discards as stale. Neither was ever published, so no manifest
      names such an object. */
  lemma {:induction false} DeletionSafe(steps: seq<Step>, r: RunInput, hash: Hash, key: string)
    requires Possible(EMPTY, steps, hash)
    requires var w := Exec(EMPTY, steps, hash);
             && StepOk(w, Backup(r)) && Coherent(w.walks + [r.walk])
             && key in w.store && !SameAt(w.store, Next(w, Backup(r), hash).store, key)
    ensures var w := Exec(EMPTY, steps, hash);
            && w.store[key].Blob? && Unnamed(w.store, key) && !IsPublished(w.store, Keys.Owner(key))
            && (Keys.Owner(key) == RunCtx(w, r, hash).id || StaleId(w, r, Keys.Owner(key)))
  {
    HistoryKeepsInv(EMPTY, steps, hash);
    RunTouchesOnlyUnpublished(Exec(EMPTY, steps, hash), r, hash, key);
  }

  // ------------------------------------------------ immutability

  /** Everything one manifest is made of is the same in both stores. */
  predicate Preserved(a: Store, b: Store, key: string)
    requires key in a && a[key].Manifest?
  {
    SameAt(a, b, key) && forall e :: e in a[key].snap.files ==> SameAt(a, b, e.backupPath)
  }

  lemma {:induction false} StepPreserves(w: World, s: Step, hash: Hash, key: string)
    requires Inv(w, hash) && StepOk(w, s) && Coherent(Next(w, s, hash).walks)
    requires key in w.store && w.store[key].Manifest?
    ensures Preserved(w.store, Next(w, s, hash).store, key)
  {
    var after := Next(w, s, hash).store;
    assert ManifestOk(w.store, hash, w.used, key);
    if s.Backup? && s.run.walk.files != [] && !Preserved(w.store, after, key) {
      if !SameAt(w.store, after, key) {
        RunTouchesOnlyUnpublished(w, s.run, hash, key);
      } else {
        var e :| e in w.store[key].snap.files && !SameAt(w.store, after, e.backupPath);
        RunTouchesOnlyUnpublished(w, s.run, hash, e.backupPath);
      }
    }
  }

  /** Once published, a snapshot's manifest and every object it names stay exactly as they are,
      through any further history. */
  lemma {:induction false} RestorePointsImmutable(past: seq<Step>, future: seq<Step>, hash: Hash, key: string)
    requires Possible(EMPTY, past, hash) && Possible(Exec(EMPTY, past, hash), future, hash)
    requires var store := Exec(EMPTY, past, hash).store; key in store && store[key].Manifest?
    ensures Preserved(Exec(EMPTY, past, hash).store, Exec(Exec(EMPTY, past, hash), future, hash).store, key)
  {
    HistoryKeepsInv(EMPTY, past, hash);
    PublishedForever(Exec(EMPTY, past, hash), future, hash, key);
  }

  lemma {:induction false} PublishedForever(w: World, steps: seq<Step>, hash: Hash, key: string)
    requires Inv(w, hash) && Possible(w, steps, hash)
    requires key in w.store && w.store[key].Manifest?
    ensures Preserved(w.store, Exec(w, steps, hash).store, key)
    decreases steps
  {
    if steps != [] {
      StepPreserves(w, steps[0], hash, key);
      HistoryKeepsInv(w, steps[..1], hash);
      assert Exec(w, steps[..1], hash) == Next(w, steps[0], hash);
      PublishedForever(Next(w, steps[0], hash), steps[1..], hash, key);
    }
  }

  // ------------------------------------------------ content

  /** The object an entry names holds the bytes some walked file with the entry's tag had. */
  ghost predicate Witnessed(store: Store, walks: seq<Walk>, e: SnapshotFile) {
    exists i, f :: WitnessedBy(store, walks, e, i, f)
  }

  predicate WitnessedBy(store: Store, walks: seq<Walk>, e: SnapshotFile, i: nat, f: BackupFile) {
    && i < |walks| && f in walks[i].files && f.sourcePath in walks[i].disk
    && FileTag(f) == EntryTag(e)
    && e.backupPath in store && store[e.backupPath] == Blob(walks[i].disk[f.sourcePath])
  }

  ghost predicate ContentInv(w: World) {
    forall k, e :: k in w.store && w.store[k].Manifest? && e in w.store[k].snap.files
      ==> Witnessed(w.store, w.walks, e)
  }

  lemma {:induction false} WitnessStays(a: Store, b: Store, walks: seq<Walk>, more: seq<Walk>, e: SnapshotFile)
    requires Witnessed(a, walks, e) && walks <= more && SameAt(a, b, e.backupPath)
    ensures Witnessed(b, more, e)
  {
    var i, f :| WitnessedBy(a, walks, e, i, f);
    assert WitnessedBy(b, more, e, i, f);
  }

  /** The previous manifest's entries are witnessed when the run starts. */
  ghost predicate PrevWitnessed(store: Store, walks: seq<Walk>, prev: Option<Snapshot>) {
    prev.Some? ==> forall e :: e in prev.value.files ==> Witnessed(store, walks, e)
  }

  lemma {:induction false} ReferencedWitnessed(c: Ctx, store: Store, walks: seq<Walk>, walk: Walk,
                                               prev: Option<Snapshot>,
                                               env: FileEnv, f: BackupFile)
    requires CollisionFree(c.hash) && WalkOk(walk) && c.disk == walk.disk && c.prev == PreviousIndex(prev)
    requires prev.Some? ==> forall e :: e in prev.value.files ==> EntryOk(store, c.hash, e)
    requires PrevWitnessed(store, walks, prev)
    requires f in walk.files && Classify(c, f, env).Referenced?
    ensures Witnessed(store, walks + [walk], Classify(c, f, env).entry)
  {
    var e := Classify(c, f, env).entry;
    ReferencedFrom(c, f, env, prev);
    var was := c.prev[LookupKey(f)];
    if was.modTime == f.modTime {
      var i, g :| WitnessedBy(store, walks, was, i, g);
      assert WitnessedBy(store, walks + [walk], e, i, g);
    } else {
      assert EntryOk(store, c.hash, was);
      assert c.hash(store[was.backupPath].data) == c.hash(walk.disk[f.sourcePath]);
      assert WitnessedBy(store, walks + [walk], e, |walks|, f);
    }
  }

  lemma {:induction false} ResumedWitnessed(c: Ctx, store: Store, walks: seq<Walk>, walk: Walk, log: seq<Logged>,
                                            env: seq<FileEnv>, outs: seq<Outcome>, f: BackupFile)
    requires LogOk(store, c.hash, walks, c.id, walk.identity, log) && Coherent(walks + [walk])
    requires Decided(c, walk.files, env, outs)
    requires c.resumed == ResumedMap(walk.files, LastWins(Entries(log)))
    requires f in walk.files && LookupKey(f) in c.resumed
    ensures Witnessed(StoreTo(c, store, walk.files, env, outs, |outs|), walks + [walk], c.resumed[LookupKey(f)])
    ensures EntryTag(c.resumed[LookupKey(f)]) == FileTag(f)
  {
    var p := ResumedIsLive(store, c.hash, walks, walk, c.id, log, f);
    ResumedNotSent(c, store, walks, walk, log, env, outs, f, p);
    UntouchedKey(c, store, walk.files, env, outs, |outs|, log[p].entry.backupPath);
    assert WitnessedBy(StoreTo(c, store, walk.files, env, outs, |outs|), walks + [walk], log[p].entry,
                       log[p].run, log[p].file);
  }

  lemma {:induction false} UploadedWitnessed(c: Ctx, store: Store, walks: seq<Walk>, walk: Walk, env: seq<FileEnv>,
                                             outs: seq<Outcome>, m: nat)
    requires Decided(c, walk.files, env, outs) && m < |outs| && !Halted(outs, m) && outs[m].Uploaded?
    requires WalkOk(walk) && c.disk == walk.disk
    ensures Witnessed(StoreTo(c, store, walk.files, env, outs, |outs|), walks + [walk], outs[m].entry)
  {
    OutcomeFacts(c, walk.files[m], env[m]);
    UploadedStays(c, store, walk.files, env, outs, m, |outs|);
    assert walk.files[m] in walk.files;
    assert WitnessedBy(StoreTo(c, store, walk.files, env, outs, |outs|), walks + [walk], outs[m].entry, |walks|,
                       walk.files[m]);
  }

  /** Each entry the run keeps carries the tag of the walked file it stands for, and its object holds
      bytes some walk saw under that tag. */
  lemma {:induction false} EntryWitnessed(c: Ctx, store: Store, used: set<string>, walks: seq<Walk>, walk: Walk,
                                          log: seq<Logged>,
                                          prev: Option<Snapshot>, env: seq<FileEnv>, outs: seq<Outcome>, m: nat)
    requires Ready(c, store, used, walks, walk, log, prev) && PrevWitnessed(store, walks, prev) && CollisionFree(c.hash)
    requires Decided(c, walk.files, env, outs)
    requires m < |outs| && !Halted(outs, m) && Yield(outs[m]) != []
    ensures EntryTag(outs[m].entry) == FileTag(walk.files[m])
    ensures Witnessed(StoreTo(c, store, walk.files, env, outs, |outs|), walks + [walk], outs[m].entry)
  {
    assert WalkOk((walks + [walk])[|walks|]);
    OutcomeFacts(c, walk.files[m], env[m]);
    match outs[m]
    case Uploaded(e) => UploadedWitnessed(c, store, walks, walk, env, outs, m);
    case Resumed(e) => ResumedWitnessed(c, store, walks, walk, log, env, outs, walk.files[m]);
    case Referenced(e) =>
      ReferencedWitnessed(c, store, walks, walk, prev, env[m], walk.files[m]);
      ReferencedPlaced(c, store, used, walk, prev, env, outs, m);
      WitnessStays(store, StoreTo(c, store, walk.files, env, outs, |outs|), walks + [walk], walks + [walk], e);
  }

  lemma {:induction false} PrevStaysWitnessed(w: World, r: RunInput, hash: Hash)
    requires Inv(w, hash) && ContentInv(w) && StepOk(w, Backup(r))
    ensures PrevWitnessed(StoreOpened(w, r), w.walks, r.prev)
  {
    if r.prev.Some? {
      assert ManifestOk(w.store, hash, w.used, Keys.ManifestKey(r.prev.value.id));
      OpenKeepsStore(w, r, hash);
      if StoreOpened(w, r) != w.store {
        var id :| StaleId(w, r, id) && OnlyInside(w.store, StoreOpened(w, r), id);
        assert JournalOk(w, hash, w.journals[r.name]);
        forall e | e in r.prev.value.files ensures Witnessed(StoreOpened(w, r), w.walks, e) {
          assert EntryOk(w.store, hash, e);
          WitnessStays(w.store, StoreOpened(w, r), w.walks, w.walks, e);
        }
      }
    }
  }

  /** What a published manifest's entries are, in terms of the run that published it. */
  lemma {:induction false} PublishedWitnessed(w: World, r: RunInput, hash: Hash, m: nat)
    requires Inv(w, hash) && ContentInv(w) && CollisionFree(hash)
    requires StepOk(w, Backup(r)) && Coherent(w.walks + [r.walk]) && m < |r.walk.files|
    requires RunOf(w, r, hash).published.Some?
    requires var outs := RunOuts(w, r, hash); !Halted(outs, m) && Yield(outs[m]) != []
    ensures EntryTag(RunOuts(w, r, hash)[m].entry) == FileTag(r.walk.files[m])
    ensures Witnessed(RunOf(w, r, hash).store, w.walks + [r.walk], RunOuts(w, r, hash)[m].entry)
  {
    var c, store, outs, used := RunCtx(w, r, hash), StoreOpened(w, r), RunOuts(w, r, hash), w.used + {r.freshId};
    OpenMakesReady(w, r, hash);
    PrevStaysWitnessed(w, r, hash);
    RunEnds(c, store, r.walk.files, r.prev, r.env);
    EntryWitnessed(c, store, used, w.walks, r.walk, RunLog(w, r), r.prev, r.env.files, outs, m);
    WitnessOutlivesPublish(c, store, r.walk, r.env.files, outs, w.walks + [r.walk], outs[m].entry,
                           RunOf(w, r, hash).published.value);
  }

  function RunOuts(w: World, r: RunInput, hash: Hash): seq<Outcome>
    requires |r.walk.files| == |r.env.files|
  {
    Outcomes(RunCtx(w, r, hash), r.walk.files, r.env.files)
  }

  /** Publishing adds a manifest where there was nothing, so it disturbs no data object. */
  lemma {:induction false} WitnessOutlivesPublish(c: Ctx, store: Store, walk: Walk, env: seq<FileEnv>,
                                                  outs: seq<Outcome>,
                                                  walks: seq<Walk>, e: SnapshotFile, snap: Snapshot)
    requires Decided(c, walk.files, env, outs) && Keys.SlashFree(c.id) && !IsPublished(store, c.id)
    requires Witnessed(StoreTo(c, store, walk.files, env, outs, |outs|), walks, e)
    ensures var after := StoreTo(c, store, walk.files, env, outs, |outs|);
            Witnessed(after[Keys.ManifestKey(c.id) := Manifest(snap)], walks, e)
  {
    var after := StoreTo(c, store, walk.files, env, outs, |outs|);
    LoopOnlyInside(c, store, walk.files, env, outs);
    var i, f :| WitnessedBy(after, walks, e, i, f);
    assert WitnessedBy(after[Keys.ManifestKey(c.id) := Manifest(snap)], walks, e, i, f);
  }

  /** The only manifest a run adds is the one it publishes. */
  lemma {:induction false} NewManifest(w: World, r: RunInput, hash: Hash, key: string)
    requires Inv(w, hash) && StepOk(w, Backup(r)) && Coherent(w.walks + [r.walk])
    requires var store := RunOf(w, r, hash).store;
             key in store && store[key].Manifest? && !SameAt(w.store, store, key)
    ensures RunOf(w, r, hash).published.Some?
    ensures RunOf(w, r, hash).store[key].snap == RunOf(w, r, hash).published.value
  {
    var c, store := RunCtx(w, r, hash), StoreOpened(w, r);
    OpenMakesReady(w, r, hash);
    OpenKeepsStore(w, r, hash);
    RunKeepsStore(c, store, w.used + {r.freshId}, w.walks, r.walk, RunLog(w, r), r.prev, r.env);
    RunEnds(c, store, r.walk.files, r.prev, r.env);
    LoopOnlyInside(c, store, r.walk.files, r.env.files, RunOuts(w, r, hash));
  }

  lemma {:induction false} BackupKeepsContent(w: World, r: RunInput, hash: Hash)
    requires Inv(w, hash) && ContentInv(w) && CollisionFree(hash)
    requires StepOk(w, Backup(r)) && Coherent(w.walks + [r.walk]) && r.walk.files != []
    ensures ContentInv(Next(w, Backup(r), hash))
  {
    var after := Next(w, Backup(r), hash);
    forall k, e | k in after.store && after.store[k].Manifest? && e in after.store[k].snap.files
      ensures Witnessed(after.store, after.walks, e)
    {
      if SameAt(w.store, after.store, k) {
        StepPreserves(w, Backup(r), hash, k);
        WitnessStays(w.store, after.store, w.walks, after.walks, e);
      } else {
        NewManifest(w, r, hash, k);
        NewEntryWitnessed(w, r, hash, e);
      }
    }
  }

  lemma {:induction false} NewEntryWitnessed(w: World, r: RunInput, hash: Hash, e: SnapshotFile)
    requires Inv(w, hash) && ContentInv(w) && CollisionFree(hash)
    requires StepOk(w, Backup(r)) && Coherent(w.walks + [r.walk])
    requires RunOf(w, r, hash).published.Some? && e in RunOf(w, r, hash).published.value.files
    ensures Witnessed(RunOf(w, r, hash).store, w.walks + [r.walk], e)
  {
    var outs := RunOuts(w, r, hash);
    RunEnds(RunCtx(w, r, hash), StoreOpened(w, r), r.walk.files, r.prev, r.env);
    var m := EntryOrigin(outs, |outs|, e);
    PublishedWitnessed(w, r, hash, m);
  }

  lemma {:induction false} HistoryKeepsContent(w: World, steps: seq<Step>, hash: Hash)
    requires Inv(w, hash) && ContentInv(w) && CollisionFree(hash) && Possible(w, steps, hash)
    ensures ContentInv(Exec(w, steps, hash))
    decreases steps
  {
    if steps != [] {
      if steps[0].Backup? && steps[0].run.walk.files != [] {
        BackupKeepsInv(w, steps[0].run, hash);
        BackupKeepsContent(w, steps[0].run, hash);
      } else if !steps[0].Backup? {
        DamageKeepsInv(w, steps[0], hash);
      }
      HistoryKeepsContent(Next(w, steps[0], hash), steps[1..], hash);
    }
  }

  /** Path, size and modification time determine a file's bytes. */
  predicate StatDeterminesBytes(walks: seq<Walk>) {
    forall i, j, f, g ::
      && 0 <= i < |walks| && 0 <= j < |walks| && f in walks[i].files && g in walks[j].files
      && f.sourcePath in walks[i].disk && g.sourcePath in walks[j].disk && FileTag(f) == FileTag(g)
      ==> walks[i].disk[f.sourcePath] == walks[j].disk[g.sourcePath]
  }

  /** The manifest read through the store gives the walked tree: the same files in the same order,
      with the same size and time, and the bytes they had when the run walked them. */
  predicate Denotes(store: Store, entries: seq<SnapshotFile>, walk: Walk) {
    && |entries| == |walk.files|
    && forall m :: 0 <= m < |walk.files| ==> ReadsBack(store, entries[m], walk.files[m], walk.disk)
  }

  predicate ReadsBack(store: Store, e: SnapshotFile, f: BackupFile, disk: Disk) {
    && EntryTag(e) == FileTag(f)
    && e.backupPath in store && f.sourcePath in disk
    && store[e.backupPath] == Blob(disk[f.sourcePath])
  }

  /** No file was skipped. */
  predicate Complete(w: World, r: RunInput, hash: Hash)
    requires |r.walk.files| == |r.env.files|
  {
    FailuresTo(RunOuts(w, r, hash), |r.walk.files|) == 0
  }

  /** Full, incremental or resumed, after any history: a run that publishes without skipping a file
      publishes exactly the tree it walked. */
  lemma {:induction false} PublishedDenotesTree(steps: seq<Step>, r: RunInput, hash: Hash)
    requires Possible(EMPTY, steps, hash) && CollisionFree(hash)
    requires var w := Exec(EMPTY, steps, hash);
             && StepOk(w, Backup(r)) && Coherent(w.walks + [r.walk]) && StatDeterminesBytes(w.walks + [r.walk])
             && RunOf(w, r, hash).published.Some? && Complete(w, r, hash)
    ensures var res := RunOf(Exec(EMPTY, steps, hash), r, hash);
            Denotes(res.store, res.published.value.files, r.walk)
  {
    HistoryKeepsInv(EMPTY, steps, hash);
    HistoryKeepsContent(EMPTY, steps, hash);
    RunDenotesTree(Exec(EMPTY, steps, hash), r, hash);
  }

  lemma {:induction false} RunDenotesTree(w: World, r: RunInput, hash: Hash)
    requires Inv(w, hash) && ContentInv(w) && CollisionFree(hash)
    requires StepOk(w, Backup(r)) && Coherent(w.walks + [r.walk]) && StatDeterminesBytes(w.walks + [r.walk])
    requires RunOf(w, r, hash).published.Some? && Complete(w, r, hash)
    ensures Denotes(RunOf(w, r, hash).store, RunOf(w, r, hash).published.value.files, r.walk)
  {
    var outs, entries := RunOuts(w, r, hash), RunOf(w, r, hash).published.value.files;
    RunEnds(RunCtx(w, r, hash), StoreOpened(w, r), r.walk.files, r.prev, r.env);
    EntryPerFile(outs, |outs|);
    forall m | 0 <= m < |r.walk.files|
      ensures ReadsBack(RunOf(w, r, hash).store, entries[m], r.walk.files[m], r.walk.disk)
    {
      EntryDenotes(w, r, hash, m);
    }
  }

  lemma {:induction false} EntryDenotes(w: World, r: RunInput, hash: Hash, m: nat)
    requires Inv(w, hash) && ContentInv(w) && CollisionFree(hash)
    requires StepOk(w, Backup(r)) && Coherent(w.walks + [r.walk]) && StatDeterminesBytes(w.walks + [r.walk])
    requires RunOf(w, r, hash).published.Some? && m < |r.walk.files|
    requires var outs := RunOuts(w, r, hash); !Halted(outs, m) && Yield(outs[m]) != []
    ensures ReadsBack(RunOf(w, r, hash).store, RunOuts(w, r, hash)[m].entry, r.walk.files[m], r.walk.disk)
  {
    var all, e := w.walks + [r.walk], RunOuts(w, r, hash)[m].entry;
    PublishedWitnessed(w, r, hash, m);
    var i, g :| WitnessedBy(RunOf(w, r, hash).store, all, e, i, g);
    assert all[|w.walks|] == r.walk && WalkOk(all[|w.walks|]);
    assert r.walk.files[m] in all[|w.walks|].files;
  }

  /** Incremental refines full: against the same tree, an incremental (or resumed) run and a full run
      publish manifests that read back the same bytes, file by file. */
  lemma {:induction false} IncrementalRefinesFull(steps: seq<Step>, r: RunInput, full: RunInput, hash: Hash, m: nat)
    requires Possible(EMPTY, steps, hash) && CollisionFree(hash)
    requires full.walk == r.walk && full.prev == None && m < |r.walk.files|
    requires var w := Exec(EMPTY, steps, hash);
             && Coherent(w.walks + [r.walk]) && StatDeterminesBytes(w.walks + [r.walk])
             && StepOk(w, Backup(r)) && RunOf(w, r, hash).published.Some? && Complete(w, r, hash)
             && StepOk(w, Backup(full)) && RunOf(w, full, hash).published.Some? && Complete(w, full, hash)
    ensures var w := Exec(EMPTY, steps, hash);
            var a, b := RunOf(w, r, hash), RunOf(w, full, hash);
            var ea, eb := a.published.value.files, b.published.value.files;
            && |ea| == |eb| == |r.walk.files|
            && EntryTag(ea[m]) == EntryTag(eb[m])
            && ea[m].backupPath in a.store && eb[m].backupPath in b.store
            && a.store[ea[m].backupPath] == b.store[eb[m].backupPath]
  {
    PublishedDenotesTree(steps, r, hash);
    PublishedDenotesTree(steps, full, hash);
  }

  // ------------------------------------------------ what a run reports as referenced

  function ReferenceEntries(entries: seq<SnapshotFile>, id: string): nat {
    if entries == [] then 0
    else
      var n := |entries| - 1;
      ReferenceEntries(entries[..n], id) + if IsReferenceEntry(entries[n], id) then 1 else 0
  }

  function ReferencedTo(outs: seq<Outcome>, n: nat): nat
    requires n <= |outs|
  {
    if n == 0 then 0 else ReferencedTo(outs, n - 1) + if !Halted(outs, n - 1) && outs[n - 1].Referenced? then 1 else 0
  }

  lemma {:induction false} InsideOrNot(key: string, id: string)
    requires Keys.SlashFree(id)
    ensures Keys.Prefix(id) <= key ==> Keys.Owner(key) == id
  {
    Keys.OwnerIfScoped(key, id);
  }

  /** Where an entry's bytes lie tells whether the run referenced them. */
  lemma {:induction false} EntryTellsReference(c: Ctx, store: Store, used: set<string>, walks: seq<Walk>, walk: Walk,
                                               log: seq<Logged>,
                                               prev: Option<Snapshot>, env: seq<FileEnv>, outs: seq<Outcome>, m: nat)
    requires Ready(c, store, used, walks, walk, log, prev) && Decided(c, walk.files, env, outs)
    requires m < |outs| && !Halted(outs, m) && Yield(outs[m]) != []
    ensures IsReferenceEntry(outs[m].entry, c.id) <==> outs[m].Referenced?
  {
    var f, e := walk.files[m], outs[m].entry;
    OutcomeFacts(c, f, env[m]);
    match outs[m]
    case Uploaded(_) => Keys.ObjectKeySlot(c.id, f.snapshotPath);
    case Resumed(_) =>
      var p := ResumedIsLive(store, c.hash, walks, walk, c.id, log, f);
      Keys.ObjectKeySlot(c.id, log[p].file.snapshotPath);
    case Referenced(_) =>
      ReferencedFrom(c, f, env[m], prev);
      assert EntryOk(store, c.hash, c.prev[LookupKey(f)]);
      InsideOrNot(e.backupPath, c.id);
  }

  predicate Tells(outs: seq<Outcome>, id: string, m: nat)
    requires m < |outs|
  {
    !Halted(outs, m) && Yield(outs[m]) != [] ==> (IsReferenceEntry(outs[m].entry, id) <==> outs[m].Referenced?)
  }

  lemma {:induction false} ReferenceEntriesSnoc(entries: seq<SnapshotFile>, e: SnapshotFile, id: string)
    ensures ReferenceEntries(entries + [e], id)
            == ReferenceEntries(entries, id) + if IsReferenceEntry(e, id) then 1 else 0
  {
    assert (entries + [e])[..|entries|] == entries;
  }

  lemma {:induction false} CountReferences(outs: seq<Outcome>, id: string, n: nat)
    requires n <= |outs| && forall m :: 0 <= m < |outs| ==> Tells(outs, id, m)
    ensures ReferenceEntries(EntriesTo(outs, n), id) == ReferencedTo(outs, n)
  {
    if n > 0 {
      CountReferences(outs, id, n - 1);
      CountOne(outs, id, n - 1);
    }
  }

  lemma {:induction false} CountOne(outs: seq<Outcome>, id: string, m: nat)
    requires m < |outs| && Tells(outs, id, m)
    ensures ReferenceEntries(EntriesTo(outs, m + 1), id)
            == ReferenceEntries(EntriesTo(outs, m), id) + if !Halted(outs, m) && outs[m].Referenced? then 1 else 0
  {
    var before, o := EntriesTo(outs, m), outs[m];
    if !Halted(outs, m) && Yield(o) != [] {
      assert Yield(o) == [o.entry];
      ReferenceEntriesSnoc(before, o.entry, id);
    } else {
      assert EntriesTo(outs, m + 1) == before;
    }
  }

  /** Counting manifest entries that lie outside the snapshot's own prefix counts exactly the files the
      run referenced. */
  lemma {:induction false} ReferencedCountExact(steps: seq<Step>, r: RunInput, hash: Hash)
    requires Possible(EMPTY, steps, hash)
    requires var w := Exec(EMPTY, steps, hash);
             StepOk(w, Backup(r)) && Coherent(w.walks + [r.walk]) && RunOf(w, r, hash).published.Some?
    ensures var w := Exec(EMPTY, steps, hash);
            var snap := RunOf(w, r, hash).published.value;
            ReferenceEntries(snap.files, snap.id) == ReferencedTo(RunOuts(w, r, hash), |r.walk.files|)
  {
    HistoryKeepsInv(EMPTY, steps, hash);
    var w := Exec(EMPTY, steps, hash);
    var c, outs := RunCtx(w, r, hash), RunOuts(w, r, hash);
    OpenMakesReady(w, r, hash);
    RunEnds(c, StoreOpened(w, r), r.walk.files, r.prev, r.env);
    forall m | 0 <= m < |outs| ensures Tells(outs, c.id, m) {
      if !Halted(outs, m) && Yield(outs[m]) != [] {
        EntryTellsReference(c, StoreOpened(w, r), w.used + {r.freshId}, w.walks, r.walk, RunLog(w, r), r.prev,
                            r.env.files,
                            outs, m);
      }
    }
    CountReferences(outs, c.id, |outs|);
  }
}
