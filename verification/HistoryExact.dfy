/** What a run does in a history, exactly: a run over an unchanged tree, and the fate of a discarded
    journal's prefix. */
module HistoryExact {
  import opened Domain
  import opened Incremental
  import opened Engine
  import opened History
  import Keys
  import RestorePoints
  import RunExact

  /** The manifest lists these files, in order, with their sizes and times. */
  predicate Tagged(entries: seq<SnapshotFile>, files: seq<BackupFile>) {
    |entries| == |files| && forall m :: 0 <= m < |files| ==> EntryTag(entries[m]) == FileTag(files[m])
  }

  lemma {:induction false} OutcomeTag(w: World, r: RunInput, hash: Hash, m: nat)
    requires Inv(w, hash) && StepOk(w, Backup(r)) && Coherent(w.walks + [r.walk]) && m < |r.walk.files|
    requires Yield(RestorePoints.RunOuts(w, r, hash)[m]) != []
    ensures EntryTag(RestorePoints.RunOuts(w, r, hash)[m].entry) == FileTag(r.walk.files[m])
  {
    var c, outs := RunCtx(w, r, hash), RestorePoints.RunOuts(w, r, hash);
    OutcomeFacts(c, r.walk.files[m], r.env.files[m]);
    if outs[m].Resumed? {
      OpenMakesReady(w, r, hash);
      RestorePoints.ResumedWitnessed(c, StoreOpened(w, r), w.walks, r.walk, RunLog(w, r), r.env.files, outs,
                                     r.walk.files[m]);
    }
  }

  lemma {:induction false} PublishedTagged(w: World, r: RunInput, hash: Hash)
    requires Inv(w, hash) && StepOk(w, Backup(r)) && Coherent(w.walks + [r.walk])
    requires RunOf(w, r, hash).published.Some? && RestorePoints.Complete(w, r, hash)
    ensures Tagged(RunOf(w, r, hash).published.value.files, r.walk.files)
  {
    var outs := RestorePoints.RunOuts(w, r, hash);
    RunEnds(RunCtx(w, r, hash), StoreOpened(w, r), r.walk.files, r.prev, r.env);
    EntryPerFile(outs, |outs|);
    forall m | 0 <= m < |r.walk.files|
      ensures EntryTag(RunOf(w, r, hash).published.value.files[m]) == FileTag(r.walk.files[m])
    {
      OutcomeTag(w, r, hash, m);
    }
  }

  /** Looking a walked file up in such a manifest finds its own size and time. */
  lemma {:induction false} FoundUnchanged(s: Snapshot, walk: Walk, c: Ctx, m: nat, readable: bool)
    requires Tagged(s.files, walk.files) && WalkOk(walk) && c.prev == PreviousIndex(Some(s))
    requires m < |walk.files| && !walk.files[m].systemState
    ensures RunExact.Unchanged(c, walk.files[m], readable)
  {
    var key := LookupKey(walk.files[m]);
    assert EntryTag(s.files[m]) == FileTag(walk.files[m]);
    assert EntryKey(s.files[m]) == key;
    LastWinsMeaning(s.files, key);
    var p :| 0 <= p < |s.files| && s.files[p] == LastWins(s.files)[key] && EntryKey(s.files[p]) == key;
    assert EntryTag(s.files[p]) == FileTag(walk.files[p]);
    assert walk.files[p] in walk.files && walk.files[m] in walk.files;
  }

  /** The run carries nothing over. */
  lemma {:induction false} NothingCarried(w: World, r: RunInput, hash: Hash)
    requires !OpenedBy(w, r).Continued?
    ensures RunCtx(w, r, hash).resumed == map[]
  {
    assert Entries([]) == [];
    NothingResumed(r.walk.files);
  }

  /** A second run finds the tree as the first one left it: it sends nothing and, when it publishes, refers
      every file back to where it is and adds nothing to the store but its manifest. */
  lemma {:induction false} RerunSendsNothing(steps: seq<Step>, r: RunInput, again: RunInput, hash: Hash)
    requires Possible(EMPTY, steps, hash)
    requires var w := Exec(EMPTY, steps, hash);
             && StepOk(w, Backup(r)) && Coherent(w.walks + [r.walk]) && r.walk.files != []
             && RunOf(w, r, hash).published.Some? && RestorePoints.Complete(w, r, hash)
    requires var w := Next(Exec(EMPTY, steps, hash), Backup(r), hash);
             && again.walk.files == r.walk.files && |again.env.files| == |r.walk.files|
             && again.prev == RunOf(Exec(EMPTY, steps, hash), r, hash).published
             && !OpenedBy(w, again).Continued?
    requires forall m :: 0 <= m < |r.walk.files| ==> !r.walk.files[m].systemState && !again.env.files[m].cancelled
    ensures var w := Next(Exec(EMPTY, steps, hash), Backup(r), hash);
            var c, res := RunCtx(w, again, hash), RunOf(w, again, hash);
            && SentTo(Outcomes(c, again.walk.files, again.env.files), |again.walk.files|) == []
            && (res.published.Some? <==> !again.env.cancelledAtEnd && again.env.manifest.ManifestUploaded?)
            && (res.published.Some? ==>
                  && RunExact.AllReferBack(c, again.walk.files, |again.walk.files|, res.published.value.files)
                  && res.store == StoreOpened(w, again)[Keys.ManifestKey(c.id) := Manifest(res.published.value)])
  {
    var before := Exec(EMPTY, steps, hash);
    var w := Next(before, Backup(r), hash);
    HistoryKeepsInv(EMPTY, steps, hash);
    PublishedTagged(before, r, hash);
    NothingCarried(w, again, hash);
    var c := RunCtx(w, again, hash);
    assert (before.walks + [r.walk])[|before.walks|] == r.walk;
    forall m | 0 <= m < |r.walk.files|
      ensures RunExact.Unchanged(c, again.walk.files[m], again.env.files[m].hashReadable)
    {
      FoundUnchanged(again.prev.value, r.walk, c, m, again.env.files[m].hashReadable);
    }
    RunExact.UnchangedSendsNothing(c, StoreOpened(w, again), again.walk.files, again.prev, again.env);
  }

  // ------------------------------------------------ opening the journal

  /** The journal can be read, is of this identity and at most a week old. */
  predicate Usable(j: Option<JournalFile>, identity: string, now: int) {
    j.Some? && j.value.Image? && j.value.identity == identity && now - j.value.createdAt <= 7 * 24 * 3600
  }

  /** How a journal is opened: continued exactly when it is usable and can be reopened; otherwise replaced
      exactly when one can be created, naming the snapshot of a readable one that is not usable; and done
      without exactly when neither is possible or there is no directory for it. */
  lemma {:induction false} OpensExactly(j: Option<JournalFile>, identity: string, now: int, env: OpenEnv)
    ensures var o, continues := Open(j, identity, now, env), Usable(j, identity, now) && env.reopens;
            && (o.Continued? <==> env.hasDir && continues)
            && (o.Continued? ==> j == Some(o.image))
            && (o.Fresh? <==> env.hasDir && !continues && env.creates)
            && (o.Fresh? ==>
                  o.stale == if j.Some? && j.value.Image? && !Usable(j, identity, now) then Some(j.value.id) else None)
            && (o.NoJournal? <==> !env.hasDir || (!continues && !env.creates))
  {
  }

  // ------------------------------------------------ a discarded journal

  /** A journal that is readable but of another identity or older than a week, when a new one can be created. */
  predicate Discards(w: World, r: RunInput) {
    && r.open.hasDir && r.open.creates
    && JournalAt(w, r.name).Some? && w.journals[r.name].Image?
    && (w.journals[r.name].identity != r.walk.identity || r.now - w.journals[r.name].createdAt > 7 * 24 * 3600)
  }

  /** After the run, nothing is left of a discarded journal's snapshot that could be deleted; and a run that
      discards no journal leaves every other unpublished prefix alone. */
  lemma {:induction false} DiscardedPrefixGone(w: World, r: RunInput, hash: Hash, key: string)
    requires Inv(w, hash) && StepOk(w, Backup(r)) && Coherent(w.walks + [r.walk]) && r.walk.files != []
    ensures var after := Next(w, Backup(r), hash).store;
            && (Discards(w, r) && Keys.Scoped(key, w.journals[r.name].id) && key in r.staleDeletable ==> key !in after)
            && (!Discards(w, r) && Keys.Owner(key) != RunCtx(w, r, hash).id ==> SameAt(w.store, after, key))
  {
    OpenMakesReady(w, r, hash);
    RunKeepsStore(RunCtx(w, r, hash), StoreOpened(w, r), w.used + {r.freshId}, w.walks, r.walk, RunLog(w, r), r.prev,
                  r.env);
    if Discards(w, r) && Keys.Scoped(key, w.journals[r.name].id) {
      assert JournalOk(w, hash, w.journals[r.name]);
      Keys.ScopedOwner(key, w.journals[r.name].id);
    }
  }
}
