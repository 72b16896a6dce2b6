/** The primary store and the vault side by side, over any interleaving of backup runs and vault syncs. */
module VaultHistory {
  import opened Domain
  import opened Storage
  import opened Retention
  import opened Vault
  import Keys
  import History

  datatype State = State(world: History.World, vault: Store)

  /** A step of the primary's history, or a sync followed by retention. `listed` is what the vault's
      retention lists. */
  datatype Move =
    | Primary(step: History.Step)
    | Sync(id: string, failing: set<string>, manifestFails: bool, deletable: set<string>, keep: nat,
           listed: seq<Snapshot>)

  const START := State(History.EMPTY, map[])

  /** The vault with the manifest written, before retention. */
  function WithSnapshot(vault: Store, primary: Store, m: Move): Store
    requires m.Sync? && Keys.ManifestKey(m.id) in primary
  {
    Synced(vault, primary, PrimaryItems(primary, m.id, {}), m.failing, m.id)
  }

  /** The sync is complete, and retention follows. */
  predicate Prunes(vault: Store, primary: Store, m: Move)
    requires m.Sync?
  {
    && Keys.ManifestKey(m.id) in primary && !m.manifestFails
    && !Hindered(vault, PrimaryItems(primary, m.id, {}), m.failing, m.id)
  }

  /** The vault after a sync: only one without any failed copy goes on to retention. */
  function AfterSync(vault: Store, primary: Store, m: Move): Store
    requires m.Sync?
  {
    var items := PrimaryItems(primary, m.id, {});
    if Keys.ManifestKey(m.id) !in primary then vault
    else if m.manifestFails then Copied(vault, primary, items, m.failing, m.id) - items * m.deletable
    else if !Prunes(vault, primary, m) then WithSnapshot(vault, primary, m)
    else Pruned(WithSnapshot(vault, primary, m), Expired(m.listed, m.keep), m.deletable)
  }

  predicate Sized(m: Move) {
    m.Primary? && m.step.Backup? ==> |m.step.run.walk.files| == |m.step.run.env.files|
  }

  function Next(s: State, m: Move, hash: Hash): State
    requires Sized(m)
  {
    match m
    case Primary(step) => s.(world := History.Next(s.world, step, hash))
    case Sync(_, _, _, _, _, _) => s.(vault := AfterSync(s.vault, s.world.store, m))
  }

  ghost predicate MoveOk(s: State, m: Move, hash: Hash) {
    match m
    case Primary(step) =>
      History.StepOk(s.world, step) && History.Coherent(History.Next(s.world, step, hash).walks)
    case Sync(id, _, _, _, _, listed) =>
      && Keys.SlashFree(id)
      && (Prunes(s.vault, s.world.store, m) ==> Inventory(WithSnapshot(s.vault, s.world.store, m), listed))
  }

  /** Nothing fails during a sync. */
  predicate Clean(s: State, m: Move) {
    m.Sync? && Keys.ManifestKey(m.id) in s.world.store ==>
      m.failing == {} && !m.manifestFails && WithSnapshot(s.vault, s.world.store, m).Keys <= m.deletable
  }

  /** The vault manager makes exactly this move. */
  method SyncStep(v: VaultManager, s: State, hash: Hash, id: string, failing: set<string>, manifestFails: bool,
                  deletable: set<string>)
    returns (ok: bool, ghost m: Move)
    requires v.primary != v.vault && v.primary.objects == s.world.store && v.vault.objects == s.vault
    requires History.Inv(s.world, hash) && Mirrors(s) && Keys.SlashFree(id)
    modifies v.vault
    ensures m.Sync? && m.id == id && m.failing == failing && m.manifestFails == manifestFails
    ensures m.deletable == deletable && m.keep == v.retention
    ensures v.vault.objects == Next(s, m, hash).vault
    ensures MoveOk(s, m, hash)
  {
    ghost var snaps;
    ok, snaps := v.SyncAfterBackup(id, {}, failing, manifestFails, deletable);
    WellNamedPair(s, hash);
    m := Sync(id, failing, manifestFails, deletable, v.retention, snaps);
  }

  // ------------------------------------------------ what the vault holds

  /** The vault holds nothing but copies of what the primary keeps below published prefixes. */
  ghost predicate Mirrors(s: State) {
    forall k :: k in s.vault ==>
      k in s.world.store && s.vault[k] == s.world.store[k] && History.IsPublished(s.world.store, Keys.Owner(k))
  }

  /** A key below the prefix of a snapshot whose manifest is here. */
  predicate Kept(vault: Store, key: string) {
    Keys.Scoped(key, Keys.Owner(key)) && History.IsPublished(vault, Keys.Owner(key))
  }

  /** Of the primary, the vault holds exactly the prefixes of the snapshots whose manifests it holds. */
  ghost predicate Whole(s: State) {
    forall k :: k in s.world.store ==> (k in s.vault <==> Kept(s.vault, k))
  }

  lemma {:induction false} WellNamedPair(s: State, hash: Hash)
    requires History.Inv(s.world, hash) && Mirrors(s)
    ensures WellNamed(s.world.store) && WellNamed(s.vault)
  {
    forall k | k in s.world.store && s.world.store[k].Manifest?
      ensures k == Keys.ManifestKey(s.world.store[k].snap.id) && Keys.SlashFree(s.world.store[k].snap.id)
    {
      assert History.ManifestOk(s.world.store, hash, s.world.used, k);
    }
  }

  // ------------------------------------------------ the primary's steps

  lemma {:induction false} OpenFreezes(w: History.World, r: History.RunInput, hash: Hash, k: string)
    requires History.Inv(w, hash) && History.StepOk(w, History.Backup(r))
    requires History.IsPublished(w.store, Keys.Owner(k))
    ensures SameAt(w.store, History.StoreOpened(w, r), k)
  {
    History.OpenKeepsStore(w, r, hash);
    if History.StoreOpened(w, r) != w.store {
      var id :| History.StaleId(w, r, id) && History.OnlyInside(w.store, History.StoreOpened(w, r), id);
      assert History.JournalOk(w, hash, w.journals[r.name]);
    }
  }

  lemma {:induction false} OwnManifest(k: string)
    ensures Keys.Owner(Keys.ManifestKey(Keys.Owner(k))) == Keys.Owner(k)
  {
    Keys.OwnerSlashFree(k);
    Keys.ManifestKeyFacts(Keys.Owner(k));
    Keys.ScopedOwner(Keys.ManifestKey(Keys.Owner(k)), Keys.Owner(k));
  }

  /** What a published snapshot's prefix holds never changes again. */
  lemma {:induction false} Frozen(w: History.World, step: History.Step, hash: Hash, k: string)
    requires History.Inv(w, hash) && History.StepOk(w, step) && History.Coherent(History.Next(w, step, hash).walks)
    requires History.IsPublished(w.store, Keys.Owner(k))
    ensures SameAt(w.store, History.Next(w, step, hash).store, k)
  {
    if step.Backup? && step.run.walk.files != [] {
      var r := step.run;
      History.OpenMakesReady(w, r, hash);
      OpenFreezes(w, r, hash, k);
      OwnManifest(k);
      OpenFreezes(w, r, hash, Keys.ManifestKey(Keys.Owner(k)));
      History.RunKeepsStore(History.RunCtx(w, r, hash), History.StoreOpened(w, r), w.used + {r.freshId}, w.walks,
                            r.walk, History.RunLog(w, r), r.prev, r.env);
    }
  }

  lemma {:induction false} PrimaryKeeps(s: State, step: History.Step, hash: Hash)
    requires History.Inv(s.world, hash) && Mirrors(s) && MoveOk(s, Primary(step), hash)
    ensures Mirrors(Next(s, Primary(step), hash))
    ensures Whole(s) ==> Whole(Next(s, Primary(step), hash))
  {
    var after := Next(s, Primary(step), hash);
    forall k | k in s.vault
      ensures k in after.world.store && s.vault[k] == after.world.store[k]
      ensures History.IsPublished(after.world.store, Keys.Owner(k))
    {
      Frozen(s.world, step, hash, k);
      OwnManifest(k);
      Frozen(s.world, step, hash, Keys.ManifestKey(Keys.Owner(k)));
    }
    if Whole(s) {
      forall k | k in after.world.store ensures k in s.vault <==> Kept(s.vault, k) {
        if Kept(s.vault, k) { Frozen(s.world, step, hash, k); }
      }
    }
  }

  // ------------------------------------------------ the syncs

  /** A key the sync brings in lies below the synced prefix. */
  lemma {:induction false} CopiedKeeps(s: State, hash: Hash, m: Move)
    requires m.Sync? && Keys.SlashFree(m.id) && Mirrors(s) && Keys.ManifestKey(m.id) in s.world.store
    ensures var items := PrimaryItems(s.world.store, m.id, {});
            Mirrors(s.(vault := Copied(s.vault, s.world.store, items, m.failing, m.id)))
    ensures Mirrors(s.(vault := WithSnapshot(s.vault, s.world.store, m)))
  {
    var items := PrimaryItems(s.world.store, m.id, {});
    var copied := Copied(s.vault, s.world.store, items, m.failing, m.id);
    Keys.ManifestKeyFacts(m.id);
    Keys.ScopedOwner(Keys.ManifestKey(m.id), m.id);
    forall k | k in copied && Copies(s.vault, items, m.failing, m.id, k)
      ensures k in s.world.store && History.IsPublished(s.world.store, Keys.Owner(k))
    {
      Keys.ScopedOwner(k, m.id);
    }
  }

  lemma {:induction false} SyncKeepsMirror(s: State, hash: Hash, m: Move)
    requires m.Sync? && Keys.SlashFree(m.id) && Mirrors(s)
    ensures Mirrors(Next(s, m, hash))
  {
    if Keys.ManifestKey(m.id) in s.world.store { CopiedKeeps(s, hash, m); }
  }

  /** What an error-free sync adds: the synced prefix. */
  lemma {:induction false} CopiedAt(s: State, m: Move, k: string)
    requires m.Sync? && Keys.SlashFree(m.id) && Keys.ManifestKey(m.id) in s.world.store && m.failing == {}
    requires k in s.world.store
    ensures k in WithSnapshot(s.vault, s.world.store, m) <==> k in s.vault || Keys.Scoped(k, m.id)
  {
    Keys.ManifestKeyFacts(m.id);
    assert Copies(s.vault, PrimaryItems(s.world.store, m.id, {}), {}, m.id, k)
        <==> Keys.Scoped(k, m.id) && !(k in s.vault && Keys.Scoped(k, m.id));
  }

  /** The manifests it adds: that of the synced snapshot. */
  lemma {:induction false} OnlyManifest(s: State, m: Move, id: string)
    requires m.Sync? && Keys.SlashFree(m.id) && Keys.SlashFree(id) && Keys.ManifestKey(m.id) in s.world.store
    ensures History.IsPublished(WithSnapshot(s.vault, s.world.store, m), id)
            <==> History.IsPublished(s.vault, id) || id == m.id
  {
    Keys.ManifestKeyFacts(id);
    Keys.OwnerIfScoped(Keys.ManifestKey(id), m.id);
  }

  /** Before retention, an error-free sync has brought in exactly one more prefix. */
  lemma {:induction false} CleanCopyWhole(s: State, m: Move)
    requires m.Sync? && Keys.SlashFree(m.id) && Whole(s) && Keys.ManifestKey(m.id) in s.world.store
    requires m.failing == {}
    ensures Whole(s.(vault := WithSnapshot(s.vault, s.world.store, m)))
  {
    var synced := WithSnapshot(s.vault, s.world.store, m);
    forall k | k in s.world.store ensures k in synced <==> Kept(synced, k) {
      CopiedAt(s, m, k);
      Keys.OwnerIfScoped(k, m.id);
      Keys.OwnerSlashFree(k);
      OnlyManifest(s, m, Keys.Owner(k));
    }
  }

  /** Whether a key goes is decided by its owner. */
  lemma {:induction false} GoesWithOwner(dropped: seq<Snapshot>, k: string)
    requires Keys.Scoped(k, Keys.Owner(k))
    requires forall i :: 0 <= i < |dropped| ==> Keys.SlashFree(dropped[i].id)
    ensures Under(k, dropped) <==> Under(Keys.ManifestKey(Keys.Owner(k)), dropped)
  {
    var own := Keys.ManifestKey(Keys.Owner(k));
    Keys.OwnerSlashFree(k);
    Keys.ManifestKeyFacts(Keys.Owner(k));
    if i :| 0 <= i < |dropped| && Keys.Scoped(k, dropped[i].id) {
      Keys.ScopedOwner(k, dropped[i].id);
      assert Keys.Scoped(own, dropped[i].id);
    }
    if i :| 0 <= i < |dropped| && Keys.Scoped(own, dropped[i].id) {
      Keys.ScopedOwner(own, dropped[i].id);
      assert Keys.Scoped(k, dropped[i].id);
    }
  }

  /** Retention takes whole prefixes away. */
  lemma {:induction false} PruneKeepsWhole(s: State, dropped: seq<Snapshot>, deletable: set<string>)
    requires Whole(s) && s.vault.Keys <= deletable
    requires forall i :: 0 <= i < |dropped| ==> Keys.SlashFree(dropped[i].id)
    ensures Whole(s.(vault := Pruned(s.vault, dropped, deletable)))
  {
    var left := Pruned(s.vault, dropped, deletable);
    forall k | k in s.world.store ensures k in left <==> Kept(left, k) {
      if Keys.Scoped(k, Keys.Owner(k)) { GoesWithOwner(dropped, k); }
    }
  }

  lemma {:induction false} DroppedIds(store: Store, listed: seq<Snapshot>, keep: nat)
    requires Inventory(store, listed)
    ensures forall i :: 0 <= i < |Expired(listed, keep)| ==> Keys.SlashFree(Expired(listed, keep)[i].id)
  {
    forall i | 0 <= i < |Expired(listed, keep)| ensures Keys.SlashFree(Expired(listed, keep)[i].id) {
      assert Expired(listed, keep)[i] == listed[i];
      ManifestAt(store, listed, listed[i]);
    }
  }

  lemma {:induction false} CleanSyncWhole(s: State, m: Move, hash: Hash)
    requires m.Sync? && MoveOk(s, m, hash) && Clean(s, m) && Whole(s)
    ensures Whole(Next(s, m, hash))
  {
    if Keys.ManifestKey(m.id) in s.world.store {
      var synced := WithSnapshot(s.vault, s.world.store, m);
      assert Prunes(s.vault, s.world.store, m);
      assert Next(s, m, hash) == s.(vault := Pruned(synced, Expired(m.listed, m.keep), m.deletable));
      CleanCopyWhole(s, m);
      DroppedIds(synced, m.listed, m.keep);
      PruneKeepsWhole(s.(vault := synced), Expired(m.listed, m.keep), m.deletable);
    }
  }

  // ------------------------------------------------ every interleaving

  ghost predicate Possible(s: State, ms: seq<Move>, hash: Hash)
    decreases ms
  {
    ms == [] || (MoveOk(s, ms[0], hash) && Possible(Next(s, ms[0], hash), ms[1..], hash))
  }

  ghost function Exec(s: State, ms: seq<Move>, hash: Hash): State
    requires Possible(s, ms, hash)
    decreases ms
  {
    if ms == [] then s else Exec(Next(s, ms[0], hash), ms[1..], hash)
  }

  /** Every sync on the way went through without an error. */
  ghost predicate AllClean(s: State, ms: seq<Move>, hash: Hash)
    requires Possible(s, ms, hash)
    decreases ms
  {
    ms == [] || (Clean(s, ms[0]) && AllClean(Next(s, ms[0], hash), ms[1..], hash))
  }

  lemma {:induction false} MoveKeeps(s: State, m: Move, hash: Hash)
    requires History.Inv(s.world, hash) && Mirrors(s) && MoveOk(s, m, hash)
    ensures History.Inv(Next(s, m, hash).world, hash) && Mirrors(Next(s, m, hash))
    ensures Whole(s) && Clean(s, m) ==> Whole(Next(s, m, hash))
  {
    match m
    case Primary(step) =>
      PrimaryKeeps(s, step, hash);
      if !step.Backup? {
        History.DamageKeepsInv(s.world, step, hash);
      } else if step.run.walk.files != [] {
        History.BackupKeepsInv(s.world, step.run, hash);
      }
    case Sync(_, _, _, _, _, _) =>
      SyncKeepsMirror(s, hash, m);
      if Whole(s) && Clean(s, m) { CleanSyncWhole(s, m, hash); }
  }

  lemma {:induction false} MovesKeep(s: State, ms: seq<Move>, hash: Hash)
    requires History.Inv(s.world, hash) && Mirrors(s) && Possible(s, ms, hash)
    ensures History.Inv(Exec(s, ms, hash).world, hash) && Mirrors(Exec(s, ms, hash))
    ensures Whole(s) && AllClean(s, ms, hash) ==> Whole(Exec(s, ms, hash))
    decreases ms
  {
    if ms != [] {
      MoveKeeps(s, ms[0], hash);
      MovesKeep(Next(s, ms[0], hash), ms[1..], hash);
    }
  }

  /** A manifest in the vault is the primary's, and sound exactly when the vault has all its objects. */
  lemma {:induction false} SoundIffPresent(s: State, hash: Hash, snap: Snapshot)
    requires History.Inv(s.world, hash) && Mirrors(s) && History.Holds(s.vault, snap)
    ensures History.Holds(s.world.store, snap)
    ensures Sound(s.vault, hash, snap) <==> forall e :: e in snap.files ==> e.backupPath in s.vault
    ensures forall e :: e in snap.files ==> e.backupPath in s.world.store
  {
    assert History.ManifestOk(s.world.store, hash, s.world.used, Keys.ManifestKey(snap.id));
    forall e | e in snap.files
      ensures e.backupPath in s.world.store && (Intact(s.vault, hash, e) <==> e.backupPath in s.vault)
    {
      assert History.EntryOk(s.world.store, hash, e);
    }
  }

  /** Over every interleaving of runs and syncs, with whatever failing: a manifest in the vault is one the
      primary holds, and is sound exactly when each object it names has been copied. With no sync failing,
      exactly when each object lies below the prefix of a snapshot whose manifest the vault still has. */
  lemma {:induction false} VaultSoundIff(ms: seq<Move>, hash: Hash, snap: Snapshot)
    requires Possible(START, ms, hash) && History.Holds(Exec(START, ms, hash).vault, snap)
    ensures var s := Exec(START, ms, hash);
            && History.Holds(s.world.store, snap)
            && (Sound(s.vault, hash, snap) <==> forall e :: e in snap.files ==> e.backupPath in s.vault)
            && (AllClean(START, ms, hash) ==>
                  (Sound(s.vault, hash, snap) <==> forall e :: e in snap.files ==> Kept(s.vault, e.backupPath)))
  {
    MovesKeep(START, ms, hash);
    SoundIffPresent(Exec(START, ms, hash), hash, snap);
  }
}
