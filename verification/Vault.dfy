/** The local vault: a mirror of the primary store, synchronised snapshot by snapshot and pruned to the
    newest few. */
module Vault {
  import opened Domain
  import opened Storage
  import opened Retention
  import Keys

  const DEFAULT_RETENTION := 3

  /** What syncing one snapshot leaves in the vault: the vault's own copies below the prefix are kept
      unread, everything else the primary lists is copied over, and the manifest goes last. */
  function Synced(vault: Store, primary: Store, items: set<string>, failing: set<string>, id: string): Store
    requires Keys.ManifestKey(id) in primary
  {
    Copied(vault, primary, items, failing, id)[Keys.ManifestKey(id) := primary[Keys.ManifestKey(id)]]
  }

  function Copied(vault: Store, primary: Store, items: set<string>, failing: set<string>, id: string): Store {
    vault + (map k | k in primary && Copies(vault, items, failing, id, k) :: primary[k])
  }

  predicate Copies(vault: Store, items: set<string>, failing: set<string>, id: string, key: string) {
    key in items && key !in failing && !(key in vault && Keys.Scoped(key, id))
  }

  lemma {:induction false} CopyStep(vault: Store, primary: Store, items: set<string>, failing: set<string>, id: string,
                                    key: string)
    requires key in primary
    ensures var before := Copied(vault, primary, items, failing, id);
            Copied(vault, primary, items + {key}, failing, id)
            == if Copies(vault, {key}, failing, id, key) then before[key := primary[key]] else before
  {
    assert Copies(vault, {key}, failing, id, key) == Copies(vault, items + {key}, failing, id, key);
    forall k | k != key ensures Copies(vault, items + {key}, failing, id, k) == Copies(vault, items, failing, id, k) {}
  }

  /** What the primary lists for a snapshot's bare prefix. */
  function PrimaryItems(primary: Store, id: string, stray: set<string>): set<string> {
    set k | k in primary && (Keys.Scoped(k, id) || k in stray)
  }

  /** Some copy that is needed fails. */
  predicate Hindered(vault: Store, items: set<string>, failing: set<string>, id: string) {
    exists k :: k in items && k in failing && !(k in vault && Keys.Scoped(k, id))
  }

  lemma {:induction false} HinderStep(vault: Store, items: set<string>, failing: set<string>, id: string, key: string)
    ensures Hindered(vault, items + {key}, failing, id)
            <==> Hindered(vault, items, failing, id) || (key in failing && !(key in vault && Keys.Scoped(key, id)))
  {
    if key in failing && !(key in vault && Keys.Scoped(key, id)) { assert key in items + {key}; }
    if k :| k in items && k in failing && !(k in vault && Keys.Scoped(k, id)) { assert k in items + {key}; }
  }

  class VaultManager {
    const primary: Provider
    const vault: Provider
    const retention: nat

    constructor (primaryStore: Provider, vaultStore: Provider, count: int)
      ensures primary == primaryStore && vault == vaultStore
      ensures retention == if count <= 0 then DEFAULT_RETENTION else count
    {
      primary, vault := primaryStore, vaultStore;
      retention := if count <= 0 then DEFAULT_RETENTION else count;
    }

    /** Copy a snapshot into the vault. `failing` are the copies that fail; `stray` are keys outside the
        snapshot's directory that the primary's listing returns for the bare prefix. When the manifest
        cannot be written, whatever the primary listed is deleted from the vault again. */
    method SyncSnapshot(id: string, stray: set<string>, failing: set<string>, manifestFails: bool,
                        deletable: set<string>)
      returns (ok: bool, clean: bool)
      requires primary != vault
      modifies vault
      ensures ok <==> Keys.ManifestKey(id) in primary.objects && !manifestFails
      ensures ok ==>
                vault.objects == Synced(old(vault.objects), primary.objects, PrimaryItems(primary.objects, id, stray),
                                        failing, id)
      ensures ok ==> clean == !Hindered(old(vault.objects), PrimaryItems(primary.objects, id, stray), failing, id)
      ensures Keys.ManifestKey(id) !in primary.objects ==> vault.objects == old(vault.objects)
      ensures Keys.ManifestKey(id) in primary.objects && manifestFails ==>
                vault.objects == Copied(old(vault.objects), primary.objects, PrimaryItems(primary.objects, id, stray),
                                        failing, id)
                                 - PrimaryItems(primary.objects, id, stray) * deletable
    {
      ok, clean := false, true;
      var manifestKey := Keys.ManifestKey(id);
      if manifestKey !in primary.objects { return; }
      var listed := primary.List(Keys.SnapshotDir(id), stray);
      var present := vault.List(Keys.SnapshotDir(id), {});
      clean := CopyMissing(listed, present, failing, id);
      assert (set k | k in listed) == PrimaryItems(primary.objects, id, stray);
      if manifestFails {
        DeleteAll(listed, deletable);
        assert (set k | k in listed && k in deletable) == PrimaryItems(primary.objects, id, stray) * deletable;
        return;
      }
      vault.Put(manifestKey, primary.objects[manifestKey]);
      ok := true;
    }

    method CopyMissing(listed: seq<string>, present: seq<string>, failing: set<string>,
                       ghost id: string) returns (clean: bool)
      requires primary != vault
      requires forall k :: k in listed ==> k in primary.objects
      requires forall k :: k in present <==> k in vault.objects && Keys.Scoped(k, id)
      modifies vault
      ensures vault.objects == Copied(old(vault.objects), primary.objects, (set x | x in listed), failing, id)
      ensures clean == !Hindered(old(vault.objects), (set x | x in listed), failing, id)
    {
      clean := true;
      ghost var before, items := vault.objects, {};
      for i := 0 to |listed|
        invariant items == set x | x in listed[..i]
        invariant vault.objects == Copied(before, primary.objects, items, failing, id)
        invariant clean == !Hindered(before, items, failing, id)
      {
        var key := listed[i];
        CopyStep(before, primary.objects, items, failing, id, key);
        HinderStep(before, items, failing, id, key);
        assert listed[..i + 1] == listed[..i] + [key];
        assert key in present <==> key in before && Keys.Scoped(key, id);
        if key !in present {
          if key in failing {
            clean := false;
          } else {
            vault.Put(key, primary.objects[key]);
          }
        }
        items := items + {key};
      }
      assert listed[..|listed|] == listed;
    }

    method DeleteAll(listed: seq<string>, deletable: set<string>)
      modifies vault
      ensures vault.objects == old(vault.objects) - (set k | k in listed && k in deletable)
    {
      for i := 0 to |listed|
        invariant vault.objects == old(vault.objects) - (set k | k in listed[..i] && k in deletable)
      {
        assert listed[..i + 1] == listed[..i] + [listed[i]];
        vault.Delete(listed[i], listed[i] in deletable);
      }
      assert listed[..|listed|] == listed;
    }

    /** Prune the vault to its newest snapshots. */
    method EnforceRetention(unreadable: set<string>, deletable: set<string>) returns (ghost snaps: seq<Snapshot>)
      modifies vault
      ensures vault.objects == Pruned(old(vault.objects), Expired(snaps, retention), deletable)
      ensures Ascending(snaps) && forall s :: s in snaps <==>
                exists k :: Listed(old(vault.objects), k, {}) && Fetch(old(vault.objects), k, unreadable) == Some(s)
      ensures WellNamed(old(vault.objects)) ==> NoDup(snaps)
    {
      var listed, _ := ListSnapshots(vault, {}, unreadable);
      DropExpired(vault, listed, retention, {}, deletable);
      snaps := listed;
    }

    /** Sync, then prune. With nothing failing, the vault ends with its newest manifests: as many as
        there were up to the retention count. */
    method SyncAfterBackup(id: string, stray: set<string>, failing: set<string>, manifestFails: bool,
                           deletable: set<string>)
      returns (ok: bool, ghost snaps: seq<Snapshot>)
      requires primary != vault
      modifies vault
      ensures ok <==> && Keys.ManifestKey(id) in primary.objects && !manifestFails
                      && !Hindered(old(vault.objects), PrimaryItems(primary.objects, id, stray), failing, id)
      ensures Keys.ManifestKey(id) !in primary.objects ==> vault.objects == old(vault.objects)
      ensures Keys.ManifestKey(id) in primary.objects && manifestFails ==>
                vault.objects == Copied(old(vault.objects), primary.objects, PrimaryItems(primary.objects, id, stray),
                                        failing, id)
                                 - PrimaryItems(primary.objects, id, stray) * deletable
      ensures !ok && Keys.ManifestKey(id) in primary.objects && !manifestFails ==>
                vault.objects == Synced(old(vault.objects), primary.objects, PrimaryItems(primary.objects, id, stray),
                                        failing, id)
      ensures ok && WellNamed(primary.objects) && WellNamed(old(vault.objects)) ==>
                var synced := Synced(old(vault.objects), primary.objects, PrimaryItems(primary.objects, id, stray),
                                     failing, id);
                && Inventory(synced, snaps)
                && vault.objects == Pruned(synced, Expired(snaps, retention), deletable)
                && (synced.Keys <= deletable ==> Inventory(vault.objects, snaps[|Expired(snaps, retention)|..]))
    {
      snaps := [];
      var clean;
      ok, clean := SyncSnapshot(id, stray, failing, manifestFails, deletable);
      if !ok || !clean { return false, []; }
      ghost var synced := vault.objects;
      snaps := EnforceRetention({}, deletable);
      if WellNamed(primary.objects) && WellNamed(old(vault.objects)) {
        SyncedWellNamed(old(vault.objects), primary.objects, PrimaryItems(primary.objects, id, stray), failing, id);
        ListingIsInventory(synced, snaps);
        if synced.Keys <= deletable { NewestRemain(synced, snaps, retention, deletable); }
      }
    }
  }

  lemma {:induction false} SyncedWellNamed(vault: Store, primary: Store, items: set<string>, failing: set<string>,
                                           id: string)
    requires WellNamed(vault) && WellNamed(primary) && Keys.ManifestKey(id) in primary
    ensures WellNamed(Synced(vault, primary, items, failing, id))
  {
    var synced := Synced(vault, primary, items, failing, id);
    forall k | k in synced && synced[k].Manifest?
      ensures k == Keys.ManifestKey(synced[k].snap.id) && Keys.SlashFree(synced[k].snap.id)
    {
      assert (k in vault && synced[k] == vault[k]) || (k in primary && synced[k] == primary[k]);
    }
  }

  lemma {:induction false} ListingIsInventory(store: Store, snaps: seq<Snapshot>)
    requires WellNamed(store) && Ascending(snaps) && NoDup(snaps)
    requires forall s :: s in snaps <==> exists k :: Listed(store, k, {}) && Fetch(store, k, {}) == Some(s)
    ensures Inventory(store, snaps)
  {
    forall s ensures s in snaps <==> exists k :: k in store && store[k] == Manifest(s) {
      if k :| k in store && store[k] == Manifest(s) {
        Keys.ManifestKeyFacts(s.id);
        assert Keys.ROOT <= k;
        assert Listed(store, k, {}) && Fetch(store, k, {}) == Some(s);
      }
      if k :| Listed(store, k, {}) && Fetch(store, k, {}) == Some(s) { assert store[k] == Manifest(s); }
    }
  }

  /** The vault's own copies below a prefix agree with the primary's. */
  predicate Agrees(vault: Store, primary: Store, id: string) {
    forall k :: k in vault && k in primary && Keys.Scoped(k, id) ==> vault[k] == primary[k]
  }

  /** Every key after a sync that writes its manifest: the manifest is the primary's; a key of the snapshot that
      could be copied is the primary's too unless the vault had it, and one that the listing strayed upon
      always is; any other key is as it was. */
  lemma {:induction false} SyncedExactly(vault: Store, primary: Store, stray: set<string>, failing: set<string>,
                                         id: string, key: string)
    requires Keys.ManifestKey(id) in primary
    ensures var synced := Synced(vault, primary, PrimaryItems(primary, id, stray), failing, id);
            var copied := key in primary && key !in failing
                          && (if Keys.Scoped(key, id) then key !in vault else key in stray);
            if key == Keys.ManifestKey(id) || copied then key in synced && synced[key] == primary[key]
            else SameAt(vault, synced, key)
  {
  }

  /** One entry after an error-free sync: an object below the synced prefix is as intact as the copy
      the vault kept or else as the primary's; any other object is as intact as it was in the vault. */
  lemma {:induction false} IntactAfterSync(vault: Store, primary: Store, hash: Hash, id: string, e: SnapshotFile)
    requires Keys.ManifestKey(id) in primary && e.backupPath != Keys.ManifestKey(id)
    ensures Intact(Synced(vault, primary, PrimaryItems(primary, id, {}), {}, id), hash, e) <==>
            if Keys.Scoped(e.backupPath, id) && e.backupPath !in vault then Intact(primary, hash, e)
            else Intact(vault, hash, e)
  {
    var items := PrimaryItems(primary, id, {});
    assert Copies(vault, items, {}, id, e.backupPath)
        <==> e.backupPath in primary && Keys.Scoped(e.backupPath, id) && e.backupPath !in vault;
  }

  /** Syncing copies one prefix and nothing a manifest references outside it: a snapshot that is sound
      in the primary is sound in the vault exactly when its references were intact there already. */
  lemma {:induction false} SoundAfterSync(vault: Store, primary: Store, hash: Hash, s: Snapshot)
    requires Keys.ManifestKey(s.id) in primary && primary[Keys.ManifestKey(s.id)] == Manifest(s)
    requires Sound(primary, hash, s) && Agrees(vault, primary, s.id)
    ensures Sound(Synced(vault, primary, PrimaryItems(primary, s.id, {}), {}, s.id), hash, s)
            <==> forall e :: e in s.files && !Keys.Scoped(e.backupPath, s.id) ==> Intact(vault, hash, e)
  {
    var synced := Synced(vault, primary, PrimaryItems(primary, s.id, {}), {}, s.id);
    forall e | e in s.files
      ensures Intact(synced, hash, e) <==> (Keys.Scoped(e.backupPath, s.id) || Intact(vault, hash, e))
    {
      assert Intact(primary, hash, e);
      IntactAfterSync(vault, primary, hash, s.id, e);
    }
  }

  /** Retention characterised: of the manifests an error-free retention leaves, one that was sound stays
      sound exactly when none of its objects lies below a dropped prefix; without references, always. */
  lemma {:induction false} RetainedStaysSound(store: Store, hash: Hash, snaps: seq<Snapshot>, keep: nat,
                                              deletable: set<string>, s: Snapshot)
    requires Inventory(store, snaps) && store.Keys <= deletable
    requires s in snaps[|Expired(snaps, keep)|..] && Sound(store, hash, s)
    ensures var gone := Expired(snaps, keep);
            && (Sound(Pruned(store, gone, deletable), hash, s) <==>
                forall e :: e in s.files ==> !Under(e.backupPath, gone))
            && (NoReferences(s) ==> Sound(Pruned(store, gone, deletable), hash, s))
  {
    var gone := Expired(snaps, keep);
    SoundAfterPruning(store, hash, gone, deletable, s);
    if NoReferences(s) {
      ManifestAt(store, snaps, s);
      var j :| |gone| <= j < |snaps| && snaps[j] == s;
      forall i | 0 <= i < |gone| ensures Keys.SlashFree(gone[i].id) && gone[i].id != s.id {
        IdsDiffer(store, snaps, i, j);
      }
      FullSnapshotsSurvive(store, hash, gone, deletable, s);
    }
  }
}
