/** Pruning by snapshot prefix: what it keeps, what it breaks, and why no manager the helper builds
    ever does it. */
module Retention {
  import opened Domain
  import opened Engine
  import opened Storage
  import Keys

  predicate Under(key: string, dropped: seq<Snapshot>) {
    exists i :: 0 <= i < |dropped| && Keys.Scoped(key, dropped[i].id)
  }

  /** The store once everything deletable below the dropped snapshots is gone. */
  function Pruned(store: Store, dropped: seq<Snapshot>, deletable: set<string>): Store {
    store - (set k | k in store && Under(k, dropped) && k in deletable)
  }

  /** All but the newest `keep` of an oldest-first list. */
  function Expired(snaps: seq<Snapshot>, keep: nat): seq<Snapshot> {
    if |snaps| <= keep then [] else snaps[..|snaps| - keep]
  }

  lemma {:induction false} PruneOne(store: Store, dropped: seq<Snapshot>, next: Snapshot, deletable: set<string>)
    ensures Cleanup(Pruned(store, dropped, deletable), next.id, deletable) == Pruned(store, dropped + [next], deletable)
  {
    forall k ensures Under(k, dropped + [next]) <==> Under(k, dropped) || Keys.Scoped(k, next.id) {
      assert (dropped + [next])[|dropped|] == next;
      if i :| 0 <= i < |dropped| && Keys.Scoped(k, dropped[i].id) { assert (dropped + [next])[i] == dropped[i]; }
    }
    assert Cleanup(Pruned(store, dropped, deletable), next.id, deletable).Keys
        == Pruned(store, dropped + [next], deletable).Keys;
  }

  /** Drop the oldest snapshots beyond `keep`, prefix by prefix. Deletions that fail, or are never
      reached because the run was cancelled, are those outside `deletable`. */
  method DropExpired(p: Provider, snaps: seq<Snapshot>, keep: nat, stray: set<string>, deletable: set<string>)
    modifies p
    ensures p.objects == Pruned(old(p.objects), Expired(snaps, keep), deletable)
  {
    var expired := Expired(snaps, keep);
    for i := 0 to |expired|
      invariant p.objects == Pruned(old(p.objects), expired[..i], deletable)
    {
      PruneOne(old(p.objects), expired[..i], expired[i], deletable);
      assert expired[..i] + [expired[i]] == expired[..i + 1];
      CleanupSnapshotPrefix(p, expired[i].id, stray, deletable);
    }
    assert expired[..|expired|] == expired;
  }

  /** The agent's own retention: does nothing for a non-positive count or an unusable listing. */
  method DeleteSnapshots(p: Provider, retention: int, stray: set<string>, unreadable: set<string>,
                         deletable: set<string>)
    returns (ghost snaps: seq<Snapshot>)
    modifies p
    ensures retention <= 0 ==> p.objects == old(p.objects)
    ensures retention > 0 ==> p.objects == Pruned(old(p.objects), Expired(snaps, retention), deletable)
    ensures retention > 0 ==> Ascending(snaps) && forall s :: s in snaps <==>
              exists k :: Listed(old(p.objects), k, stray) && Fetch(old(p.objects), k, unreadable) == Some(s)
  {
    snaps := [];
    if retention <= 0 { return; }
    var listed, _ := ListSnapshots(p, stray, unreadable);
    DropExpired(p, listed, retention, stray, deletable);
    snaps := listed;
  }

  /** Pruning ignores references: a manifest that was sound stays sound exactly when none of its
      objects lies below a dropped snapshot's prefix. */
  lemma {:induction false} SoundAfterPruning(store: Store, hash: Hash, dropped: seq<Snapshot>, deletable: set<string>,
                                             s: Snapshot)
    requires Sound(store, hash, s) && store.Keys <= deletable
    ensures Sound(Pruned(store, dropped, deletable), hash, s) <==>
              forall e :: e in s.files ==> !Under(e.backupPath, dropped)
  {
    forall e | e in s.files
      ensures Intact(Pruned(store, dropped, deletable), hash, e) <==> !Under(e.backupPath, dropped)
    {
      assert Intact(store, hash, e);
    }
  }

  /** A manifest all of whose objects lie below its own prefix. */
  predicate NoReferences(s: Snapshot) {
    forall e :: e in s.files ==> Keys.Scoped(e.backupPath, s.id)
  }

  /** Without references, any retained snapshot survives. */
  lemma {:induction false} FullSnapshotsSurvive(store: Store, hash: Hash, dropped: seq<Snapshot>,
                                                deletable: set<string>, s: Snapshot)
    requires Sound(store, hash, s) && store.Keys <= deletable && NoReferences(s)
    requires Keys.SlashFree(s.id)
    requires forall i :: 0 <= i < |dropped| ==> Keys.SlashFree(dropped[i].id) && dropped[i].id != s.id
    ensures Sound(Pruned(store, dropped, deletable), hash, s)
  {
    forall e | e in s.files ensures !Under(e.backupPath, dropped) {
      if i :| 0 <= i < |dropped| && Keys.Scoped(e.backupPath, dropped[i].id) {
        Keys.ScopesDisjoint(e.backupPath, s.id, dropped[i].id);
      }
    }
    SoundAfterPruning(store, hash, dropped, deletable, s);
  }

  /** Exactly the manifests of a well-named store, oldest first, each once. */
  ghost predicate Inventory(store: Store, snaps: seq<Snapshot>) {
    && WellNamed(store) && Ascending(snaps) && NoDup(snaps)
    && forall s :: s in snaps <==> exists k :: k in store && store[k] == Manifest(s)
  }

  lemma {:induction false} ManifestAt(store: Store, snaps: seq<Snapshot>, s: Snapshot)
    requires Inventory(store, snaps) && s in snaps
    ensures Keys.ManifestKey(s.id) in store && store[Keys.ManifestKey(s.id)] == Manifest(s) && Keys.SlashFree(s.id)
  {
    var k :| k in store && store[k] == Manifest(s);
  }

  lemma {:induction false} IdsDiffer(store: Store, snaps: seq<Snapshot>, i: nat, j: nat)
    requires Inventory(store, snaps) && i < j < |snaps|
    ensures snaps[i].id != snaps[j].id && Keys.SlashFree(snaps[i].id) && Keys.SlashFree(snaps[j].id)
  {
    ManifestAt(store, snaps, snaps[i]);
    ManifestAt(store, snaps, snaps[j]);
  }

  /** After pruning with every deletion succeeding, the manifests left are the newest `keep`, in order:
      as many as there were up to `keep`, and none dropped is newer than one left. */
  lemma {:induction false} NewestRemain(store: Store, snaps: seq<Snapshot>, keep: nat, deletable: set<string>)
    requires Inventory(store, snaps) && store.Keys <= deletable
    ensures var left := snaps[|Expired(snaps, keep)|..];
            && Inventory(Pruned(store, Expired(snaps, keep), deletable), left)
            && |left| == (if |snaps| <= keep then |snaps| else keep)
            && forall d, s :: d in Expired(snaps, keep) && s in left ==> d.timestamp <= s.timestamp
  {
    var gone := Expired(snaps, keep);
    var left := snaps[|gone|..];
    var after := Pruned(store, gone, deletable);
    forall s ensures s in left <==> exists k :: k in after && after[k] == Manifest(s) {
      if s in left {
        KeptManifest(store, snaps, |gone|, s);
        ManifestAt(store, snaps, s);
        assert after[Keys.ManifestKey(s.id)] == Manifest(s);
      }
      if k :| k in after && after[k] == Manifest(s) {
        assert store[k] == Manifest(s) && s in snaps;
        DroppedManifest(store, snaps, |gone|, k, s);
      }
    }
  }

  lemma {:induction false} KeptManifest(store: Store, snaps: seq<Snapshot>, n: nat, s: Snapshot)
    requires Inventory(store, snaps) && n <= |snaps| && s in snaps[n..]
    ensures !Under(Keys.ManifestKey(s.id), snaps[..n])
  {
    var j :| n <= j < |snaps| && snaps[j] == s;
    forall i | 0 <= i < n ensures !Keys.Scoped(Keys.ManifestKey(s.id), snaps[..n][i].id) {
      IdsDiffer(store, snaps, i, j);
      Keys.ManifestKeyFacts(s.id);
      Keys.OwnerIfScoped(Keys.ManifestKey(s.id), snaps[i].id);
    }
  }

  lemma {:induction false} UnderPrefix(key: string, snaps: seq<Snapshot>, n: nat, i: nat)
    requires i < |snaps| && n <= |snaps| && Keys.Scoped(key, snaps[i].id)
    ensures i < n ==> Under(key, snaps[..n])
  {
    if i < n { assert snaps[..n][i] == snaps[i]; }
  }

  lemma {:induction false} DroppedManifest(store: Store, snaps: seq<Snapshot>, n: nat, k: string, s: Snapshot)
    requires Inventory(store, snaps) && n <= |snaps| && s in snaps
    requires k in store && store[k] == Manifest(s) && !Under(k, snaps[..n])
    ensures s in snaps[n..]
  {
    var i :| 0 <= i < |snaps| && snaps[i] == s;
    Keys.ManifestKeyFacts(s.id);
    UnderPrefix(k, snaps, n, i);
    assert snaps[n..][i - n] == s;
  }
}
