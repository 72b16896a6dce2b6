/** The object store as the engine uses it, and the listings and deletions built on it. */
module Storage {
  import opened Domain
  import opened Engine
  import Keys

  predicate NoDup<T(==)>(s: seq<T>) {
    forall i, j :: 0 <= i < j < |s| ==> s[i] != s[j]
  }

  lemma {:induction false} NoDupSnoc<T>(s: seq<T>, x: T)
    requires NoDup(s) && x !in s
    ensures NoDup(s + [x])
  {
  }

  class Provider {
    var objects: Store

    constructor ()
      ensures objects == map[]
    {
      objects := map[];
    }

    method Upload(key: string, data: Bytes, a: Attempt)
      modifies this
      ensures objects == Apply(old(objects), key, data, a)
    {
      match a
      case Delivered => objects := objects[key := Blob(data)];
      case Failed(left) => Settle(key, left);
      case Cancelled(left) => Settle(key, left);
    }

    /** A transfer that succeeds. */
    method Put(key: string, item: Object)
      modifies this
      ensures objects == old(objects)[key := item]
    {
      objects := objects[key := item];
    }

    method Settle(key: string, left: Residue)
      modifies this
      ensures objects == Leave(old(objects), key, left)
    {
      match left
      case Untouched =>
      case Removed => objects := objects - {key};
      case Partial(data) => objects := objects[key := Blob(data)];
    }

    method Delete(key: string, succeeds: bool)
      modifies this
      ensures objects == if succeeds then old(objects) - {key} else old(objects)
    {
      if succeeds { objects := objects - {key}; }
    }

    /** Everything at or below a directory; a provider may return `stray` keys as well. */
    method List(dir: string, stray: set<string>) returns (items: seq<string>)
      ensures forall k :: k in items <==> k in objects && (k == dir || dir + "/" <= k || k in stray)
      ensures NoDup(items)
    {
      items := [];
      var left := objects.Keys;
      while left != {}
        invariant left <= objects.Keys && NoDup(items)
        invariant forall k :: k in items <==> k in objects.Keys - left && (k == dir || dir + "/" <= k || k in stray)
        decreases |left|
      {
        var key :| key in left;
        if key == dir || dir + "/" <= key || key in stray {
          NoDupSnoc(items, key);
          items := items + [key];
        }
        left := left - {key};
      }
    }
  }

  /** A snapshot's own keys: strays a listing returned from outside its directory are dropped. */
  method ListSnapshotPrefixItems(p: Provider, id: string, stray: set<string>) returns (scoped: seq<string>)
    ensures forall k :: k in scoped <==> k in p.objects && Keys.Scoped(k, id)
  {
    var items := p.List(Keys.SnapshotDir(id), stray);
    scoped := [];
    for i := 0 to |items|
      invariant forall k :: k in scoped <==> k in items[..i] && Keys.Scoped(k, id)
    {
      if Keys.Scoped(items[i], id) { scoped := scoped + [items[i]]; }
      assert items[..i + 1] == items[..i] + [items[i]];
    }
    assert items[..|items|] == items;
  }

  /** Delete what is listed below one snapshot's prefix; deletions that fail are passed over. */
  method CleanupSnapshotPrefix(p: Provider, id: string, stray: set<string>, deletable: set<string>)
    modifies p
    ensures p.objects == Cleanup(old(p.objects), id, deletable)
  {
    var items := ListSnapshotPrefixItems(p, id, stray);
    for i := 0 to |items|
      invariant p.objects == old(p.objects) - (set k | k in items[..i] && k in deletable)
    {
      assert items[..i + 1] == items[..i] + [items[i]];
      p.Delete(items[i], items[i] in deletable);
    }
    assert items[..|items|] == items;
    assert (set k | k in items && k in deletable)
        == (set k | k in old(p.objects) && Keys.Scoped(k, id) && k in deletable);
  }

  // ------------------------------------------------ listing snapshots

  /** The manifest stored under a key, if it can be fetched and decoded. */
  function Fetch(store: Store, key: string, unreadable: set<string>): Option<Snapshot> {
    if key in store && store[key].Manifest? && key !in unreadable then Some(store[key].snap) else None
  }

  predicate Ascending(snaps: seq<Snapshot>) {
    forall i, j :: 0 <= i < j < |snaps| ==> snaps[i].timestamp <= snaps[j].timestamp
  }

  /** Put a snapshot behind every one that is not younger. */
  method InsertByTime(snaps: seq<Snapshot>, s: Snapshot) returns (r: seq<Snapshot>)
    requires Ascending(snaps)
    ensures Ascending(r) && multiset(r) == multiset(snaps) + multiset{s}
  {
    var i := |snaps|;
    while i > 0 && s.timestamp < snaps[i - 1].timestamp
      invariant 0 <= i <= |snaps|
      invariant forall k :: i <= k < |snaps| ==> s.timestamp < snaps[k].timestamp
    {
      i := i - 1;
    }
    r := Inserted(snaps, s, i);
    InsertedInOrder(snaps, s, i);
    InsertedOnce(snaps, s, i);
  }

  function Inserted(snaps: seq<Snapshot>, s: Snapshot, i: nat): seq<Snapshot>
    requires i <= |snaps|
  {
    snaps[..i] + [s] + snaps[i..]
  }

  lemma {:induction false} InsertedOnce(snaps: seq<Snapshot>, s: Snapshot, i: nat)
    requires i <= |snaps|
    ensures multiset(Inserted(snaps, s, i)) == multiset(snaps) + multiset{s}
  {
    assert snaps == snaps[..i] + snaps[i..];
  }

  lemma {:induction false} InsertedInOrder(snaps: seq<Snapshot>, s: Snapshot, i: nat)
    requires Ascending(snaps) && i <= |snaps|
    requires i > 0 ==> snaps[i - 1].timestamp <= s.timestamp
    requires forall k :: i <= k < |snaps| ==> s.timestamp < snaps[k].timestamp
    ensures Ascending(Inserted(snaps, s, i))
  {
    var r := Inserted(snaps, s, i);
    forall a, b | 0 <= a < b < |r| ensures r[a].timestamp <= r[b].timestamp {
      assert a < i ==> r[a] == snaps[a] && r[a].timestamp <= s.timestamp;
      assert b < i ==> r[b] == snaps[b];
      assert a > i ==> r[a] == snaps[a - 1];
      assert b > i ==> r[b] == snaps[b - 1] && s.timestamp <= r[b].timestamp;
    }
  }

  /** The readable manifests among the keys in `items`, with multiplicity. */
  function Readable(store: Store, items: seq<string>, unreadable: set<string>): multiset<Snapshot> {
    if items == [] then multiset{}
    else
      var key := items[|items| - 1];
      var before := Readable(store, items[..|items| - 1], unreadable);
      if Keys.IsManifestPath(key) && Fetch(store, key, unreadable).Some?
      then before + multiset{Fetch(store, key, unreadable).value}
      else before
  }

  lemma {:induction false} ReadableMeaning(store: Store, items: seq<string>, unreadable: set<string>, s: Snapshot)
    ensures s in Readable(store, items, unreadable) <==>
            exists k :: k in items && Keys.IsManifestPath(k) && Fetch(store, k, unreadable) == Some(s)
  {
    if items != [] {
      var n := |items| - 1;
      ReadableMeaning(store, items[..n], unreadable, s);
      assert items == items[..n] + [items[n]];
    }
  }

  predicate AnyUnreadable(store: Store, items: seq<string>, unreadable: set<string>) {
    exists k :: k in items && Keys.IsManifestPath(k) && Fetch(store, k, unreadable).None?
  }

  /** Fetch the manifests among the listed keys, oldest first. */
  method FetchManifests(p: Provider, items: seq<string>, unreadable: set<string>) returns (snaps: seq<Snapshot>,
                        failed: bool)
    ensures Ascending(snaps) && multiset(snaps) == Readable(p.objects, items, unreadable)
    ensures failed == AnyUnreadable(p.objects, items, unreadable)
  {
    snaps, failed := [], false;
    for i := 0 to |items|
      invariant Ascending(snaps) && multiset(snaps) == Readable(p.objects, items[..i], unreadable)
      invariant failed == AnyUnreadable(p.objects, items[..i], unreadable)
    {
      assert items[..i + 1][..i] == items[..i];
      assert items[..i + 1] == items[..i] + [items[i]];
      if Keys.IsManifestPath(items[i]) {
        var fetched := Fetch(p.objects, items[i], unreadable);
        if fetched.Some? {
          snaps := InsertByTime(snaps, fetched.value);
        } else {
          failed := true;
        }
      }
    }
    assert items[..|items|] == items;
  }

  /** Every manifest lies where its snapshot's ID puts it. */
  predicate WellNamed(store: Store) {
    forall k :: k in store && store[k].Manifest? ==>
      k == Keys.ManifestKey(store[k].snap.id) && Keys.SlashFree(store[k].snap.id)
  }

  lemma {:induction false} KeyOfManifest(store: Store, key: string, unreadable: set<string>, s: Snapshot)
    requires WellNamed(store)
    ensures Fetch(store, key, unreadable) == Some(s) ==> key == Keys.ManifestKey(s.id)
  {
  }

  lemma {:induction false} NotEarlier(store: Store, items: seq<string>, unreadable: set<string>, s: Snapshot)
    requires WellNamed(store) && NoDup(items) && items != [] && Fetch(store, items[|items| - 1], unreadable) == Some(s)
    ensures s !in Readable(store, items[..|items| - 1], unreadable)
  {
    var n := |items| - 1;
    KeyOfManifest(store, items[n], unreadable, s);
    forall k | k in items[..n] ensures Fetch(store, k, unreadable) != Some(s) {
      var i :| 0 <= i < n && items[..n][i] == k;
      assert items[i] != items[n];
      KeyOfManifest(store, k, unreadable, s);
    }
    ReadableMeaning(store, items[..n], unreadable, s);
  }

  lemma {:induction false} ReadableOnce(store: Store, items: seq<string>, unreadable: set<string>, s: Snapshot)
    requires WellNamed(store) && NoDup(items)
    ensures Readable(store, items, unreadable)[s] <= 1
  {
    if items != [] {
      var n := |items| - 1;
      ReadableOnce(store, items[..n], unreadable, s);
      if Fetch(store, items[n], unreadable) == Some(s) { NotEarlier(store, items, unreadable, s); }
    }
  }

  lemma {:induction false} OnceEach(snaps: seq<Snapshot>)
    requires forall s :: multiset(snaps)[s] <= 1
    ensures NoDup(snaps)
  {
    forall i, j | 0 <= i < j < |snaps| ensures snaps[i] != snaps[j] {
      assert snaps == snaps[..j] + [snaps[j]] + snaps[j + 1..];
      assert snaps[i] in multiset(snaps[..j]) by { assert snaps[..j][i] == snaps[i]; }
      assert multiset(snaps)[snaps[j]] >= multiset(snaps[..j])[snaps[j]] + 1;
    }
  }

  /** Every snapshot with a readable manifest, oldest first, and whether some manifest was not readable. */
  method ListSnapshots(p: Provider, stray: set<string>, unreadable: set<string>)
    returns (snaps: seq<Snapshot>, failed: bool)
    ensures Ascending(snaps)
    ensures forall s :: s in snaps <==>
              exists k :: Listed(p.objects, k, stray) && Fetch(p.objects, k, unreadable) == Some(s)
    ensures failed <==> exists k :: Listed(p.objects, k, stray) && Fetch(p.objects, k, unreadable).None?
    ensures WellNamed(p.objects) ==> NoDup(snaps)
  {
    var items := p.List("snapshots", stray);
    snaps, failed := FetchManifests(p, items, unreadable);
    if WellNamed(p.objects) {
      forall s ensures multiset(snaps)[s] <= 1 { ReadableOnce(p.objects, items, unreadable, s); }
      OnceEach(snaps);
    }
    forall s ensures s in snaps <==>
                     exists k :: Listed(p.objects, k, stray) && Fetch(p.objects, k, unreadable) == Some(s)
    {
      assert s in snaps <==> s in multiset(snaps);
      ReadableMeaning(p.objects, items, unreadable, s);
    }
  }

  predicate Listed(store: Store, key: string, stray: set<string>) {
    key in store && Keys.IsManifestPath(key) && (key == "snapshots" || Keys.ROOT <= key || key in stray)
  }

  /** The snapshot incremental runs compare against: the newest one, and only when every manifest
      could be read. */
  method PreviousManifest(p: Provider, stray: set<string>, unreadable: set<string>) returns (prev: Option<Snapshot>)
    ensures prev.Some? ==>
              exists k :: Listed(p.objects, k, stray) && Fetch(p.objects, k, unreadable) == prev
    ensures prev.Some? ==>
              forall k :: Listed(p.objects, k, stray) ==>
                Fetch(p.objects, k, unreadable).Some?
                && Fetch(p.objects, k, unreadable).value.timestamp <= prev.value.timestamp
    ensures prev.None? ==>
              (forall k :: !Listed(p.objects, k, stray))
              || exists k :: Listed(p.objects, k, stray) && Fetch(p.objects, k, unreadable).None?
  {
    var snaps, failed := ListSnapshots(p, stray, unreadable);
    if failed { return None; }
    forall k | Listed(p.objects, k, stray)
      ensures Fetch(p.objects, k, unreadable).Some? && Fetch(p.objects, k, unreadable).value in snaps
    {
      assert Fetch(p.objects, k, unreadable).Some?;
    }
    if snaps == [] { return None; }
    prev := Some(snaps[|snaps| - 1]);
  }
}
