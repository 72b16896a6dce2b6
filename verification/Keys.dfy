/** Object naming: snapshot prefixes, data keys and manifest keys in the object store. */
module Keys {
  const ROOT := "snapshots/"
  const GZ := ".gz"
  const FILES := "files/"
  const MANIFEST := "manifest.json"

  predicate HasSuffix(s: string, t: string) {
    |t| <= |s| && s[|s| - |t|..] == t
  }

  predicate SlashFree(s: string) {
    '/' !in s
  }

  /** Everything before the first slash. */
  function UntilSlash(s: string): string {
    if s == "" || s[0] == '/' then "" else [s[0]] + UntilSlash(s[1..])
  }

  /** A snapshot's directory without its trailing slash, and with it. */
  function SnapshotDir(id: string): string {
    ROOT + id
  }

  function Prefix(id: string): string {
    SnapshotDir(id) + "/"
  }

  /** The scope of a snapshot's listing: its directory entry or anything below it. */
  predicate Scoped(key: string, id: string) {
    key == SnapshotDir(id) || Prefix(id) <= key
  }

  /** The snapshot whose prefix a key lies under. */
  function Owner(key: string): string {
    if ROOT <= key then UntilSlash(key[|ROOT|..]) else ""
  }

  function EnsureGzip(p: string): string {
    if HasSuffix(p, GZ) then p else p + GZ
  }

  function ObjectKey(id: string, snapshotPath: string): string {
    EnsureGzip(Prefix(id) + FILES + snapshotPath)
  }

  function ManifestKey(id: string): string {
    Prefix(id) + MANIFEST
  }

  predicate IsManifestPath(key: string) {
    HasSuffix(key, "/" + MANIFEST) || key == MANIFEST
  }

  lemma {:induction false} SuffixLast(s: string, t: string)
    requires t != "" && HasSuffix(s, t)
    ensures s[|s| - 1] == t[|t| - 1]
  {
    assert s[|s| - |t|..][|t| - 1] == s[|s| - 1];
  }

  lemma {:induction false} UntilSlashOf(id: string, rest: string)
    requires SlashFree(id)
    ensures UntilSlash(id) == id
    ensures UntilSlash(id + "/" + rest) == id
  {
    if id != "" {
      UntilSlashOf(id[1..], rest);
      assert (id + "/" + rest)[1..] == id[1..] + "/" + rest;
      assert id == [id[0]] + id[1..];
    }
  }

  /** A slash-free snapshot ID owns exactly the keys in its scope, so no sibling ID that
      merely shares a string prefix is ever listed with it. */
  lemma {:induction false} ScopedOwner(key: string, id: string)
    requires SlashFree(id)
    requires Scoped(key, id)
    ensures Owner(key) == id
  {
    if key == SnapshotDir(id) {
      assert key[|ROOT|..] == id;
      UntilSlashOf(id, "");
    } else {
      var rest := key[|Prefix(id)|..];
      assert key == Prefix(id) + rest;
      assert key[|ROOT|..] == id + "/" + rest;
      UntilSlashOf(id, rest);
    }
  }

  /** Being in scope is being owned: the snapshot's directory entry and everything below it, and nothing else. */
  lemma {:induction false} ScopedIffOwned(key: string, id: string)
    requires SlashFree(id)
    ensures Scoped(key, id) <==> ROOT <= key && Owner(key) == id
  {
    if ROOT <= key && Owner(key) == id {
      var rest := key[|ROOT|..];
      UntilSlashIs(rest);
      assert key == ROOT + rest;
      if rest == id {
        assert key == SnapshotDir(id);
      } else {
        assert id + "/" <= rest;
        assert Prefix(id) == ROOT + (id + "/");
        assert key[..|Prefix(id)|] == Prefix(id);
      }
    } else {
      OwnerIfScoped(key, id);
    }
  }

  /** A string is what comes before its first slash, or that and a slash and more. */
  lemma {:induction false} UntilSlashIs(s: string)
    ensures s == UntilSlash(s) || UntilSlash(s) + "/" <= s
  {
    if s != "" && s[0] != '/' {
      UntilSlashIs(s[1..]);
      assert s == [s[0]] + s[1..];
      if s[1..] != UntilSlash(s[1..]) {
        assert UntilSlash(s) + "/" == [s[0]] + (UntilSlash(s[1..]) + "/");
      }
    }
  }

  /** A manifest path is one whose last segment is the manifest's name. */
  lemma {:induction false} ManifestPathIff(key: string)
    ensures IsManifestPath(key) <==> LastSegment(key) == MANIFEST
  {
    LastSegmentIff(key, MANIFEST);
  }

  lemma {:induction false} LastSegmentIff(key: string, name: string)
    requires SlashFree(name)
    ensures LastSegment(key) == name <==> HasSuffix(key, "/" + name) || key == name
  {
    LastSegmentIs(key);
    if HasSuffix(key, "/" + name) {
      var n := |key| - |name|;
      assert key[n - 1..] == "/" + name;
      assert key[n - 1] == '/' && key[n..] == name;
      LastSegmentAfter(key, n);
    } else if key == name {
      LastSegmentFree(key);
    }
  }

  lemma {:induction false} LastSegmentFree(s: string)
    requires SlashFree(s)
    ensures LastSegment(s) == s
  {
    if s != "" {
      LastSegmentFree(s[..|s| - 1]);
      assert s == s[..|s| - 1] + [s[|s| - 1]];
    }
  }

  /** Everything after the last slash. */
  function LastSegment(s: string): string {
    if s == "" || s[|s| - 1] == '/' then "" else LastSegment(s[..|s| - 1]) + [s[|s| - 1]]
  }

  lemma {:induction false} LastSegmentIs(s: string)
    ensures s == LastSegment(s) || HasSuffix(s, "/" + LastSegment(s))
  {
    if s != "" && s[|s| - 1] != '/' {
      var n := |s| - 1;
      LastSegmentIs(s[..n]);
      assert s == s[..n] + [s[n]];
      if s[..n] != LastSegment(s[..n]) {
        var tail := "/" + LastSegment(s[..n]);
        assert s[|s| - |tail| - 1..] == s[..n][n - |tail|..] + [s[n]];
        assert "/" + LastSegment(s) == tail + [s[n]];
      }
    }
  }

  lemma {:induction false} LastSegmentAfter(s: string, n: nat)
    requires 0 < n <= |s| && s[n - 1] == '/' && '/' !in s[n..]
    ensures LastSegment(s) == s[n..]
  {
    if n < |s| {
      assert s[|s| - 1] == s[n..][|s| - 1 - n];
      assert s[..|s| - 1][n..] == s[n..][..|s| - 1 - n];
      LastSegmentAfter(s[..|s| - 1], n);
      assert s[n..] == s[..|s| - 1][n..] + [s[|s| - 1]];
    }
  }

  lemma {:induction false} OwnerIfScoped(key: string, id: string)
    requires SlashFree(id)
    ensures Scoped(key, id) ==> Owner(key) == id
  {
    if Scoped(key, id) { ScopedOwner(key, id); }
  }

  lemma {:induction false} OwnerSlashFree(key: string)
    ensures SlashFree(Owner(key))
  {
    if ROOT <= key { UntilSlashFree(key[|ROOT|..]); }
  }

  lemma {:induction false} UntilSlashFree(s: string)
    ensures SlashFree(UntilSlash(s))
  {
    if s != "" && s[0] != '/' { UntilSlashFree(s[1..]); }
  }

  lemma {:induction false} ScopesDisjoint(key: string, a: string, b: string)
    requires SlashFree(a) && SlashFree(b)
    requires Scoped(key, a) && Scoped(key, b)
    ensures a == b
  {
    ScopedOwner(key, a);
    ScopedOwner(key, b);
  }

  /** The gzip suffix lands on the walked path: two walked paths share an object exactly
      when they share this slot. */
  lemma {:induction false} ObjectKeySlot(id: string, p: string)
    ensures ObjectKey(id, p) == Prefix(id) + FILES + EnsureGzip(p)
  {
    var whole := Prefix(id) + FILES + p;
    if |p| >= 3 {
      assert whole[|whole| - 3..] == p[|p| - 3..];
    } else {
      assert whole[|whole| - 3] == (Prefix(id) + FILES)[|Prefix(id) + FILES| - (3 - |p|)];
      assert whole[|whole| - 3] != '.';
      assert whole[|whole| - 3..][0] == whole[|whole| - 3];
    }
  }

  lemma {:induction false} ObjectKeysCollide(id: string, p: string, q: string)
    ensures ObjectKey(id, p) == ObjectKey(id, q) <==> EnsureGzip(p) == EnsureGzip(q)
  {
    ObjectKeySlot(id, p);
    ObjectKeySlot(id, q);
    var h := Prefix(id) + FILES;
    assert (h + EnsureGzip(p))[|h|..] == EnsureGzip(p);
    assert (h + EnsureGzip(q))[|h|..] == EnsureGzip(q);
  }

  /** Two walked paths share a slot exactly when they are equal or one is the other plus ".gz". */
  lemma {:induction false} SlotCollision(p: string, q: string)
    ensures EnsureGzip(p) == EnsureGzip(q) <==>
            p == q || (p == q + GZ && !HasSuffix(q, GZ)) || (q == p + GZ && !HasSuffix(p, GZ))
  {
    assert HasSuffix(p + GZ, GZ);
    assert HasSuffix(q + GZ, GZ);
    assert (p + GZ)[..|p|] == p;
    assert (q + GZ)[..|q|] == q;
  }

  /** The keys of a snapshot, letter by letter. */
  lemma {:induction false} ManifestKeyFormat(id: string)
    ensures ManifestKey(id) == "snapshots/" + id + "/manifest.json"
  {
    assert "/" + "manifest.json" == "/manifest.json";
    assert ManifestKey(id) == "snapshots/" + id + ("/" + "manifest.json");
  }

  lemma {:induction false} ObjectKeyFormat(id: string, p: string)
    ensures ObjectKey(id, p) == "snapshots/" + id + "/files/" + EnsureGzip(p)
    ensures EnsureGzip(p) == if |p| >= 3 && p[|p| - 3..] == ".gz" then p else p + ".gz"
  {
    ObjectKeySlot(id, p);
    assert "/" + "files/" == "/files/";
    assert Prefix(id) + FILES == "snapshots/" + id + ("/" + "files/");
  }

  lemma {:induction false} ObjectKeyFacts(id: string, p: string)
    requires SlashFree(id)
    ensures Scoped(ObjectKey(id, p), id)
    ensures Owner(ObjectKey(id, p)) == id
    ensures !IsManifestPath(ObjectKey(id, p))
  {
    ObjectKeySlot(id, p);
    var k := ObjectKey(id, p);
    assert Prefix(id) <= k;
    ScopedOwner(k, id);
    SuffixLast(k, GZ);
    if HasSuffix(k, "/" + MANIFEST) {
      SuffixLast(k, "/" + MANIFEST);
    }
  }

  lemma {:induction false} ManifestKeyFacts(id: string)
    requires SlashFree(id)
    ensures Scoped(ManifestKey(id), id)
    ensures Owner(ManifestKey(id)) == id
    ensures IsManifestPath(ManifestKey(id))
  {
    var k := ManifestKey(id);
    ScopedOwner(k, id);
    assert k[|k| - 14..] == "/" + MANIFEST;
  }
}
