/** The values the backup engine moves around: files found by the walk, manifest
    entries, snapshots, and the object store they live in. */
module Domain {
  newtype byte = x: int | 0 <= x < 256
  type Bytes = seq<byte>

  datatype Option<+T> = None | Some(value: T)

  /** A file found by the walk. `originalPath` is "" unless a shadow copy rewrote `sourcePath`. */
  datatype BackupFile = BackupFile(
    sourcePath: string,
    snapshotPath: string,
    size: nat,
    modTime: int,
    mode: nat,
    originalPath: string,
    systemState: bool)

  /** A manifest (and journal) entry. `checksum` is None where the manifest omits it. */
  datatype SnapshotFile = SnapshotFile(
    sourcePath: string,
    backupPath: string,
    size: nat,
    modTime: int,
    checksum: Option<string>,
    mode: nat,
    originalPath: string)

  datatype Snapshot = Snapshot(
    id: string,
    timestamp: int,
    files: seq<SnapshotFile>,
    size: nat,
    formatVersion: nat,
    baseId: string)

  /** A stored object as `Download` returns it: source bytes, or a decoded manifest. */
  datatype Object = Blob(data: Bytes) | Manifest(snap: Snapshot)

  type Store = map<string, Object>
  type Disk = map<string, Bytes>
  type Hash = Bytes -> string

  /** Permission bits only: the low nine bits of a file mode. */
  function Perm(mode: nat): nat {
    mode % 512
  }

  /** The journal key of a recorded entry. */
  function EntryKey(e: SnapshotFile): string {
    if e.originalPath != "" then e.originalPath else e.sourcePath
  }

  /** The journal key of a walked file. */
  function LookupKey(f: BackupFile): string {
    if f.originalPath != "" then f.originalPath else f.sourcePath
  }

  /** What the engine compares to decide that a file is unchanged. */
  datatype Tag = Tag(key: string, size: nat, modTime: int)

  function FileTag(f: BackupFile): Tag {
    Tag(LookupKey(f), f.size, f.modTime)
  }

  function EntryTag(e: SnapshotFile): Tag {
    Tag(EntryKey(e), e.size, e.modTime)
  }

  /** The object an entry names is present with the recorded size and, where recorded, checksum. */
  predicate Intact(store: Store, hash: Hash, e: SnapshotFile) {
    && e.backupPath in store
    && store[e.backupPath].Blob?
    && |store[e.backupPath].data| == e.size
    && (e.checksum.Some? ==> hash(store[e.backupPath].data) == e.checksum.value)
  }

  predicate Sound(store: Store, hash: Hash, snap: Snapshot) {
    forall e :: e in snap.files ==> Intact(store, hash, e)
  }

  ghost predicate CollisionFree(hash: Hash) {
    forall a, b :: hash(a) == hash(b) ==> a == b
  }

  /** Two stores hold the same thing (or nothing) at a key. */
  predicate SameAt(a: Store, b: Store, key: string) {
    (key in a <==> key in b) && (key in a ==> a[key] == b[key])
  }

  /** Replaying entries: a later entry for the same key supersedes an earlier one. */
  function LastWins(entries: seq<SnapshotFile>): map<string, SnapshotFile> {
    if entries == [] then map[]
    else
      var last := entries[|entries| - 1];
      LastWins(entries[..|entries| - 1])[EntryKey(last) := last]
  }

  lemma {:induction false} LastWinsSnoc(entries: seq<SnapshotFile>, e: SnapshotFile)
    ensures LastWins(entries + [e]) == LastWins(entries)[EntryKey(e) := e]
  {
    assert (entries + [e])[..|entries|] == entries;
  }

  /** The replayed map holds, for each key, the last entry recorded under it. */
  lemma {:induction false} LastWinsMeaning(entries: seq<SnapshotFile>, key: string)
    ensures key in LastWins(entries) <==> exists p :: 0 <= p < |entries| && EntryKey(entries[p]) == key
    ensures key in LastWins(entries) ==>
              exists p ::
                && 0 <= p < |entries|
                && entries[p] == LastWins(entries)[key]
                && EntryKey(entries[p]) == key
                && forall q :: p < q < |entries| ==> EntryKey(entries[q]) != key
  {
    if entries != [] {
      var n := |entries| - 1;
      LastWinsMeaning(entries[..n], key);
      if EntryKey(entries[n]) == key {
        assert entries[n] == LastWins(entries)[key];
      } else if key in LastWins(entries[..n]) {
        var p :| 0 <= p < n && entries[..n][p] == LastWins(entries[..n])[key]
                 && EntryKey(entries[..n][p]) == key
                 && forall q :: p < q < n ==> EntryKey(entries[..n][q]) != key;
        assert entries[p] == LastWins(entries)[key];
        forall q | p < q < |entries| ensures EntryKey(entries[q]) != key {
          if q < n { assert entries[..n][q] == entries[q]; }
        }
      }
    }
  }
}
