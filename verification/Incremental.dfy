/** Reference decisions: which walked files can point at bytes an older snapshot already stored. */
module Incremental {
  import opened Domain
  import Keys

  datatype Decision = Upload | Reference(entry: SnapshotFile)

  /** The entry for a file whose bytes stay where `was` put them: its location and checksum are
      the previous ones, everything else is this run's view of the file. */
  function ReferenceEntry(f: BackupFile, was: SnapshotFile): SnapshotFile {
    SnapshotFile(f.sourcePath, was.backupPath, f.size, f.modTime, was.checksum, Perm(f.mode), f.originalPath)
  }

  /** `sum` is what hashing the file's current bytes gives, None when it cannot be read. */
  function DecideFile(f: BackupFile, prev: map<string, SnapshotFile>, sum: Option<string>): Decision {
    if f.systemState then Upload
    else if LookupKey(f) !in prev || prev[LookupKey(f)].size != f.size then Upload
    else
      var was := prev[LookupKey(f)];
      if was.modTime == f.modTime then Reference(ReferenceEntry(f, was))
      else if sum.None? || sum != was.checksum then Upload
      else Reference(ReferenceEntry(f, was))
  }

  /** The index decisions are made against: the previous manifest's entries by key, the last
      of two entries under one key winning. */
  method BuildPreviousIndex(prev: Option<Snapshot>) returns (index: map<string, SnapshotFile>)
    ensures index == PreviousIndex(prev)
  {
    index := map[];
    if prev.None? { return; }
    for i := 0 to |prev.value.files|
      invariant index == LastWins(prev.value.files[..i])
    {
      LastWinsSnoc(prev.value.files[..i], prev.value.files[i]);
      assert prev.value.files[..i] + [prev.value.files[i]] == prev.value.files[..i + 1];
      index := index[EntryKey(prev.value.files[i]) := prev.value.files[i]];
    }
    assert prev.value.files[..|prev.value.files|] == prev.value.files;
  }

  function PreviousIndex(prev: Option<Snapshot>): map<string, SnapshotFile> {
    if prev.None? then map[] else LastWins(prev.value.files)
  }

  /** An entry whose bytes live outside the snapshot's own prefix. */
  predicate IsReferenceEntry(e: SnapshotFile, id: string) {
    !(Keys.Prefix(id) <= e.backupPath)
  }

  /** Referencing is safe: the new entry is as intact as the one it was made from and carries the file's
      own size and time. If equal size and time mean equal bytes, and the hash is collision free, it
      denotes the file's current bytes, on the fast branch and on the hashed one. */
  lemma {:induction false} ReferenceKeepsIntact(store: Store, hash: Hash, f: BackupFile,
                                                prev: map<string, SnapshotFile>, current: Bytes, readable: bool)
    requires DecideFile(f, prev, if readable then Some(hash(current)) else None).Reference?
    requires forall k :: k in prev ==> Intact(store, hash, prev[k]) && EntryKey(prev[k]) == k
    ensures var e, was := DecideFile(f, prev, if readable then Some(hash(current)) else None).entry, prev[LookupKey(f)];
            && Intact(store, hash, e)
            && EntryTag(e) == FileTag(f)
            && e.backupPath == was.backupPath && e.checksum == was.checksum
            && (CollisionFree(hash) && (EntryTag(was) == FileTag(f) ==> store[was.backupPath] == Blob(current)) ==>
                  store[e.backupPath] == Blob(current))
  {
  }
}
