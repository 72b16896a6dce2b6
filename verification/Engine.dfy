/** One snapshot run: the upload loop, its retry rule, the checkpoint journal and the publish step. */
module Engine {
  import opened Domain
  import opened Incremental
  import Keys

  /** What a failed or cancelled transfer leaves under its key. */
  datatype Residue = Untouched | Removed | Partial(data: Bytes)
  datatype Attempt = Delivered | Failed(left: Residue) | Cancelled(left: Residue)

  /** Everything the surroundings decide while one file is handled. */
  datatype FileEnv = FileEnv(
    cancelled: bool,         // the run's context is done at the loop head
    hashReadable: bool,      // the file can be hashed for a reference decision
    first: Attempt,          // the first transfer
    backoffCancelled: bool,  // the context is done during the retry wait
    second: Attempt,         // the retry
    sumReadable: bool,       // the file can be hashed after its upload
    recorded: bool)          // the journal append succeeds

  /** The fixed inputs of one run. */
  datatype Ctx = Ctx(
    id: string,
    journaled: bool,
    resumed: map<string, SnapshotFile>,
    prev: map<string, SnapshotFile>,
    disk: Disk,   // the bytes that are sent, and that reference decisions look at
    later: Disk,  // the bytes that are hashed after an upload
    hash: Hash)

  function Leave(store: Store, key: string, left: Residue): Store {
    match left
    case Untouched => store
    case Removed => store - {key}
    case Partial(data) => store[key := Blob(data)]
  }

  function Apply(store: Store, key: string, data: Bytes, a: Attempt): Store {
    match a
    case Delivered => store[key := Blob(data)]
    case Failed(left) => Leave(store, key, left)
    case Cancelled(left) => Leave(store, key, left)
  }

  /** A plain failure is retried once unless the run is cancelled during the wait. */
  predicate Retries(env: FileEnv) {
    env.first.Failed? && !env.backoffCancelled
  }

  function Verdict(env: FileEnv): Attempt {
    if !env.first.Failed? then env.first
    else if env.backoffCancelled then Cancelled(env.first.left)
    else env.second
  }

  function Transfer(store: Store, key: string, data: Bytes, env: FileEnv): Store {
    var once := Apply(store, key, data, env.first);
    if Retries(env) then Apply(once, key, data, env.second) else once
  }

  /** The journal's resume rule: same key, size and modification time. */
  predicate LookupHits(entries: map<string, SnapshotFile>, f: BackupFile) {
    && LookupKey(f) in entries
    && entries[LookupKey(f)].size == f.size
    && entries[LookupKey(f)].modTime == f.modTime
  }

  /** The entries a run carries over from its journal, by lookup key. */
  function ResumedMap(files: seq<BackupFile>, entries: map<string, SnapshotFile>): map<string, SnapshotFile> {
    if files == [] then map[]
    else
      var f := files[|files| - 1];
      var rest := ResumedMap(files[..|files| - 1], entries);
      if LookupHits(entries, f) then rest[LookupKey(f) := entries[LookupKey(f)]] else rest
  }

  /** Bytes the run reports as done before its first transfer. */
  function ResumedBytes(files: seq<BackupFile>, entries: map<string, SnapshotFile>): nat {
    if files == [] then 0
    else
      var f := files[|files| - 1];
      ResumedBytes(files[..|files| - 1], entries) +
      if LookupHits(entries, f) then entries[LookupKey(f)].size else 0
  }

  function Content(c: Ctx, f: BackupFile): Bytes {
    if f.sourcePath in c.disk then c.disk[f.sourcePath] else []
  }

  function CurrentSum(c: Ctx, f: BackupFile, readable: bool): Option<string> {
    if readable && f.sourcePath in c.disk then Some(c.hash(c.disk[f.sourcePath])) else None
  }

  /** The checksum recorded for an upload comes from a second read of the file. */
  function UploadSum(c: Ctx, f: BackupFile, readable: bool): Option<string> {
    if readable && f.sourcePath in c.later then Some(c.hash(c.later[f.sourcePath])) else None
  }

  function KeyOf(c: Ctx, f: BackupFile): string {
    Keys.ObjectKey(c.id, f.snapshotPath)
  }

  function UploadEntry(c: Ctx, f: BackupFile, readable: bool): SnapshotFile {
    SnapshotFile(f.sourcePath, KeyOf(c, f), f.size, f.modTime,
                 UploadSum(c, f, readable), Perm(f.mode), f.originalPath)
  }

  /** What the loop does with one file. None of it depends on the files before it. */
  datatype Outcome =
    | Stopped
    | StoppedUploading
    | Resumed(entry: SnapshotFile)
    | Referenced(entry: SnapshotFile)
    | Uploaded(entry: SnapshotFile)
    | Skipped

  function Classify(c: Ctx, f: BackupFile, env: FileEnv): Outcome {
    if env.cancelled then Stopped
    else if LookupKey(f) in c.resumed then Resumed(c.resumed[LookupKey(f)])
    else
      match DecideFile(f, c.prev, CurrentSum(c, f, env.hashReadable))
      case Reference(entry) => Referenced(entry)
      case Upload =>
        match Verdict(env)
        case Delivered => Uploaded(UploadEntry(c, f, env.sumReadable))
        case Failed(_) => Skipped
        case Cancelled(_) => StoppedUploading
  }

  predicate Halts(o: Outcome) {
    o.Stopped? || o.StoppedUploading?
  }

  predicate Sends(o: Outcome) {
    o.Uploaded? || o.Skipped? || o.StoppedUploading?
  }

  /** The manifest entries an outcome contributes. */
  function Yield(o: Outcome): seq<SnapshotFile> {
    match o
    case Resumed(e) => [e]
    case Referenced(e) => [e]
    case Uploaded(e) => [e]
    case _ => []
  }

  /** What the loop would do with each file, were it to get there. */
  function Outcomes(c: Ctx, files: seq<BackupFile>, env: seq<FileEnv>): seq<Outcome>
    requires |files| == |env|
  {
    seq(|files|, m requires 0 <= m < |files| => Classify(c, files[m], env[m]))
  }

  // ------------------------------------------------ the loop, one quantity at a time
  // Each function gives one loop variable after the first `n` files.

  /** One of the first `n` files ended the run. */
  predicate Halted(outs: seq<Outcome>, n: nat)
    requires n <= |outs|
  {
    n > 0 && (Halted(outs, n - 1) || Halts(outs[n - 1]))
  }

  function StoreTo(c: Ctx, store: Store, files: seq<BackupFile>, env: seq<FileEnv>, outs: seq<Outcome>, n: nat): Store
    requires n <= |files| == |env| == |outs|
  {
    if n == 0 then store
    else
      var before := StoreTo(c, store, files, env, outs, n - 1);
      if Halted(outs, n - 1) || !Sends(outs[n - 1]) then before
      else Transfer(before, KeyOf(c, files[n - 1]), Content(c, files[n - 1]), env[n - 1])
  }

  /** The positions whose transfer was started. */
  function SentTo(outs: seq<Outcome>, n: nat): (sent: seq<nat>)
    requires n <= |outs|
    ensures forall p :: 0 <= p < |sent| ==> sent[p] < n && !Halted(outs, sent[p]) && Sends(outs[sent[p]])
  {
    if n == 0 then []
    else
      var before := SentTo(outs, n - 1);
      if Halted(outs, n - 1) || !Sends(outs[n - 1]) then before else before + [n - 1]
  }

  /** Whether an upload at each position would reach the journal. */
  function Writes(c: Ctx, env: seq<FileEnv>): seq<bool> {
    seq(|env|, m requires 0 <= m < |env| => c.journaled && env[m].recorded)
  }

  /** The positions appended to the journal. */
  function RecordedTo(outs: seq<Outcome>, writes: seq<bool>, n: nat): (rec: seq<nat>)
    requires n <= |outs| == |writes|
    ensures forall p :: 0 <= p < |rec| ==> rec[p] < n && !Halted(outs, rec[p]) && outs[rec[p]].Uploaded?
  {
    if n == 0 then []
    else
      var before := RecordedTo(outs, writes, n - 1);
      if Halted(outs, n - 1) || !outs[n - 1].Uploaded? || !writes[n - 1] then before else before + [n - 1]
  }

  function LogEntries(outs: seq<Outcome>, writes: seq<bool>, n: nat): seq<SnapshotFile>
    requires n <= |outs| == |writes|
  {
    var rec := RecordedTo(outs, writes, n);
    seq(|rec|, p requires 0 <= p < |rec| => outs[rec[p]].entry)
  }

  /** The manifest's entries. */
  function EntriesTo(outs: seq<Outcome>, n: nat): seq<SnapshotFile>
    requires n <= |outs|
  {
    if n == 0 then []
    else
      var before := EntriesTo(outs, n - 1);
      if Halted(outs, n - 1) then before else before + Yield(outs[n - 1])
  }

  function FailuresTo(outs: seq<Outcome>, n: nat): nat
    requires n <= |outs|
  {
    if n == 0 then 0
    else FailuresTo(outs, n - 1) + if !Halted(outs, n - 1) && outs[n - 1].Skipped? then 1 else 0
  }

  function EntrySizes(entries: seq<SnapshotFile>): nat {
    if entries == [] then 0 else EntrySizes(entries[..|entries| - 1]) + entries[|entries| - 1].size
  }

  // ------------------------------------------------ the end of a run

  /** How publishing the manifest goes. */
  datatype ManifestAttempt = ManifestUploaded | ManifestFailed | ManifestCancelled

  datatype RunEnv = RunEnv(
    files: seq<FileEnv>,
    cancelledAtEnd: bool,
    manifest: ManifestAttempt,
    timestamp: int,
    deletable: set<string>)  // keys whose deletion succeeds during an abort

  datatype RunResult = RunResult(store: Store, published: Option<Snapshot>, stopped: bool)

  /** Deleting what a listing of one snapshot's prefix returns, as far as deletion succeeds. */
  function Cleanup(store: Store, id: string, deletable: set<string>): Store {
    store - (set k | k in store && Keys.Scoped(k, id) && k in deletable)
  }

  /** A stopped run keeps its remote prefix when a journal can resume it and deletes it otherwise. */
  function Abort(c: Ctx, store: Store, deletable: set<string>): RunResult {
    RunResult(if c.journaled then store else Cleanup(store, c.id, deletable), None, true)
  }

  function MakeSnapshot(c: Ctx, timestamp: int, entries: seq<SnapshotFile>, prev: Option<Snapshot>): Snapshot {
    Snapshot(c.id, timestamp, entries, EntrySizes(entries),
             if prev.Some? then 2 else 0, if prev.Some? then prev.value.id else "")
  }

  function Finish(c: Ctx, store: Store, halted: bool, entries: seq<SnapshotFile>, prev: Option<Snapshot>,
                  env: RunEnv): RunResult {
    if halted then Abort(c, store, env.deletable)
    else if entries == [] then RunResult(store, None, false)
    else if env.cancelledAtEnd then Abort(c, store, env.deletable)
    else
      match env.manifest
      case ManifestFailed => RunResult(store, None, false)
      case ManifestCancelled => Abort(c, store, env.deletable)
      case ManifestUploaded =>
        var snap := MakeSnapshot(c, env.timestamp, entries, prev);
        RunResult(store[Keys.ManifestKey(c.id) := Manifest(snap)], Some(snap), false)
  }

  /** A whole run over `files`, from `store`. */
  function Run(c: Ctx, store: Store, files: seq<BackupFile>, prev: Option<Snapshot>, env: RunEnv): RunResult
    requires |files| == |env.files|
  {
    var outs := Outcomes(c, files, env.files);
    var n := |files|;
    Finish(c, StoreTo(c, store, files, env.files, outs, n), Halted(outs, n), EntriesTo(outs, n), prev, env)
  }

  // ------------------------------------------------ facts about one file

  /** What each outcome says about the file it was decided for. */
  lemma {:induction false} OutcomeFacts(c: Ctx, f: BackupFile, env: FileEnv)
    ensures var o := Classify(c, f, env);
            && (Sends(o) ==> LookupKey(f) !in c.resumed
                             && DecideFile(f, c.prev, CurrentSum(c, f, env.hashReadable)).Upload?)
            && (o.Uploaded? ==> Verdict(env).Delivered? && o.entry == UploadEntry(c, f, env.sumReadable))
            && (o.Resumed? ==> LookupKey(f) in c.resumed && o.entry == c.resumed[LookupKey(f)])
            && (o.Referenced? ==> DecideFile(f, c.prev, CurrentSum(c, f, env.hashReadable)) == Reference(o.entry))
            && (LookupKey(f) in c.resumed ==> o.Resumed? || o.Stopped?)
            && (o.Referenced? || o.Uploaded? ==> EntryTag(o.entry) == FileTag(f))
  {
  }

  lemma {:induction false} TransferFrame(store: Store, key: string, data: Bytes, env: FileEnv, k: string)
    requires k != key
    ensures SameAt(store, Transfer(store, key, data, env), k)
  {
  }

  lemma {:induction false} TransferDelivers(store: Store, key: string, data: Bytes, env: FileEnv)
    requires Verdict(env).Delivered?
    ensures key in Transfer(store, key, data, env)
    ensures Transfer(store, key, data, env)[key] == Blob(data)
  {
  }

  lemma {:induction false} TransferPutsBlobs(store: Store, key: string, data: Bytes, env: FileEnv, k: string)
    requires k in Transfer(store, key, data, env) && Transfer(store, key, data, env)[k].Manifest?
    ensures k in store && store[k] == Transfer(store, key, data, env)[k]
  {
  }

  // ------------------------------------------------ facts about the loop

  /** Every manifest entry comes from one walked file the loop got to. */
  lemma {:induction false} EntryOrigin(outs: seq<Outcome>, n: nat, e: SnapshotFile) returns (m: nat)
    requires n <= |outs| && e in EntriesTo(outs, n)
    ensures m < n && !Halted(outs, m) && Yield(outs[m]) == [e]
  {
    if e in EntriesTo(outs, n - 1) {
      m := EntryOrigin(outs, n - 1, e);
    } else {
      m := n - 1;
    }
  }

  /** A run that is neither halted nor skips a file keeps exactly one entry per walked file, in order. */
  lemma {:induction false} EntryPerFile(outs: seq<Outcome>, n: nat)
    requires n <= |outs| && !Halted(outs, n) && FailuresTo(outs, n) == 0
    ensures |EntriesTo(outs, n)| == n
    ensures forall m :: 0 <= m < n ==> !Halted(outs, m) && Yield(outs[m]) == [EntriesTo(outs, n)[m]]
  {
    if n > 0 {
      EntryPerFile(outs, n - 1);
    }
  }

  /** One iteration changes at most the object of its own file... */
  lemma {:induction false} StepFrame(c: Ctx, store: Store, files: seq<BackupFile>, env: seq<FileEnv>,
                                     outs: seq<Outcome>,
                                     n: nat, key: string)
    requires 0 < n <= |files| == |env| == |outs|
    requires n - 1 in SentTo(outs, n) ==> key != KeyOf(c, files[n - 1])
    ensures SameAt(StoreTo(c, store, files, env, outs, n - 1), StoreTo(c, store, files, env, outs, n), key)
  {
    if !Halted(outs, n - 1) && Sends(outs[n - 1]) {
      assert SentTo(outs, n)[|SentTo(outs, n)| - 1] == n - 1;
      TransferFrame(StoreTo(c, store, files, env, outs, n - 1), KeyOf(c, files[n - 1]), Content(c, files[n - 1]),
                    env[n - 1], key);
    }
  }

  /** ...and leaves a delivered file's bytes there. */
  lemma {:induction false} StepDelivers(c: Ctx, store: Store, files: seq<BackupFile>, env: seq<FileEnv>,
                                        outs: seq<Outcome>,
                                        m: nat)
    requires m < |files| == |env| == |outs|
    requires !Halted(outs, m) && outs[m].Uploaded? && Verdict(env[m]).Delivered?
    ensures KeyOf(c, files[m]) in StoreTo(c, store, files, env, outs, m + 1)
    ensures StoreTo(c, store, files, env, outs, m + 1)[KeyOf(c, files[m])] == Blob(Content(c, files[m]))
  {
    TransferDelivers(StoreTo(c, store, files, env, outs, m), KeyOf(c, files[m]), Content(c, files[m]), env[m]);
  }

  /** A key that no started transfer is aimed at keeps its object. */
  lemma {:induction false} UntouchedKey(c: Ctx, store: Store, files: seq<BackupFile>, env: seq<FileEnv>,
                                        outs: seq<Outcome>,
                                        n: nat, key: string)
    requires n <= |files| == |env| == |outs|
    requires forall m :: m in SentTo(outs, n) ==> KeyOf(c, files[m]) != key
    ensures SameAt(store, StoreTo(c, store, files, env, outs, n), key)
  {
    if n > 0 {
      UntouchedKey(c, store, files, env, outs, n - 1, key);
      StepFrame(c, store, files, env, outs, n, key);
    }
  }

  /** Uploading never creates a manifest. */
  lemma {:induction false} NoNewManifest(c: Ctx, store: Store, files: seq<BackupFile>, env: seq<FileEnv>,
                                         outs: seq<Outcome>,
                                         n: nat, key: string)
    requires n <= |files| == |env| == |outs|
    requires key in StoreTo(c, store, files, env, outs, n) && StoreTo(c, store, files, env, outs, n)[key].Manifest?
    ensures key in store && store[key] == StoreTo(c, store, files, env, outs, n)[key]
  {
    if n > 0 {
      if !Halted(outs, n - 1) && Sends(outs[n - 1]) {
        TransferPutsBlobs(StoreTo(c, store, files, env, outs, n - 1), KeyOf(c, files[n - 1]), Content(c, files[n - 1]),
                          env[n - 1], key);
      }
      NoNewManifest(c, store, files, env, outs, n - 1, key);
    }
  }

  /** No two walked files share an object key. */
  predicate DistinctSlots(files: seq<BackupFile>) {
    forall a, b :: 0 <= a < b < |files| ==>
      Keys.EnsureGzip(files[a].snapshotPath) != Keys.EnsureGzip(files[b].snapshotPath)
  }

  lemma {:induction false} KeysDiffer(c: Ctx, files: seq<BackupFile>, a: nat, b: nat)
    requires DistinctSlots(files) && a < b < |files|
    ensures KeyOf(c, files[a]) != KeyOf(c, files[b])
  {
    Keys.ObjectKeysCollide(c.id, files[a].snapshotPath, files[b].snapshotPath);
  }

  /** None of these files has this key. */
  predicate Spared(c: Ctx, files: seq<BackupFile>, lo: nat, hi: nat, key: string)
    requires hi <= |files|
  {
    forall k :: lo <= k < hi ==> KeyOf(c, files[k]) != key
  }

  /** A file delivered at position `m` is still stored when the loop has moved on to `n`, unless a
      file in between has its key. */
  lemma {:induction false} UploadedStaysUnlessHit(c: Ctx, store: Store, files: seq<BackupFile>, env: seq<FileEnv>,
                                                  outs: seq<Outcome>, m: nat, n: nat)
    requires m < n <= |files| == |env| == |outs|
    requires Spared(c, files, m + 1, n, KeyOf(c, files[m]))
    requires !Halted(outs, m) && outs[m].Uploaded? && Verdict(env[m]).Delivered?
    ensures KeyOf(c, files[m]) in StoreTo(c, store, files, env, outs, n)
    ensures StoreTo(c, store, files, env, outs, n)[KeyOf(c, files[m])] == Blob(Content(c, files[m]))
  {
    StepDelivers(c, store, files, env, outs, m);
    DeliveredStays(c, store, files, env, outs, m + 1, n, KeyOf(c, files[m]), Content(c, files[m]));
  }

  lemma {:induction false} DeliveredStays(c: Ctx, store: Store, files: seq<BackupFile>, env: seq<FileEnv>,
                                          outs: seq<Outcome>, m: nat, n: nat, key: string, data: Bytes)
    requires m <= n <= |files| == |env| == |outs| && Spared(c, files, m, n, key)
    requires var before := StoreTo(c, store, files, env, outs, m); key in before && before[key] == Blob(data)
    ensures var after := StoreTo(c, store, files, env, outs, n); key in after && after[key] == Blob(data)
  {
    KeptBetween(c, store, files, env, outs, m, n, key);
  }

  lemma {:induction false} KeptBetween(c: Ctx, store: Store, files: seq<BackupFile>, env: seq<FileEnv>,
                                       outs: seq<Outcome>,
                                       m: nat, n: nat, key: string)
    requires m <= n <= |files| == |env| == |outs| && Spared(c, files, m, n, key)
    ensures SameAt(StoreTo(c, store, files, env, outs, m), StoreTo(c, store, files, env, outs, n), key)
  {
    if m < n {
      KeptBetween(c, store, files, env, outs, m, n - 1, key);
      StepFrame(c, store, files, env, outs, n, key);
    }
  }

  lemma {:induction false} UploadedStays(c: Ctx, store: Store, files: seq<BackupFile>, env: seq<FileEnv>,
                                         outs: seq<Outcome>,
                                         m: nat, n: nat)
    requires m < n <= |files| == |env| == |outs|
    requires DistinctSlots(files)
    requires !Halted(outs, m) && outs[m].Uploaded? && Verdict(env[m]).Delivered?
    ensures KeyOf(c, files[m]) in StoreTo(c, store, files, env, outs, n)
    ensures StoreTo(c, store, files, env, outs, n)[KeyOf(c, files[m])] == Blob(Content(c, files[m]))
  {
    forall k | m < k < n ensures KeyOf(c, files[k]) != KeyOf(c, files[m]) { KeysDiffer(c, files, m, k); }
    UploadedStaysUnlessHit(c, store, files, env, outs, m, n);
  }

  /** The carried-over map: keys of walked files whose journal entry has the same size and time. */
  lemma {:induction false} ResumedMeaning(files: seq<BackupFile>, entries: map<string, SnapshotFile>, key: string)
    ensures key in ResumedMap(files, entries) <==>
            exists m :: 0 <= m < |files| && LookupKey(files[m]) == key && LookupHits(entries, files[m])
    ensures key in ResumedMap(files, entries) ==> key in entries && ResumedMap(files, entries)[key] == entries[key]
  {
    if files != [] {
      var n := |files| - 1;
      ResumedMeaning(files[..n], entries, key);
      if m :| 0 <= m < n && LookupKey(files[..n][m]) == key && LookupHits(entries, files[..n][m]) {
        assert files[m] == files[..n][m];
      }
      if m :| 0 <= m < |files| && LookupKey(files[m]) == key && LookupHits(entries, files[m]) {
        if m < n { assert files[..n][m] == files[m]; }
      }
    }
  }

  lemma {:induction false} NothingResumed(files: seq<BackupFile>)
    ensures ResumedMap(files, map[]) == map[]
  {
    if files != [] { NothingResumed(files[..|files| - 1]); }
  }
}
