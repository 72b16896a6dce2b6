/** All runs against one destination: any sequence of full, incremental, stopped, failed, resumed
    and discarded runs, with journal damage in between, over one shared object store. */
module History {
  import opened Domain
  import opened Incremental
  import opened Engine
  import Keys

  const MAX_AGE := 7 * 24 * 3600  // seconds a journal is trusted for

  /** What one run saw of the source machine: the walked files, their bytes when sent, and their bytes when
      hashed afterwards. */
  datatype Walk = Walk(identity: string, files: seq<BackupFile>, disk: Disk, later: Disk)

  /** A journal line together with the run and walked file it was written for. */
  datatype Logged = Logged(entry: SnapshotFile, run: nat, file: BackupFile)

  datatype JournalFile =
    | Damaged
    | Image(id: string, createdAt: int, identity: string, log: seq<Logged>)

  datatype World = World(
    store: Store,
    journals: map<string, JournalFile>,  // by journal file name
    used: set<string>,                   // snapshot IDs drawn so far
    walks: seq<Walk>)                    // what every run so far saw

  /** What becomes of an old journal file when a new one cannot be written. */
  datatype FailedCreate = Kept | Gone | Torn

  datatype OpenEnv = OpenEnv(hasDir: bool, reopens: bool, creates: bool, otherwise: FailedCreate)

  datatype Opened = NoJournal | Fresh(stale: Option<string>) | Continued(image: JournalFile)

  datatype RunInput = RunInput(
    name: string,                 // the journal file name of the run's identity
    walk: Walk,
    now: int,
    freshId: string,
    prev: Option<Snapshot>,
    open: OpenEnv,
    staleDeletable: set<string>,
    removesJournal: bool,         // completing removes the journal file rather than truncating it
    env: RunEnv)

  datatype Step = Backup(run: RunInput) | Truncate(name: string, kept: nat) | Corrupt(name: string)

  // ------------------------------------------------ the transition

  /** A journal is continued when it is readable, of the same identity and young enough; a readable
      one that fails either test is discarded and its snapshot ID reported as stale. */
  function Open(j: Option<JournalFile>, identity: string, now: int, env: OpenEnv): Opened {
    if !env.hasDir then NoJournal
    else if j.Some? && j.value.Image? then
      if j.value.identity == identity && now - j.value.createdAt <= MAX_AGE then
        if env.reopens then Continued(j.value)
        else if env.creates then Fresh(None) else NoJournal
      else if env.creates then Fresh(Some(j.value.id)) else NoJournal
    else if env.creates then Fresh(None) else NoJournal
  }

  function Entries(log: seq<Logged>): seq<SnapshotFile> {
    seq(|log|, p requires 0 <= p < |log| => log[p].entry)
  }

  function JournalAt(w: World, name: string): Option<JournalFile> {
    if name in w.journals then Some(w.journals[name]) else None
  }

  function OpenedBy(w: World, r: RunInput): Opened {
    Open(JournalAt(w, r.name), r.walk.identity, r.now, r.open)
  }

  function RunLog(w: World, r: RunInput): seq<Logged> {
    var o := OpenedBy(w, r);
    if o.Continued? && o.image.Image? then o.image.log else []
  }

  function RunCtx(w: World, r: RunInput, hash: Hash): Ctx {
    var o := OpenedBy(w, r);
    Ctx(if o.Continued? && o.image.Image? then o.image.id else r.freshId,
        !o.NoJournal?,
        ResumedMap(r.walk.files, LastWins(Entries(RunLog(w, r)))),
        PreviousIndex(r.prev),
        r.walk.disk,
        r.walk.later,
        hash)
  }

  /** The store after a discarded journal's remote prefix was cleaned up. */
  function StoreOpened(w: World, r: RunInput): Store {
    var o := OpenedBy(w, r);
    if o.Fresh? && o.stale.Some? then Cleanup(w.store, o.stale.value, r.staleDeletable) else w.store
  }

  function RunOf(w: World, r: RunInput, hash: Hash): RunResult
    requires |r.walk.files| == |r.env.files|
  {
    Engine.Run(RunCtx(w, r, hash), StoreOpened(w, r), r.walk.files, r.prev, r.env)
  }

  /** What run number `run` appends to its journal. */
  function NewLines(outs: seq<Outcome>, writes: seq<bool>, run: nat, files: seq<BackupFile>): seq<Logged>
    requires |files| == |outs| == |writes|
  {
    var rec := RecordedTo(outs, writes, |outs|);
    seq(|rec|, p requires 0 <= p < |rec| => Logged(outs[rec[p]].entry, run, files[rec[p]]))
  }

  lemma {:induction false} EntriesConcat(a: seq<Logged>, b: seq<Logged>)
    ensures Entries(a + b) == Entries(a) + Entries(b)
  {
  }

  lemma {:induction false} NewEntries(outs: seq<Outcome>, writes: seq<bool>, run: nat, files: seq<BackupFile>)
    requires |files| == |outs| == |writes|
    ensures Entries(NewLines(outs, writes, run, files)) == LogEntries(outs, writes, |outs|)
  {
  }

  function LogAfter(w: World, r: RunInput, hash: Hash): seq<Logged>
    requires |r.walk.files| == |r.env.files|
  {
    var c := RunCtx(w, r, hash);
    RunLog(w, r) + NewLines(Outcomes(c, r.walk.files, r.env.files), Writes(c, r.env.files), |w.walks|, r.walk.files)
  }

  /** The journal files after the run: removed or emptied once the manifest is published, otherwise
      kept with what the run appended. */
  function JournalsAfter(w: World, r: RunInput, hash: Hash): map<string, JournalFile>
    requires |r.walk.files| == |r.env.files|
  {
    var c := RunCtx(w, r, hash);
    match OpenedBy(w, r)
    case NoJournal =>
      if !r.open.hasDir || r.open.otherwise.Kept? then w.journals
      else if r.open.otherwise.Gone? then w.journals - {r.name}
      else w.journals[r.name := Damaged]
    case _ =>
      if RunOf(w, r, hash).published.Some? then
        if r.removesJournal then w.journals - {r.name} else w.journals[r.name := Damaged]
      else w.journals[r.name := Image(c.id, CreatedAt(w, r), r.walk.identity, LogAfter(w, r, hash))]
  }

  function CreatedAt(w: World, r: RunInput): int {
    var o := OpenedBy(w, r);
    if o.Continued? && o.image.Image? then o.image.createdAt else r.now
  }

  function Next(w: World, s: Step, hash: Hash): World
    requires s.Backup? ==> |s.run.walk.files| == |s.run.env.files|
  {
    match s
    case Backup(r) =>
      if r.walk.files == [] then w  // an empty walk ends before the journal is opened
      else World(RunOf(w, r, hash).store, JournalsAfter(w, r, hash), w.used + {r.freshId}, w.walks + [r.walk])
    case Truncate(name, kept) =>
      if name in w.journals && w.journals[name].Image? && kept <= |w.journals[name].log| then
        w.(journals := w.journals[name := w.journals[name].(log := w.journals[name].log[..kept])])
      else w
    case Corrupt(name) => w.(journals := w.journals[name := Damaged])
  }

  // ------------------------------------------------ hypotheses about the surroundings

  function Slot(f: BackupFile): string {
    Keys.EnsureGzip(f.snapshotPath)
  }

  /** Within one walk: files are readable with the size the walk saw and do not change between being sent
      and being hashed, no two share an object key, and two files under one lookup key are the same file. */
  predicate WalkOk(w: Walk) {
    && (forall f :: f in w.files ==> Steady(f, w.disk, w.later))
    && DistinctSlots(w.files)
    && (forall f, g :: f in w.files && g in w.files && LookupKey(f) == LookupKey(g) ==> FileTag(f) == FileTag(g))
  }

  /** The file has the size the walk saw when it is sent, and the same bytes when it is hashed. */
  predicate Steady(f: BackupFile, disk: Disk, later: Disk) {
    && f.sourcePath in disk && |disk[f.sourcePath]| == f.size
    && f.sourcePath in later && later[f.sourcePath] == disk[f.sourcePath]
  }

  /** Nothing comes back: between two sightings of one tag, neither its object key nor its lookup
      key shows anything else. */
  predicate NoReturnAt(walks: seq<Walk>, i: nat, j: nat, k: nat)
    requires i <= j <= k < |walks|
  {
    walks[i].identity == walks[j].identity == walks[k].identity ==>
      forall f, g, h ::
        && f in walks[i].files && g in walks[j].files && h in walks[k].files
        && FileTag(f) == FileTag(h)
        && (Slot(g) == Slot(f) || LookupKey(g) == LookupKey(f))
        ==> FileTag(g) == FileTag(f)
  }

  /** Using it once a run has appended its own walk. */
  lemma {:induction false} NoReturnNow(walks: seq<Walk>, walk: Walk, i: nat, j: nat, f: BackupFile, g: BackupFile,
                                       h: BackupFile)
    requires Coherent(walks + [walk])
    requires i <= j <= |walks| && i < |walks|
    requires walks[i].identity == (walks + [walk])[j].identity == walk.identity
    requires f in walks[i].files && g in (walks + [walk])[j].files && h in walk.files
    requires FileTag(f) == FileTag(h) && (Slot(g) == Slot(f) || LookupKey(g) == LookupKey(f))
    ensures FileTag(g) == FileTag(f)
  {
    assert NoReturnAt(walks + [walk], i, j, |walks|);
  }

  predicate Coherent(walks: seq<Walk>) {
    && (forall i :: 0 <= i < |walks| ==> WalkOk(walks[i]))
    && (forall i, j, k :: 0 <= i <= j <= k < |walks| ==> NoReturnAt(walks, i, j, k))
  }

  /** In walks of one identity, an object key always belongs to the same lookup key: the configured roots
      keep their positions, and no path is another one plus ".gz". */
  predicate StableSlots(walks: seq<Walk>) {
    forall i, j :: 0 <= i < |walks| && 0 <= j < |walks| ==> StableAt(walks, i, j)
  }

  predicate StableAt(walks: seq<Walk>, i: nat, j: nat)
    requires i < |walks| && j < |walks|
  {
    walks[i].identity == walks[j].identity ==>
      forall f, g :: f in walks[i].files && g in walks[j].files && Slot(f) == Slot(g) ==> LookupKey(f) == LookupKey(g)
  }

  /** A file that changed does not get an earlier size and modification time back. */
  predicate StatsNeverRecur(walks: seq<Walk>) {
    forall i, j, k :: 0 <= i <= j <= k < |walks| ==> NoRecurAt(walks, i, j, k)
  }

  predicate NoRecurAt(walks: seq<Walk>, i: nat, j: nat, k: nat)
    requires i <= j <= k < |walks|
  {
    forall f, g, h ::
      && f in walks[i].files && g in walks[j].files && h in walks[k].files
      && FileTag(f) == FileTag(h) && LookupKey(g) == LookupKey(f)
      ==> FileTag(g) == FileTag(f)
  }

  /** What coherence asks of the source machine, in its own terms. */
  lemma {:induction false} CoherentIfStable(walks: seq<Walk>)
    requires forall i :: 0 <= i < |walks| ==> WalkOk(walks[i])
    requires StableSlots(walks) && StatsNeverRecur(walks)
    ensures Coherent(walks)
  {
    forall i, j, k | 0 <= i <= j <= k < |walks| ensures NoReturnAt(walks, i, j, k) {
      NoReturnIfStable(walks, i, j, k);
    }
  }

  lemma {:induction false} NoReturnIfStable(walks: seq<Walk>, i: nat, j: nat, k: nat)
    requires i <= j <= k < |walks| && StableAt(walks, j, i) && NoRecurAt(walks, i, j, k)
    ensures NoReturnAt(walks, i, j, k)
  {
  }

  /** A step the environment can take: fresh IDs are new and slash-free, and the previous manifest
      is one the store holds. */
  predicate StepOk(w: World, s: Step) {
    s.Backup? ==>
      var r := s.run;
      && |r.env.files| == |r.walk.files|
      && Keys.SlashFree(r.freshId) && r.freshId !in w.used
      && (r.prev.Some? ==> Holds(w.store, r.prev.value))
  }

  predicate Holds(store: Store, snap: Snapshot) {
    Keys.ManifestKey(snap.id) in store && store[Keys.ManifestKey(snap.id)] == Manifest(snap)
  }

  // ------------------------------------------------ the invariant

  predicate IsPublished(store: Store, id: string) {
    Keys.ManifestKey(id) in store
  }

  /** An entry names an intact object under a published snapshot's prefix. */
  predicate EntryOk(store: Store, hash: Hash, e: SnapshotFile) {
    Intact(store, hash, e) && IsPublished(store, Keys.Owner(e.backupPath))
  }

  predicate ManifestOk(store: Store, hash: Hash, used: set<string>, key: string)
    requires key in store && store[key].Manifest?
  {
    var s := store[key].snap;
    && key == Keys.ManifestKey(s.id) && Keys.SlashFree(s.id) && s.id in used
    && forall e :: e in s.files ==> EntryOk(store, hash, e)
  }

  /** Manifest keys hold manifests, and every manifest names only intact objects. */
  predicate StoreOk(store: Store, hash: Hash, used: set<string>) {
    forall key :: key in store ==>
      if store[key].Manifest? then ManifestOk(store, hash, used, key) else !Keys.IsManifestPath(key)
  }

  /** The object a journal line names still holds the bytes that were uploaded for it. */
  predicate Live(store: Store, walks: seq<Walk>, l: Logged) {
    && l.run < |walks| && l.file.sourcePath in walks[l.run].disk
    && l.entry.backupPath in store
    && store[l.entry.backupPath] == Blob(walks[l.run].disk[l.file.sourcePath])
  }

  /** A later walk saw something else under the line's object key or lookup key. */
  ghost predicate Superseded(walks: seq<Walk>, l: Logged) {
    exists j, g :: SupersededBy(walks, l, j, g)
  }

  predicate SupersededBy(walks: seq<Walk>, l: Logged, j: nat, g: BackupFile) {
    && l.run <= j < |walks| && walks[j].identity == walks[l.run].identity
    && g in walks[j].files
    && (Slot(g) == Slot(l.file) || LookupKey(g) == LookupKey(l.file))
    && FileTag(g) != FileTag(l.file)
  }

  ghost predicate LoggedOk(store: Store, hash: Hash, walks: seq<Walk>, id: string, identity: string, l: Logged) {
    && l.run < |walks| && walks[l.run].identity == identity
    && l.file in walks[l.run].files
    && l.entry.backupPath == Keys.ObjectKey(id, l.file.snapshotPath)
    && EntryTag(l.entry) == FileTag(l.file)
    && (l.entry.checksum.Some? ==>
          && l.file.sourcePath in walks[l.run].disk
          && l.entry.checksum.value == hash(walks[l.run].disk[l.file.sourcePath]))
    && (Live(store, walks, l) || Superseded(walks, l))
  }

  ghost predicate LogOk(store: Store, hash: Hash, walks: seq<Walk>, id: string, identity: string, log: seq<Logged>) {
    && (forall p :: 0 <= p < |log| ==> LoggedOk(store, hash, walks, id, identity, log[p]))
    && (forall p, q :: 0 <= p < q < |log| ==> log[p].run <= log[q].run)
  }

  ghost predicate JournalOk(w: World, hash: Hash, j: JournalFile) {
    j.Image? ==>
      && Keys.SlashFree(j.id) && j.id in w.used && !IsPublished(w.store, j.id)
      && LogOk(w.store, hash, w.walks, j.id, j.identity, j.log)
  }

  ghost predicate Inv(w: World, hash: Hash) {
    && StoreOk(w.store, hash, w.used)
    && (forall name :: name in w.journals ==> JournalOk(w, hash, w.journals[name]))
    && (forall a, b :: a in w.journals && b in w.journals && a != b
                       && w.journals[a].Image? && w.journals[b].Image?
                       ==> w.journals[a].id != w.journals[b].id)
  }

  // ------------------------------------------------ frames

  /** The two stores agree on everything outside one snapshot's prefix, and the second holds no
      manifest, and nothing at a manifest key, that the first does not. */
  ghost predicate OnlyInside(a: Store, b: Store, id: string) {
    && SameOutside(a, b, id)
    && (forall k :: k in b && (b[k].Manifest? || Keys.IsManifestPath(k)) ==> k in a && a[k] == b[k])
  }

  ghost predicate SameOutside(a: Store, b: Store, id: string) {
    forall k :: Keys.Owner(k) != id ==> SameAt(a, b, k)
  }

  lemma {:induction false} CleanupOnlyInside(store: Store, id: string, deletable: set<string>)
    requires Keys.SlashFree(id)
    ensures OnlyInside(store, Cleanup(store, id, deletable), id)
  {
    forall k | Keys.Owner(k) != id ensures SameAt(store, Cleanup(store, id, deletable), k) {
      if Keys.Scoped(k, id) { Keys.ScopedOwner(k, id); }
    }
  }

  lemma {:induction false} LoopOnlyInside(c: Ctx, store: Store, files: seq<BackupFile>, env: seq<FileEnv>,
                                          outs: seq<Outcome>)
    requires |files| == |env| == |outs|
    requires Keys.SlashFree(c.id)
    ensures OnlyInside(store, StoreTo(c, store, files, env, outs, |files|), c.id)
    ensures SameAt(store, StoreTo(c, store, files, env, outs, |files|), Keys.ManifestKey(c.id))
  {
    var after := StoreTo(c, store, files, env, outs, |files|);
    Keys.ManifestKeyFacts(c.id);
    forall k | Keys.Owner(k) != c.id || Keys.IsManifestPath(k) ensures SameAt(store, after, k) {
      forall m | m in SentTo(outs, |files|) ensures KeyOf(c, files[m]) != k {
        Keys.ObjectKeyFacts(c.id, files[m].snapshotPath);
      }
      UntouchedKey(c, store, files, env, outs, |files|, k);
    }
    forall k | k in after && after[k].Manifest? ensures k in store && store[k] == after[k] {
      NoNewManifest(c, store, files, env, outs, |files|, k);
    }
  }

  /** An unpublished snapshot's prefix can change freely: no manifest names anything under it. */
  lemma {:induction false} StoreOkInside(a: Store, b: Store, hash: Hash, used: set<string>, id: string)
    requires StoreOk(a, hash, used) && !IsPublished(a, id)
    requires OnlyInside(a, b, id)
    ensures StoreOk(b, hash, used)
    ensures forall e :: EntryOk(a, hash, e) ==> EntryOk(b, hash, e)
  {
    forall e | EntryOk(a, hash, e) ensures EntryOk(b, hash, e) {
      var o := Keys.Owner(e.backupPath);
      assert SameAt(a, b, e.backupPath);
      Keys.OwnerSlashFree(e.backupPath);
      Keys.ManifestKeyFacts(o);
      assert SameAt(a, b, Keys.ManifestKey(o));
    }
  }

  /** A journal of another snapshot is untouched by changes inside this one's prefix. */
  lemma {:induction false} LogOkElsewhere(a: Store, b: Store, hash: Hash, walks: seq<Walk>, more: seq<Walk>, id: string,
                       identity: string, log: seq<Logged>, other: string)
    requires LogOk(a, hash, walks, id, identity, log)
    requires walks <= more
    requires Keys.SlashFree(id) && id != other && SameOutside(a, b, other)
    ensures LogOk(b, hash, more, id, identity, log)
  {
    forall p | 0 <= p < |log| ensures LoggedOk(b, hash, more, id, identity, log[p]) {
      var l := log[p];
      Keys.ObjectKeyFacts(id, l.file.snapshotPath);
      assert SameAt(a, b, l.entry.backupPath);
      if Superseded(walks, l) { SupersededStays(walks, more, l); }
    }
  }

  lemma {:induction false} SupersededStays(walks: seq<Walk>, more: seq<Walk>, l: Logged)
    requires Superseded(walks, l)
    requires walks <= more
    ensures Superseded(more, l)
  {
    var j, g :| SupersededBy(walks, l, j, g);
    assert SupersededBy(more, l, j, g);
  }

  // ------------------------------------------------ resuming

  /** The journal line that a resumed file is carried over from. */
  predicate CarriedFrom(log: seq<Logged>, e: SnapshotFile, p: int) {
    && 0 <= p < |log| && log[p].entry == e
    && forall q :: p < q < |log| ==> EntryKey(log[q].entry) != EntryKey(e)
  }

  lemma {:induction false} LastLine(log: seq<Logged>, key: string) returns (p: nat)
    requires key in LastWins(Entries(log))
    ensures CarriedFrom(log, LastWins(Entries(log))[key], p)
    ensures EntryKey(log[p].entry) == key
  {
    LastWinsMeaning(Entries(log), key);
    p :| 0 <= p < |Entries(log)| && Entries(log)[p] == LastWins(Entries(log))[key]
         && EntryKey(Entries(log)[p]) == key
         && forall q :: p < q < |Entries(log)| ==> EntryKey(Entries(log)[q]) != key;
    forall q | p < q < |log| ensures EntryKey(log[q].entry) != key {
      assert Entries(log)[q] == log[q].entry;
    }
  }

  /** A walked file the run resumes has the tag of the line it is carried over from, and that
      line's object still holds the uploaded bytes. */
  lemma {:induction false} ResumedIsLive(store: Store, hash: Hash, walks: seq<Walk>, walk: Walk, id: string,
                                         log: seq<Logged>,
                      f: BackupFile) returns (p: nat)
    requires LogOk(store, hash, walks, id, walk.identity, log)
    requires Coherent(walks + [walk])
    requires f in walk.files && LookupKey(f) in ResumedMap(walk.files, LastWins(Entries(log)))
    ensures CarriedFrom(log, ResumedMap(walk.files, LastWins(Entries(log)))[LookupKey(f)], p)
    ensures FileTag(log[p].file) == FileTag(f)
    ensures Live(store, walks, log[p])
  {
    var key, entries := LookupKey(f), LastWins(Entries(log));
    ResumedMeaning(walk.files, entries, key);
    var m :| 0 <= m < |walk.files| && LookupKey(walk.files[m]) == key && LookupHits(entries, walk.files[m]);
    p := LastLine(log, key);
    assert WalkOk((walks + [walk])[|walks|]);
    assert FileTag(walk.files[m]) == FileTag(f);
    NotSuperseded(store, hash, walks, walk, id, log[p], f);
  }

  /** A line whose tag is seen again has not been superseded. */
  lemma {:induction false} NotSuperseded(store: Store, hash: Hash, walks: seq<Walk>, walk: Walk, id: string, l: Logged,
                                         f: BackupFile)
    requires LoggedOk(store, hash, walks, id, walk.identity, l)
    requires Coherent(walks + [walk])
    requires f in walk.files && FileTag(f) == FileTag(l.file)
    ensures !Superseded(walks, l)
  {
    if Superseded(walks, l) {
      var j, g :| SupersededBy(walks, l, j, g);
      NoReturnNow(walks, walk, l.run, j, l.file, g, f);
    }
  }

  // ------------------------------------------------ one run

  /** What a run starts from: its context `c` and the store, the journal lines it found, and the
      manifest it compares with, all as the invariant promises them. */
  ghost predicate Ready(c: Ctx, store: Store, used: set<string>, walks: seq<Walk>, walk: Walk, log: seq<Logged>,
                        prev: Option<Snapshot>) {
    && Keys.SlashFree(c.id) && c.id in used
    && StoreOk(store, c.hash, used) && !IsPublished(store, c.id)
    && LogOk(store, c.hash, walks, c.id, walk.identity, log)
    && Coherent(walks + [walk])
    && c.disk == walk.disk && c.later == walk.later
    && c.resumed == ResumedMap(walk.files, LastWins(Entries(log)))
    && c.prev == PreviousIndex(prev)
    && (prev.Some? ==> forall e :: e in prev.value.files ==> EntryOk(store, c.hash, e))
  }

  /** Each outcome is the one the engine decides for that file. */
  predicate Decided(c: Ctx, files: seq<BackupFile>, env: seq<FileEnv>, outs: seq<Outcome>) {
    |files| == |env| == |outs| && forall m :: 0 <= m < |outs| ==> outs[m] == Classify(c, files[m], env[m])
  }

  /** A file the run sends is not resumed. */
  lemma {:induction false} SentFacts(c: Ctx, files: seq<BackupFile>, env: seq<FileEnv>, outs: seq<Outcome>, m: nat)
    requires Decided(c, files, env, outs) && m in SentTo(outs, |outs|)
    ensures m < |outs| && LookupKey(files[m]) !in c.resumed
  {
    OutcomeFacts(c, files[m], env[m]);
  }

  /** Nothing the run sends lands on the object a resumed file is carried over from. */
  lemma {:induction false} ResumedNotSent(c: Ctx, store: Store, walks: seq<Walk>, walk: Walk, log: seq<Logged>,
                                          env: seq<FileEnv>, outs: seq<Outcome>, f: BackupFile, p: nat)
    requires LogOk(store, c.hash, walks, c.id, walk.identity, log) && Coherent(walks + [walk])
    requires Decided(c, walk.files, env, outs)
    requires f in walk.files && LookupKey(f) in c.resumed
    requires p < |log| && FileTag(log[p].file) == FileTag(f)
    ensures forall m :: m in SentTo(outs, |outs|) ==> KeyOf(c, walk.files[m]) != log[p].entry.backupPath
  {
    forall m | m in SentTo(outs, |outs|) ensures KeyOf(c, walk.files[m]) != log[p].entry.backupPath {
      var g, l := walk.files[m], log[p];
      SentFacts(c, walk.files, env, outs, m);
      Keys.ObjectKeysCollide(c.id, g.snapshotPath, l.file.snapshotPath);
      if Slot(g) == Slot(l.file) { NoReturnNow(walks, walk, l.run, |walks|, l.file, g, f); }
    }
  }

  /** A file the run sends never has the tag of a journaled line: it would have been resumed. */
  lemma {:induction false} SentTagDiffers(c: Ctx, store: Store, walks: seq<Walk>, walk: Walk, log: seq<Logged>,
                                          env: seq<FileEnv>, outs: seq<Outcome>, p: nat, m: nat)
    requires LogOk(store, c.hash, walks, c.id, walk.identity, log) && Coherent(walks + [walk])
    requires Decided(c, walk.files, env, outs) && p < |log|
    requires c.resumed == ResumedMap(walk.files, LastWins(Entries(log)))
    requires m in SentTo(outs, |outs|)
    ensures FileTag(walk.files[m]) != FileTag(log[p].file)
  {
    var g, l := walk.files[m], log[p];
    SentFacts(c, walk.files, env, outs, m);
    if FileTag(g) == FileTag(l.file) {
      var key := LookupKey(g);
      assert Entries(log)[p] == l.entry && EntryKey(l.entry) == key;
      LastWinsMeaning(Entries(log), key);
      var q := LastLine(log, key);
      assert q >= p && l.run <= log[q].run;
      NoReturnNow(walks, walk, l.run, log[q].run, l.file, log[q].file, g);
      ResumedMeaning(walk.files, LastWins(Entries(log)), key);
      assert LookupHits(LastWins(Entries(log)), g);
    }
  }

  /** A line of the run's own journal keeps the invariant: whatever the run sent over its object
      supersedes it. */
  lemma {:induction false} OldLineKept(c: Ctx, store: Store, walks: seq<Walk>, walk: Walk, log: seq<Logged>,
                                       env: seq<FileEnv>, outs: seq<Outcome>, p: nat)
    requires LogOk(store, c.hash, walks, c.id, walk.identity, log) && Coherent(walks + [walk])
    requires Decided(c, walk.files, env, outs) && p < |log|
    requires c.resumed == ResumedMap(walk.files, LastWins(Entries(log)))
    ensures LoggedOk(StoreTo(c, store, walk.files, env, outs, |outs|), c.hash, walks + [walk], c.id, walk.identity,
                     log[p])
  {
    var l, all := log[p], walks + [walk];
    assert all[l.run] == walks[l.run];
    if Superseded(walks, l) {
      SupersededStays(walks, all, l);
    } else if m :| m in SentTo(outs, |outs|) && KeyOf(c, walk.files[m]) == l.entry.backupPath {
      Keys.ObjectKeysCollide(c.id, walk.files[m].snapshotPath, l.file.snapshotPath);
      SentTagDiffers(c, store, walks, walk, log, env, outs, p, m);
      assert all[|walks|] == walk;
      assert SupersededBy(all, l, |walks|, walk.files[m]);
    } else {
      UntouchedKey(c, store, walk.files, env, outs, |outs|, l.entry.backupPath);
    }
  }

  lemma {:induction false} NewLineOk(c: Ctx, store: Store, walks: seq<Walk>, walk: Walk, env: seq<FileEnv>,
                                     outs: seq<Outcome>, m: nat)
    requires Decided(c, walk.files, env, outs) && m < |outs| && !Halted(outs, m) && outs[m].Uploaded?
    requires Coherent(walks + [walk]) && c.disk == walk.disk && c.later == walk.later
    ensures LoggedOk(StoreTo(c, store, walk.files, env, outs, |outs|), c.hash, walks + [walk], c.id, walk.identity,
                     Logged(outs[m].entry, |walks|, walk.files[m]))
  {
    var all := walks + [walk];
    assert all[|walks|] == walk && WalkOk(all[|walks|]);
    assert walk.files[m] in walk.files;
    OutcomeFacts(c, walk.files[m], env[m]);
    UploadedStays(c, store, walk.files, env, outs, m, |outs|);
    assert Live(StoreTo(c, store, walk.files, env, outs, |outs|), all, Logged(outs[m].entry, |walks|, walk.files[m]));
  }

  /** The run's journal stays good: its old lines and the ones it appended. */
  lemma {:induction false} LogKept(c: Ctx, store: Store, walks: seq<Walk>, walk: Walk, log: seq<Logged>,
                                   env: seq<FileEnv>, outs: seq<Outcome>, writes: seq<bool>)
    requires LogOk(store, c.hash, walks, c.id, walk.identity, log) && Coherent(walks + [walk])
    requires Decided(c, walk.files, env, outs) && |writes| == |outs|
    requires c.disk == walk.disk && c.later == walk.later
    requires c.resumed == ResumedMap(walk.files, LastWins(Entries(log)))
    ensures LogOk(StoreTo(c, store, walk.files, env, outs, |outs|), c.hash, walks + [walk], c.id, walk.identity,
                  log + NewLines(outs, writes, |walks|, walk.files))
  {
    var added := NewLines(outs, writes, |walks|, walk.files);
    var after := StoreTo(c, store, walk.files, env, outs, |outs|);
    forall p | 0 <= p < |log + added|
      ensures LoggedOk(after, c.hash, walks + [walk], c.id, walk.identity, (log + added)[p])
    {
      if p < |log| {
        OldLineKept(c, store, walks, walk, log, env, outs, p);
      } else {
        NewLineOk(c, store, walks, walk, env, outs, RecordedTo(outs, writes, |outs|)[p - |log|]);
      }
    }
  }

  /** Where the bytes of one of the run's manifest entries are, once the loop is done. */
  predicate Placed(store: Store, hash: Hash, id: string, e: SnapshotFile) {
    Intact(store, hash, e) && (Keys.Owner(e.backupPath) == id || EntryOk(store, hash, e))
  }

  lemma {:induction false} UploadedPlaced(c: Ctx, store: Store, walk: Walk, env: seq<FileEnv>, outs: seq<Outcome>,
                                          m: nat)
    requires Decided(c, walk.files, env, outs) && m < |outs| && !Halted(outs, m) && outs[m].Uploaded?
    requires WalkOk(walk) && c.disk == walk.disk && c.later == walk.later && Keys.SlashFree(c.id)
    ensures Placed(StoreTo(c, store, walk.files, env, outs, |outs|), c.hash, c.id, outs[m].entry)
  {
    OutcomeFacts(c, walk.files[m], env[m]);
    UploadedStays(c, store, walk.files, env, outs, m, |outs|);
    Keys.ObjectKeyFacts(c.id, walk.files[m].snapshotPath);
    assert walk.files[m] in walk.files;
  }

  lemma {:induction false} ResumedPlaced(c: Ctx, store: Store, walks: seq<Walk>, walk: Walk, log: seq<Logged>,
                                         env: seq<FileEnv>, outs: seq<Outcome>, f: BackupFile)
    requires LogOk(store, c.hash, walks, c.id, walk.identity, log) && Coherent(walks + [walk])
    requires Decided(c, walk.files, env, outs)
    requires c.resumed == ResumedMap(walk.files, LastWins(Entries(log))) && Keys.SlashFree(c.id)
    requires f in walk.files && LookupKey(f) in c.resumed
    ensures Placed(StoreTo(c, store, walk.files, env, outs, |outs|), c.hash, c.id, c.resumed[LookupKey(f)])
  {
    var p := ResumedIsLive(store, c.hash, walks, walk, c.id, log, f);
    ResumedNotSent(c, store, walks, walk, log, env, outs, f, p);
    UntouchedKey(c, store, walk.files, env, outs, |outs|, log[p].entry.backupPath);
    Keys.ObjectKeyFacts(c.id, log[p].file.snapshotPath);
    assert WalkOk((walks + [walk])[log[p].run]);
  }

  lemma {:induction false} IndexedIn(prev: Option<Snapshot>, key: string)
    requires key in PreviousIndex(prev)
    ensures prev.Some? && PreviousIndex(prev)[key] in prev.value.files
    ensures EntryKey(PreviousIndex(prev)[key]) == key
  {
    LastWinsMeaning(prev.value.files, key);
  }

  /** A referenced entry takes its object and checksum from an indexed entry of the same size. */
  lemma {:induction false} ReferencedFrom(c: Ctx, f: BackupFile, env: FileEnv, prev: Option<Snapshot>)
    requires c.prev == PreviousIndex(prev) && Classify(c, f, env).Referenced?
    ensures prev.Some? && LookupKey(f) in c.prev && c.prev[LookupKey(f)] in prev.value.files
    ensures EntryKey(c.prev[LookupKey(f)]) == LookupKey(f)
    ensures var e, was := Classify(c, f, env).entry, c.prev[LookupKey(f)];
            && e.backupPath == was.backupPath && e.size == was.size && e.checksum == was.checksum
            && EntryTag(e) == FileTag(f)
            && (was.modTime == f.modTime
                || (f.sourcePath in c.disk && was.checksum == Some(c.hash(c.disk[f.sourcePath]))))
  {
    IndexedIn(prev, LookupKey(f));
  }

  lemma {:induction false} ReferencedPlaced(c: Ctx, store: Store, used: set<string>, walk: Walk, prev: Option<Snapshot>,
                                            env: seq<FileEnv>, outs: seq<Outcome>, m: nat)
    requires Decided(c, walk.files, env, outs) && m < |outs| && outs[m].Referenced?
    requires Keys.SlashFree(c.id) && StoreOk(store, c.hash, used) && !IsPublished(store, c.id)
    requires c.prev == PreviousIndex(prev)
    requires prev.Some? ==> forall e :: e in prev.value.files ==> EntryOk(store, c.hash, e)
    ensures Placed(StoreTo(c, store, walk.files, env, outs, |outs|), c.hash, c.id, outs[m].entry)
    ensures SameAt(store, StoreTo(c, store, walk.files, env, outs, |outs|), outs[m].entry.backupPath)
  {
    var after := StoreTo(c, store, walk.files, env, outs, |outs|);
    ReferencedFrom(c, walk.files[m], env[m], prev);
    LoopOnlyInside(c, store, walk.files, env, outs);
    StoreOkInside(store, after, c.hash, used, c.id);
    assert EntryOk(after, c.hash, c.prev[LookupKey(walk.files[m])]);
    assert EntryOk(store, c.hash, c.prev[LookupKey(walk.files[m])]);
  }

  /** Every entry of the run's manifest names an intact object, its own or a published one's. */
  lemma {:induction false} EntryPlaced(c: Ctx, store: Store, used: set<string>, walks: seq<Walk>, walk: Walk,
                                       log: seq<Logged>,
                                       prev: Option<Snapshot>, env: seq<FileEnv>, outs: seq<Outcome>, e: SnapshotFile)
    requires Ready(c, store, used, walks, walk, log, prev) && Decided(c, walk.files, env, outs)
    requires e in EntriesTo(outs, |outs|)
    ensures Placed(StoreTo(c, store, walk.files, env, outs, |outs|), c.hash, c.id, e)
  {
    var m := EntryOrigin(outs, |outs|, e);
    assert WalkOk((walks + [walk])[|walks|]);
    OutcomeFacts(c, walk.files[m], env[m]);
    match outs[m]
    case Uploaded(_) => UploadedPlaced(c, store, walk, env, outs, m);
    case Resumed(_) => ResumedPlaced(c, store, walks, walk, log, env, outs, walk.files[m]);
    case Referenced(_) => ReferencedPlaced(c, store, used, walk, prev, env, outs, m);
  }

  /** Publishing a manifest of placed entries keeps the store sound. */
  lemma {:induction false} PublishKeeps(store: Store, hash: Hash, used: set<string>, snap: Snapshot)
    requires StoreOk(store, hash, used) && Keys.SlashFree(snap.id) && snap.id in used && !IsPublished(store, snap.id)
    requires forall e :: e in snap.files ==> Placed(store, hash, snap.id, e)
    ensures StoreOk(store[Keys.ManifestKey(snap.id) := Manifest(snap)], hash, used)
  {
    var key := Keys.ManifestKey(snap.id);
    var after := store[key := Manifest(snap)];
    Keys.ManifestKeyFacts(snap.id);
    forall e | Placed(store, hash, snap.id, e) ensures EntryOk(after, hash, e) {}
    forall k | k in after && after[k].Manifest? ensures ManifestOk(after, hash, used, k) {
      if k != key { assert ManifestOk(store, hash, used, k); }
    }
  }

  lemma {:induction false} FinishEnds(c: Ctx, after: Store, halted: bool, entries: seq<SnapshotFile>,
                                      prev: Option<Snapshot>,
                                      env: RunEnv)
    ensures var res := Finish(c, after, halted, entries, prev, env);
            && (res.published.None? ==>
                  res.store == after || (!c.journaled && res.store == Cleanup(after, c.id, env.deletable)))
            && (res.published.Some? ==>
                  var snap := res.published.value;
                  && !halted && snap.id == c.id && snap.files == entries
                  && res.store == after[Keys.ManifestKey(c.id) := Manifest(snap)])
  {
  }

  /** How a run can end: with the loop's store, with its prefix cleaned up, or with a manifest of the
      loop's entries added. */
  lemma {:induction false} RunEnds(c: Ctx, store: Store, files: seq<BackupFile>, prev: Option<Snapshot>, env: RunEnv)
    requires |files| == |env.files|
    ensures var outs, res := Outcomes(c, files, env.files), Run(c, store, files, prev, env);
            var after := StoreTo(c, store, files, env.files, outs, |outs|);
            && Decided(c, files, env.files, outs)
            && (res.published.None? ==>
                  res.store == after || (!c.journaled && res.store == Cleanup(after, c.id, env.deletable)))
            && (res.published.Some? ==>
                  var snap := res.published.value;
                  && !Halted(outs, |outs|)
                  && snap.id == c.id && snap.files == EntriesTo(outs, |outs|)
                  && res.store == after[Keys.ManifestKey(c.id) := Manifest(snap)])
  {
    var outs := Outcomes(c, files, env.files);
    FinishEnds(c, StoreTo(c, store, files, env.files, outs, |outs|), Halted(outs, |outs|), EntriesTo(outs, |outs|),
               prev, env);
  }

  /** Whatever happens during a run, the store it leaves behind is sound; except for the manifest it
      publishes, it changes only its own snapshot's prefix. */
  lemma {:induction false} RunKeepsStore(c: Ctx, store: Store, used: set<string>, walks: seq<Walk>, walk: Walk,
                                         log: seq<Logged>,
                                         prev: Option<Snapshot>, env: RunEnv)
    requires Ready(c, store, used, walks, walk, log, prev) && |walk.files| == |env.files|
    ensures var res := Run(c, store, walk.files, prev, env);
            && StoreOk(res.store, c.hash, used)
            && SameOutside(store, res.store, c.id)
            && (res.published.None? ==> OnlyInside(store, res.store, c.id))
  {
    var outs := Outcomes(c, walk.files, env.files);
    var after, res := StoreTo(c, store, walk.files, env.files, outs, |outs|), Run(c, store, walk.files, prev, env);
    RunEnds(c, store, walk.files, prev, env);
    LoopOnlyInside(c, store, walk.files, env.files, outs);
    StoreOkInside(store, after, c.hash, used, c.id);
    if res.published.Some? {
      forall e | e in EntriesTo(outs, |outs|) ensures Placed(after, c.hash, c.id, e) {
        EntryPlaced(c, store, used, walks, walk, log, prev, env.files, outs, e);
      }
      PublishKeeps(after, c.hash, used, res.published.value);
      Keys.ManifestKeyFacts(c.id);
    } else {
      CleanupOnlyInside(after, c.id, env.deletable);
      StoreOkInside(after, Cleanup(after, c.id, env.deletable), c.hash, used, c.id);
    }
  }

  /** A run that keeps its journal leaves it good, and its snapshot unpublished. */
  lemma {:induction false} RunKeepsLog(c: Ctx, store: Store, used: set<string>, walks: seq<Walk>, walk: Walk,
                                       log: seq<Logged>,
                                       prev: Option<Snapshot>, env: RunEnv)
    requires Ready(c, store, used, walks, walk, log, prev) && |walk.files| == |env.files| && c.journaled
    requires Run(c, store, walk.files, prev, env).published.None?
    ensures var res, outs := Run(c, store, walk.files, prev, env), Outcomes(c, walk.files, env.files);
            && !IsPublished(res.store, c.id)
            && LogOk(res.store, c.hash, walks + [walk], c.id, walk.identity,
                     log + NewLines(outs, Writes(c, env.files), |walks|, walk.files))
  {
    var outs := Outcomes(c, walk.files, env.files);
    RunEnds(c, store, walk.files, prev, env);
    LoopOnlyInside(c, store, walk.files, env.files, outs);
    LogKept(c, store, walks, walk, log, env.files, outs, Writes(c, env.files));
  }

  // ------------------------------------------------ one run in its world

  lemma {:induction false} UnpublishedId(store: Store, hash: Hash, used: set<string>, id: string)
    requires StoreOk(store, hash, used) && Keys.SlashFree(id) && id !in used
    ensures !IsPublished(store, id)
  {
    Keys.ManifestKeyFacts(id);
    var key := Keys.ManifestKey(id);
    if key in store {
      assert ManifestOk(store, hash, used, key);
      Keys.ManifestKeyFacts(store[key].snap.id);
    }
  }

  lemma {:induction false} MoreIds(store: Store, hash: Hash, used: set<string>, more: set<string>)
    requires StoreOk(store, hash, used) && used <= more
    ensures StoreOk(store, hash, more)
  {
    forall key | key in store && store[key].Manifest? ensures ManifestOk(store, hash, more, key) {
      assert ManifestOk(store, hash, used, key);
    }
  }

  /** Opening the journal cleans up at most one unpublished snapshot, whose journal is gone. */
  lemma {:induction false} OpenKeepsStore(w: World, r: RunInput, hash: Hash)
    requires Inv(w, hash) && StepOk(w, Backup(r))
    ensures var store := StoreOpened(w, r);
            && StoreOk(store, hash, w.used)
            && (forall e :: EntryOk(w.store, hash, e) ==> EntryOk(store, hash, e))
            && (forall id :: !IsPublished(w.store, id) ==> !IsPublished(store, id))
            && (store == w.store || exists id :: StaleId(w, r, id) && OnlyInside(w.store, store, id))
  {
    var o, store := OpenedBy(w, r), StoreOpened(w, r);
    if o.Fresh? && o.stale.Some? {
      assert JournalOk(w, hash, w.journals[r.name]);
      CleanupOnlyInside(w.store, o.stale.value, r.staleDeletable);
      StoreOkInside(w.store, store, hash, w.used, o.stale.value);
      assert StaleId(w, r, o.stale.value);
    }
  }

  /** The snapshot ID of a journal the run discards. */
  predicate StaleId(w: World, r: RunInput, id: string) {
    r.name in w.journals && w.journals[r.name].Image? && w.journals[r.name].id == id && !OpenedBy(w, r).Continued?
  }

  /** The run starts ready, under a snapshot ID no other journal has. */
  lemma {:induction false} OpenMakesReady(w: World, r: RunInput, hash: Hash)
    requires Inv(w, hash) && StepOk(w, Backup(r)) && Coherent(w.walks + [r.walk])
    ensures Ready(RunCtx(w, r, hash), StoreOpened(w, r), w.used + {r.freshId}, w.walks, r.walk, RunLog(w, r), r.prev)
    ensures RunCtx(w, r, hash).hash == hash
  {
    UnpublishedId(w.store, hash, w.used, r.freshId);
    OpenKeepsStore(w, r, hash);
    MoreIds(StoreOpened(w, r), hash, w.used, w.used + {r.freshId});
    if r.prev.Some? { assert ManifestOk(w.store, hash, w.used, Keys.ManifestKey(r.prev.value.id)); }
    if OpenedBy(w, r).Continued? { assert JournalOk(w, hash, w.journals[r.name]); }
  }

  lemma {:induction false} OwnId(w: World, r: RunInput, hash: Hash, name: string)
    requires Inv(w, hash) && StepOk(w, Backup(r))
    requires name in w.journals && w.journals[name].Image?
    requires name != r.name || !OpenedBy(w, r).Continued?
    ensures w.journals[name].id != RunCtx(w, r, hash).id
    ensures name != r.name ==> !StaleId(w, r, w.journals[name].id)
  {
    assert JournalOk(w, hash, w.journals[name]);
  }

  /** A journal the run did not open is as good as before: another identity's, or the run's own
      file when no journal could be opened. */
  lemma {:induction false} OtherJournalKept(w: World, r: RunInput, hash: Hash, name: string)
    requires Inv(w, hash) && StepOk(w, Backup(r)) && Coherent(w.walks + [r.walk]) && r.walk.files != []
    requires name in w.journals && w.journals[name].Image?
    requires name != r.name || OpenedBy(w, r).NoJournal?
    ensures JournalOk(Next(w, Backup(r), hash), hash, w.journals[name])
  {
    var j, c, store := w.journals[name], RunCtx(w, r, hash), StoreOpened(w, r);
    var after := RunOf(w, r, hash).store;
    OpenMakesReady(w, r, hash);
    RunKeepsStore(c, store, w.used + {r.freshId}, w.walks, r.walk, RunLog(w, r), r.prev, r.env);
    assert JournalOk(w, hash, j);
    OwnId(w, r, hash, name);
    OpenKeepsLog(w, r, hash, name);
    Keys.ManifestKeyFacts(j.id);
    assert SameAt(store, after, Keys.ManifestKey(j.id));
    LogOkElsewhere(store, after, hash, w.walks, w.walks + [r.walk], j.id, j.identity, j.log, c.id);
  }

  lemma {:induction false} OpenKeepsLog(w: World, r: RunInput, hash: Hash, name: string)
    requires Inv(w, hash) && StepOk(w, Backup(r))
    requires name in w.journals && w.journals[name].Image?
    requires name != r.name || OpenedBy(w, r).NoJournal?
    ensures var j := w.journals[name];
            LogOk(StoreOpened(w, r), hash, w.walks, j.id, j.identity, j.log) && !IsPublished(StoreOpened(w, r), j.id)
  {
    var j, store := w.journals[name], StoreOpened(w, r);
    assert JournalOk(w, hash, j);
    OpenKeepsStore(w, r, hash);
    if store != w.store {
      var id :| StaleId(w, r, id) && OnlyInside(w.store, store, id);
      OwnId(w, r, hash, name);
      LogOkElsewhere(w.store, store, hash, w.walks, w.walks, j.id, j.identity, j.log, id);
    }
  }

  lemma {:induction false} OwnJournalKept(w: World, r: RunInput, hash: Hash)
    requires Inv(w, hash) && StepOk(w, Backup(r)) && Coherent(w.walks + [r.walk]) && r.walk.files != []
    requires !OpenedBy(w, r).NoJournal? && RunOf(w, r, hash).published.None?
    ensures JournalOk(Next(w, Backup(r), hash), hash,
                      Image(RunCtx(w, r, hash).id, CreatedAt(w, r), r.walk.identity, LogAfter(w, r, hash)))
  {
    OpenMakesReady(w, r, hash);
    RunKeepsLog(RunCtx(w, r, hash), StoreOpened(w, r), w.used + {r.freshId}, w.walks, r.walk, RunLog(w, r), r.prev,
                r.env);
  }

  lemma {:induction false} BackupKeepsInv(w: World, r: RunInput, hash: Hash)
    requires Inv(w, hash) && StepOk(w, Backup(r)) && Coherent(w.walks + [r.walk])
    requires r.walk.files != []
    ensures Inv(Next(w, Backup(r), hash), hash)
  {
    var js := JournalsAfter(w, r, hash);
    OpenMakesReady(w, r, hash);
    RunKeepsStore(RunCtx(w, r, hash), StoreOpened(w, r), w.used + {r.freshId}, w.walks, r.walk, RunLog(w, r), r.prev,
                  r.env);
    forall name | name in js ensures JournalOk(Next(w, Backup(r), hash), hash, js[name]) {
      if js[name].Image? { JournalKept(w, r, hash, name); }
    }
    forall a, b | a in js && b in js && a != b && js[a].Image? && js[b].Image? ensures js[a].id != js[b].id {
      IdsStayDistinct(w, r, hash, a, b);
    }
  }

  /** Only the run's own journal file changes, and if it still holds an image after a run that
      opened it, that image is of the run's snapshot. */
  lemma {:induction false} JournalsChange(w: World, r: RunInput, hash: Hash, name: string)
    requires |r.walk.files| == |r.env.files|
    requires name in JournalsAfter(w, r, hash) && JournalsAfter(w, r, hash)[name].Image?
    ensures name != r.name || OpenedBy(w, r).NoJournal? ==>
              name in w.journals && JournalsAfter(w, r, hash)[name] == w.journals[name]
    ensures name == r.name && !OpenedBy(w, r).NoJournal? ==>
              && JournalsAfter(w, r, hash)[name]
                 == Image(RunCtx(w, r, hash).id, CreatedAt(w, r), r.walk.identity, LogAfter(w, r, hash))
              && RunOf(w, r, hash).published.None?
  {
  }

  lemma {:induction false} IdsStayDistinct(w: World, r: RunInput, hash: Hash, a: string, b: string)
    requires Inv(w, hash) && StepOk(w, Backup(r))
    requires var js := JournalsAfter(w, r, hash); a in js && b in js && a != b && js[a].Image? && js[b].Image?
    ensures JournalsAfter(w, r, hash)[a].id != JournalsAfter(w, r, hash)[b].id
  {
    JournalsChange(w, r, hash, a);
    JournalsChange(w, r, hash, b);
    if a != r.name { OwnId(w, r, hash, a); }
    if b != r.name { OwnId(w, r, hash, b); }
  }

  lemma {:induction false} JournalKept(w: World, r: RunInput, hash: Hash, name: string)
    requires Inv(w, hash) && StepOk(w, Backup(r)) && Coherent(w.walks + [r.walk]) && r.walk.files != []
    requires name in JournalsAfter(w, r, hash) && JournalsAfter(w, r, hash)[name].Image?
    ensures JournalOk(Next(w, Backup(r), hash), hash, JournalsAfter(w, r, hash)[name])
  {
    JournalsChange(w, r, hash, name);
    if name != r.name || OpenedBy(w, r).NoJournal? {
      OtherJournalKept(w, r, hash, name);
    } else {
      OwnJournalKept(w, r, hash);
    }
  }

  lemma {:induction false} DamageKeepsInv(w: World, s: Step, hash: Hash)
    requires Inv(w, hash) && !s.Backup?
    ensures Inv(Next(w, s, hash), hash)
  {
    if s.Truncate? && s.name in w.journals && w.journals[s.name].Image? && s.kept <= |w.journals[s.name].log| {
      assert JournalOk(w, hash, w.journals[s.name]);
    }
  }

  // ------------------------------------------------ every history

  const EMPTY := World(map[], map[], {}, [])

  /** Each step is one the environment can take, and what the runs saw is coherent. */
  predicate Possible(w: World, steps: seq<Step>, hash: Hash)
    decreases steps
  {
    if steps == [] then true
    else
      && StepOk(w, steps[0])
      && Coherent(Next(w, steps[0], hash).walks)
      && Possible(Next(w, steps[0], hash), steps[1..], hash)
  }

  function Exec(w: World, steps: seq<Step>, hash: Hash): World
    requires Possible(w, steps, hash)
    decreases steps
  {
    if steps == [] then w else Exec(Next(w, steps[0], hash), steps[1..], hash)
  }

  lemma {:induction false} HistoryKeepsInv(w: World, steps: seq<Step>, hash: Hash)
    requires Inv(w, hash) && Possible(w, steps, hash)
    ensures Inv(Exec(w, steps, hash), hash)
    decreases steps
  {
    if steps != [] {
      match steps[0] {
        case Backup(r) => if r.walk.files != [] { BackupKeepsInv(w, r, hash); }
        case _ => DamageKeepsInv(w, steps[0], hash);
      }
      HistoryKeepsInv(Next(w, steps[0], hash), steps[1..], hash);
    }
  }

  /** In every state any history reaches, every manifest names only objects that are present with
      the recorded size and, where recorded, checksum. */
  lemma {:induction false} EveryManifestSound(steps: seq<Step>, hash: Hash, key: string)
    requires Possible(EMPTY, steps, hash)
    requires var store := Exec(EMPTY, steps, hash).store; key in store && store[key].Manifest?
    ensures var store := Exec(EMPTY, steps, hash).store; Sound(store, hash, store[key].snap)
  {
    HistoryKeepsInv(EMPTY, steps, hash);
    assert ManifestOk(Exec(EMPTY, steps, hash).store, hash, Exec(EMPTY, steps, hash).used, key);
  }
}
