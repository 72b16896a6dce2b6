/** Resume equivalence in the multi-run protocol: interrupted backup steps and losses of journal lines,
    then a backup step that finishes. */
module ResumeHistory {
  import opened Domain
  import opened Incremental
  import opened Engine
  import opened History
  import Resume

  /** An interrupted run, and how many journal lines were left when it started. */
  datatype Interruption = Interruption(kept: nat, run: RunInput)

  /** The run backs up the same tree against the same manifest, with a journal. */
  predicate SameJob(r: RunInput, base: RunInput) {
    && r.name == base.name && r.walk == base.walk && r.prev == base.prev
    && r.open.hasDir && r.open.reopens && r.open.creates
    && |r.env.files| == |r.walk.files| && Resume.Readable(r.env.files)
  }

  predicate SameJobs(cuts: seq<Interruption>, base: RunInput) {
    forall i :: 0 <= i < |cuts| ==> SameJob(cuts[i].run, base)
  }

  /** Lose all but `kept` lines. */
  function Lose(w: World, name: string, kept: nat, hash: Hash): World {
    Next(w, Truncate(name, kept), hash)
  }

  function WorldAfter(w: World, cuts: seq<Interruption>, base: RunInput, hash: Hash): World
    requires SameJobs(cuts, base)
  {
    if cuts == [] then w
    else
      var n := |cuts| - 1;
      Next(Lose(WorldAfter(w, cuts[..n], base, hash), base.name, cuts[n].kept, hash), Backup(cuts[n].run), hash)
  }

  /** Each run ended without publishing, and started while the first one's journal was young enough. */
  predicate AllInterrupted(w: World, cuts: seq<Interruption>, base: RunInput, hash: Hash)
    requires SameJobs(cuts, base)
  {
    cuts == [] ||
    var n := |cuts| - 1;
    && AllInterrupted(w, cuts[..n], base, hash)
    && cuts[n].run.now - cuts[0].run.now <= MAX_AGE
    && var found := Lose(WorldAfter(w, cuts[..n], base, hash), base.name, cuts[n].kept, hash);
       RunOf(found, cuts[n].run, hash).published.None?
  }

  /** The context of the first attempt. */
  function FirstCtx(r: RunInput, id: string, hash: Hash): Ctx {
    Ctx(id, true, map[], PreviousIndex(r.prev), r.walk.disk, r.walk.later, hash)
  }

  function CutsOf(cuts: seq<Interruption>): seq<Resume.Cut> {
    seq(|cuts|, i requires 0 <= i < |cuts| => Resume.Cut(cuts[i].kept, cuts[i].run.env.files))
  }

  lemma {:induction false} CutsFit(cuts: seq<Interruption>, base: RunInput)
    requires SameJobs(cuts, base)
    ensures Resume.CutsOk(base.walk.files, CutsOf(cuts))
  {
    forall i | 0 <= i < |cuts|
      ensures |CutsOf(cuts)[i].env| == |base.walk.files| && Resume.Readable(CutsOf(cuts)[i].env)
    {
      assert SameJob(cuts[i].run, base);
    }
  }

  /** A run that finds no journal starts from the first context. */
  lemma {:induction false} FreshCtx(w: World, r: RunInput, base: RunInput, hash: Hash)
    requires SameJob(r, base) && JournalAt(w, r.name).None?
    ensures OpenedBy(w, r) == Fresh(None) && RunLog(w, r) == [] && CreatedAt(w, r) == r.now
    ensures RunCtx(w, r, hash) == FirstCtx(base, r.freshId, hash)
    ensures RunCtx(w, r, hash) == Resume.With(FirstCtx(base, r.freshId, hash), r.walk.files, [])
  {
    NothingResumed(r.walk.files);
    assert Entries([]) == [];
  }

  /** A run that continues a journal resumes exactly its lines. */
  lemma {:induction false} ContinuedCtx(w: World, r: RunInput, base: RunInput, id: string, created: int,
                                        log: seq<Logged>,
                                        hash: Hash)
    requires SameJob(r, base) && JournalAt(w, r.name) == Some(Image(id, created, r.walk.identity, log))
    requires r.now - created <= MAX_AGE
    ensures !OpenedBy(w, r).NoJournal? && RunLog(w, r) == log && CreatedAt(w, r) == created
    ensures RunCtx(w, r, hash) == Resume.With(FirstCtx(base, id, hash), r.walk.files, Entries(log))
  {
  }

  /** A run that keeps its journal adds what the attempt appends. */
  lemma {:induction false} KeepsLines(w: World, r: RunInput, c: Ctx, es: seq<SnapshotFile>, hash: Hash)
    returns (log: seq<Logged>)
    requires r.walk.files != [] && |r.walk.files| == |r.env.files| && !OpenedBy(w, r).NoJournal?
    requires RunCtx(w, r, hash) == Resume.With(c, r.walk.files, es) && Entries(RunLog(w, r)) == es
    requires RunOf(w, r, hash).published.None?
    ensures JournalAt(Next(w, Backup(r), hash), r.name) == Some(Image(c.id, CreatedAt(w, r), r.walk.identity, log))
    ensures Entries(log) == es + Resume.Appended(Resume.With(c, r.walk.files, es), r.walk.files, r.env.files)
  {
    var ctx := RunCtx(w, r, hash);
    var outs, writes := Outcomes(ctx, r.walk.files, r.env.files), Writes(ctx, r.env.files);
    log := LogAfter(w, r, hash);
    NewEntries(outs, writes, |w.walks|, r.walk.files);
    EntriesConcat(RunLog(w, r), NewLines(outs, writes, |w.walks|, r.walk.files));
  }

  /** The journal after the interruptions: the first run's ID and time, and the lines of the attempts. */
  ghost predicate Holding(w: World, cuts: seq<Interruption>, base: RunInput, hash: Hash, log: seq<Logged>)
    requires SameJobs(cuts, base) && cuts != []
  {
    && JournalAt(WorldAfter(w, cuts, base, hash), base.name)
       == Some(Image(cuts[0].run.freshId, cuts[0].run.now, base.walk.identity, log))
    && Resume.CutsOk(base.walk.files, CutsOf(cuts))
    && Entries(log) == Resume.LogAfter(FirstCtx(base, cuts[0].run.freshId, hash), base.walk.files, CutsOf(cuts))
  }

  lemma {:induction false} EntriesKept(log: seq<Logged>, kept: nat)
    ensures Entries(if kept <= |log| then log[..kept] else log) == Resume.Kept(Entries(log), kept)
  {
  }

  lemma {:induction false} LogSnoc(c: Ctx, files: seq<BackupFile>, cuts: seq<Interruption>, base: RunInput)
    requires SameJobs(cuts, base) && cuts != [] && files == base.walk.files
    ensures Resume.CutsOk(files, CutsOf(cuts)) && Resume.CutsOk(files, CutsOf(cuts[..|cuts| - 1]))
    ensures var n := |cuts| - 1;
            var found := Resume.Kept(Resume.LogAfter(c, files, CutsOf(cuts[..n])), cuts[n].kept);
            && |cuts[n].run.env.files| == |files|
            && Resume.LogAfter(c, files, CutsOf(cuts))
               == found + Resume.Appended(Resume.With(c, files, found), files, cuts[n].run.env.files)
  {
    var n := |cuts| - 1;
    CutsFit(cuts, base);
    CutsFit(cuts[..n], base);
    assert SameJob(cuts[n].run, base);
    assert CutsOf(cuts)[..n] == CutsOf(cuts[..n]);
  }

  lemma {:induction false} FirstInterruption(w: World, cuts: seq<Interruption>, base: RunInput, hash: Hash)
    returns (log: seq<Logged>)
    requires SameJobs(cuts, base) && |cuts| == 1 && base.walk.files != [] && JournalAt(w, base.name).None?
    requires AllInterrupted(w, cuts, base, hash)
    ensures Holding(w, cuts, base, hash, log)
  {
    var r := cuts[0].run;
    var c := FirstCtx(base, r.freshId, hash);
    assert cuts[..0] == [] && SameJob(r, base) && Lose(w, base.name, cuts[0].kept, hash) == w;
    FreshCtx(w, r, base, hash);
    assert Entries([]) == [];
    log := KeepsLines(w, r, c, [], hash);
    LogSnoc(c, base.walk.files, cuts, base);
    assert CutsOf([]) == [] && Resume.Kept([], cuts[0].kept) == [];
  }

  lemma {:induction false} JournalAfter(w: World, cuts: seq<Interruption>, base: RunInput, hash: Hash)
    returns (log: seq<Logged>)
    requires SameJobs(cuts, base) && cuts != [] && base.walk.files != [] && JournalAt(w, base.name).None?
    requires AllInterrupted(w, cuts, base, hash)
    ensures Holding(w, cuts, base, hash, log)
  {
    if |cuts| == 1 {
      log := FirstInterruption(w, cuts, base, hash);
    } else {
      var n := |cuts| - 1;
      var before := JournalAfter(w, cuts[..n], base, hash);
      log := NextInterruption(w, cuts, base, hash, before);
    }
  }

  lemma {:induction false} NextInterruption(w: World, cuts: seq<Interruption>, base: RunInput, hash: Hash,
                                            before: seq<Logged>) returns (log: seq<Logged>)
    requires SameJobs(cuts, base) && |cuts| > 1 && base.walk.files != []
    requires AllInterrupted(w, cuts, base, hash) && Holding(w, cuts[..|cuts| - 1], base, hash, before)
    ensures Holding(w, cuts, base, hash, log)
  {
    var n := |cuts| - 1;
    var r, id := cuts[n].run, cuts[0].run.freshId;
    var c := FirstCtx(base, id, hash);
    assert cuts[..n][0] == cuts[0] && SameJob(r, base);
    var found := if cuts[n].kept <= |before| then before[..cuts[n].kept] else before;
    var mid := Lose(WorldAfter(w, cuts[..n], base, hash), base.name, cuts[n].kept, hash);
    assert JournalAt(mid, base.name) == Some(Image(id, cuts[0].run.now, base.walk.identity, found));
    EntriesKept(before, cuts[n].kept);
    ContinuedCtx(mid, r, base, id, cuts[0].run.now, found, hash);
    log := KeepsLines(mid, r, c, Entries(found), hash);
    LogSnoc(c, base.walk.files, cuts, base);
  }

  predicate Finishes(r: RunInput) {
    Resume.Clear(r.env.files) && !r.env.cancelledAtEnd && r.env.manifest.ManifestUploaded?
  }

  /** After any interrupted runs and losses of journal lines, the run that finishes publishes what one
      undisturbed run from the start would have published. */
  lemma {:induction false} ResumeInHistory(w: World, cuts: seq<Interruption>, kept: nat, last: RunInput,
                                           whole: RunInput,
                                           hash: Hash)
    requires SameJobs(cuts, last) && cuts != [] && last.walk.files != [] && JournalAt(w, last.name).None?
    requires AllInterrupted(w, cuts, last, hash) && last.now - cuts[0].run.now <= MAX_AGE
    requires SameJob(last, last) && SameJob(whole, last) && whole.freshId == cuts[0].run.freshId
    requires Finishes(last) && Finishes(whole) && last.env.timestamp == whole.env.timestamp
    requires Resume.DistinctKeys(last.walk.files)
    ensures var found := Lose(WorldAfter(w, cuts, last, hash), last.name, kept, hash);
            RunOf(found, last, hash).published == RunOf(w, whole, hash).published
  {
    var id, files := cuts[0].run.freshId, last.walk.files;
    var c := FirstCtx(last, id, hash);
    var log := JournalAfter(w, cuts, last, hash);
    var found := Lose(WorldAfter(w, cuts, last, hash), last.name, kept, hash);
    var left := if kept <= |log| then log[..kept] else log;
    assert JournalAt(found, last.name) == Some(Image(id, cuts[0].run.now, last.walk.identity, left));
    EntriesKept(log, kept);
    ContinuedCtx(found, last, last, id, cuts[0].run.now, left, hash);
    FreshCtx(w, whole, last, hash);
    Resume.ResumeEquivalence(c, StoreOpened(w, whole), StoreOpened(found, last), files, last.prev, CutsOf(cuts), kept,
                             last.env, whole.env);
  }
}
