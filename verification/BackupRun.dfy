/** A backup run from opening the journal to publishing, on the real store and journal file: it is the
    backup step of the multi-run protocol. */
module BackupRun {
  import opened Domain
  import opened Engine
  import opened Checkpoint
  import opened Storage
  import opened SnapshotRun
  import opened RunJournal
  import Journal
  import Keys
  import History

  /** What a journal file's text stands for in the protocol. */
  ghost predicate StandsFor(c: Journal.Codec, text: Option<string>, j: Option<History.JournalFile>) {
    if text.None? then j.None?
    else
      match Journal.Read(c, text.value)
      case Rejected => j == Some(History.Damaged)
      case Loaded(h, entries) =>
        && j.Some? && j.value.Image?
        && j.value.id == h.snapshotID && j.value.createdAt == h.createdAt && j.value.identity == h.identity
        && History.Entries(j.value.log) == entries
  }

  /** If the text can be read at all, it withstands the loss of any tail. */
  ghost predicate Sturdy(c: Journal.Codec, text: Option<string>) {
    text.Some? && Journal.Read(c, text.value).Loaded? ==>
      var r := Journal.Read(c, text.value); Journal.CrashSafe(c, text.value, r.header, r.entries)
  }

  /** The text, and whatever is left of it after losing any tail, is rejected or holds a prefix of the
      lines of the protocol's journal. */
  ghost predicate Backs(c: Journal.Codec, text: Option<string>, j: Option<History.JournalFile>) {
    if text.None? then j.None?
    else
      j.Some? &&
      match j.value
      case Damaged => NeverReadable(c, text.value)
      case Image(id, createdAt, identity, log) =>
        Journal.CrashSafe(c, text.value, Journal.Header(id, createdAt, identity), History.Entries(log))
  }

  ghost predicate NeverReadable(c: Journal.Codec, text: string) {
    forall n :: 0 <= n <= |text| ==> Journal.Read(c, text[..n]).Rejected?
  }

  /** Opening depends on the header only; the lines come along with a continued journal. */
  lemma {:induction false} SameOpening(c: Journal.Codec, text: Option<string>, j: Option<History.JournalFile>,
                                       identity: string, now: int, env: History.OpenEnv)
    requires StandsFor(c, text, j)
    ensures var a, b := History.Open(View(c, text), identity, now, env), History.Open(j, identity, now, env);
            && (a.NoJournal? <==> b.NoJournal?)
            && (a.Fresh? <==> b.Fresh?) && (a.Fresh? ==> a == b)
            && (b.Continued? ==> j == Some(b.image) && b.image.Image? && text.Some? && a.image.id == b.image.id
                                 && History.Entries(b.image.log) == Journal.Read(c, text.value).entries)
  {
  }

  /** The context a run starts with is the protocol's. */
  lemma {:induction false} SameContext(w: History.World, r: History.RunInput, hash: Hash, id: string,
                                       recorded: Option<map<string, SnapshotFile>>)
    requires var o := History.OpenedBy(w, r);
             match o
             case NoJournal => recorded.None? && id == r.freshId
             case Fresh(_) => recorded == Some(map[]) && id == r.freshId
             case Continued(image) =>
               image.Image? && recorded == Some(LastWins(History.Entries(image.log))) && id == image.id
    ensures Context(id, recorded, r.walk.files, r.prev, r.walk.disk, r.walk.later, hash) == History.RunCtx(w, r, hash)
  {
    NothingResumed(r.walk.files);
    assert History.Entries([]) == [];
  }

  /** What the store lists as a snapshot is held under its own key: a previous manifest found by listing
      is one the protocol may compare against. */
  lemma {:induction false} ListedIsHeld(store: Store, hash: Hash, used: set<string>, key: string,
                                        unreadable: set<string>, s: Snapshot)
    requires History.StoreOk(store, hash, used) && Fetch(store, key, unreadable) == Some(s)
    ensures WellNamed(store) && History.Holds(store, s)
  {
    forall k | k in store && store[k].Manifest?
      ensures k == Keys.ManifestKey(store[k].snap.id) && Keys.SlashFree(store[k].snap.id)
    {
      assert History.ManifestOk(store, hash, used, k);
    }
  }

  function Held(journal: Option<SnapshotJournal>): Option<map<string, SnapshotFile>>
    reads if journal.Some? then {journal.value} else {}
  {
    if journal.Some? then Some(journal.value.entries) else None
  }

  // ------------------------------------------------ the recorded flags

  /** The same run, with the upload whose line lacks only its newline counted as recorded. */
  function Flipped(r: History.RunInput, flip: Option<nat>): History.RunInput {
    r.(env := r.env.(files := FlippedEnv(r.env.files, flip)))
  }

  function FlippedEnv(env: seq<FileEnv>, flip: Option<nat>): (r: seq<FileEnv>)
    ensures |r| == |env|
  {
    if flip.Some? && flip.value < |env| then env[flip.value := env[flip.value].(recorded := true)] else env
  }

  lemma {:induction false} FlippedWrites(c: Ctx, env: seq<FileEnv>, flip: Option<nat>)
    requires c.journaled
    ensures Writes(c, FlippedEnv(env, flip)) == Flip(Writes(c, env), flip)
  {
  }

  /** Whether a line reached the journal decides nothing within the run. */
  lemma {:induction false} SameOutcomes(c: Ctx, files: seq<BackupFile>, env: seq<FileEnv>, flip: Option<nat>)
    requires |files| == |env|
    ensures Outcomes(c, files, FlippedEnv(env, flip)) == Outcomes(c, files, env)
  {
    var other := FlippedEnv(env, flip);
    forall m | 0 <= m < |files| ensures Classify(c, files[m], other[m]) == Classify(c, files[m], env[m]) {
      assert other[m] == env[m].(recorded := other[m].recorded);
    }
  }

  lemma {:induction false} SameStore(c: Ctx, store: Store, files: seq<BackupFile>, env: seq<FileEnv>,
                                     outs: seq<Outcome>, flip: Option<nat>, n: nat)
    requires n <= |files| == |env| == |outs|
    ensures StoreTo(c, store, files, FlippedEnv(env, flip), outs, n) == StoreTo(c, store, files, env, outs, n)
  {
    if n > 0 {
      SameStore(c, store, files, env, outs, flip, n - 1);
      var other := FlippedEnv(env, flip);
      assert other[n - 1] == env[n - 1].(recorded := other[n - 1].recorded);
    }
  }

  lemma {:induction false} SameFinish(c: Ctx, store: Store, halted: bool, entries: seq<SnapshotFile>,
                                      prev: Option<Snapshot>, env: RunEnv, files: seq<FileEnv>)
    ensures Finish(c, store, halted, entries, prev, env.(files := files))
            == Finish(c, store, halted, entries, prev, env)
  {
  }

  lemma {:induction false} SameRun(w: History.World, r: History.RunInput, hash: Hash, flip: Option<nat>)
    requires |r.walk.files| == |r.env.files|
    ensures History.RunCtx(w, Flipped(r, flip), hash) == History.RunCtx(w, r, hash)
    ensures History.RunOf(w, Flipped(r, flip), hash) == History.RunOf(w, r, hash)
  {
    var c, store, files, n := History.RunCtx(w, r, hash), History.StoreOpened(w, r), r.walk.files, |r.walk.files|;
    var outs := Outcomes(c, files, r.env.files);
    assert History.RunCtx(w, Flipped(r, flip), hash) == c && History.StoreOpened(w, Flipped(r, flip)) == store;
    SameOutcomes(c, files, r.env.files, flip);
    SameStore(c, store, files, r.env.files, outs, flip, n);
    SameFinish(c, StoreTo(c, store, files, r.env.files, outs, n), Halted(outs, n), EntriesTo(outs, n), r.prev, r.env,
               FlippedEnv(r.env.files, flip));
  }

  /** The lines of the protocol's journal after a run. */
  lemma {:induction false} LinesAfter(w: History.World, r: History.RunInput, hash: Hash, flip: Option<nat>)
    requires |r.walk.files| == |r.env.files| && History.RunCtx(w, r, hash).journaled
    ensures var c := History.RunCtx(w, r, hash);
            History.Entries(History.LogAfter(w, Flipped(r, flip), hash))
            == History.Entries(History.RunLog(w, r))
               + LogEntries(Outcomes(c, r.walk.files, r.env.files), Flip(Writes(c, r.env.files), flip), |r.walk.files|)
  {
    var c := History.RunCtx(w, r, hash);
    SameRun(w, r, hash, flip);
    SameOutcomes(c, r.walk.files, r.env.files, flip);
    FlippedWrites(c, r.env.files, flip);
    var log, outs := History.RunLog(w, r), Outcomes(c, r.walk.files, r.env.files);
    var writes := Flip(Writes(c, r.env.files), flip);
    assert History.RunLog(w, Flipped(r, flip)) == log;
    History.NewEntries(outs, writes, |w.walks|, r.walk.files);
    History.EntriesConcat(log, History.NewLines(outs, writes, |w.walks|, r.walk.files));
  }

  // ------------------------------------------------ the run

  /** Open the journal and clean up after one that was discarded as stale. */
  method OpenRun(p: Provider, c: Journal.Codec, file: DiskFile, r: History.RunInput, stray: set<string>,
                 ghost w: History.World, ghost hash: Hash)
    returns (journal: Option<SnapshotJournal>, id: string)
    requires Journal.Lawful(c)
    requires r.freshId != "" && p.objects == w.store && StandsFor(c, file.text, History.JournalAt(w, r.name))
    modifies p, file
    ensures p.objects == History.StoreOpened(w, r)
    ensures Context(id, Held(journal), r.walk.files, r.prev, r.walk.disk, r.walk.later, hash)
            == History.RunCtx(w, r, hash)
    ensures journal.Some? ==>
              && fresh(journal.value) && journal.value.Valid() && journal.value.Legible()
              && journal.value.file == file && journal.value.codec == c
              && journal.value.header == Journal.Header(id, History.CreatedAt(w, r), r.walk.identity)
              && journal.value.session.log == History.Entries(History.RunLog(w, r))
              && (old(Sturdy(c, file.text)) ==> journal.value.CrashProof())
    ensures journal.None? <==> History.OpenedBy(w, r).NoJournal?
    ensures journal.None? ==> file.text == if !r.open.hasDir || r.open.otherwise.Kept? then old(file.text)
                                           else if r.open.otherwise.Gone? then None else Some("")
  {
    SameOpening(c, file.text, History.JournalAt(w, r.name), r.walk.identity, r.now, r.open);
    ghost var how := History.OpenedBy(w, r);
    var resumed, stale;
    journal, resumed, stale := OpenSnapshotJournal(c, file, r.walk.identity, r.now, r.freshId, r.open);
    if journal.Some? && stale.Some? { CleanupSnapshotPrefix(p, stale.value, stray, r.staleDeletable); }
    id := if journal.Some? then journal.value.header.snapshotID else r.freshId;
    if how.Fresh? { Journal.StartOk(c, Journal.Header(r.freshId, r.now, r.walk.identity)); }
    assert History.Entries([]) == [];
    SameContext(w, r, hash, id, Held(journal));
  }

  ghost function Replay(w: History.World, steps: seq<History.Step>, hash: Hash): History.World
    requires WellSized(steps)
  {
    if steps == [] then w else History.Next(Replay(w, steps[..|steps| - 1], hash), steps[|steps| - 1], hash)
  }

  /** What a run is in the protocol: the backup step, with at most one flag raised, and possibly the
      corruption of the journal it leaves. */
  ghost predicate IsRun(r: History.RunInput, steps: seq<History.Step>) {
    && 1 <= |steps| <= 2
    && (exists flip :: steps[0] == History.Backup(Flipped(r, flip)))
    && (|steps| == 2 ==> steps[1] == History.Corrupt(r.name))
  }

  ghost predicate WellSized(steps: seq<History.Step>) {
    forall s :: s in steps && s.Backup? ==> |s.run.walk.files| == |s.run.env.files|
  }

  /** A store and a journal file that a run may leave behind, and the steps that lead there. */
  ghost predicate Follows(w: History.World, r: History.RunInput, hash: Hash, c: Journal.Codec, steps: seq<History.Step>,
                          store: Store, text: Option<string>) {
    && IsRun(r, steps) && WellSized(steps)
    && Replay(w, steps, hash).store == store
    && StandsFor(c, text, History.JournalAt(Replay(w, steps, hash), r.name))
  }

  /** The run has ended and kept its journal: its text stands for the protocol's journal, or is damaged. */
  lemma {:induction false} KeptJournal(w: History.World, r: History.RunInput, hash: Hash, c: Journal.Codec,
                                       text: string,
                                       header: Journal.Header, flip: Option<nat>) returns (steps: seq<History.Step>)
    requires |r.walk.files| == |r.env.files| && r.walk.files != [] && !History.OpenedBy(w, r).NoJournal?
    requires History.RunOf(w, r, hash).published.None?
    requires header == Journal.Header(History.RunCtx(w, r, hash).id, History.CreatedAt(w, r), r.walk.identity)
    requires var ctx := History.RunCtx(w, r, hash);
             ReadsAs(c, text, header, History.Entries(History.RunLog(w, r))
               + LogEntries(Outcomes(ctx, r.walk.files, r.env.files), Flip(Writes(ctx, r.env.files), flip),
                            |r.walk.files|))
    ensures Follows(w, r, hash, c, steps, History.RunOf(w, r, hash).store, Some(text))
  {
    var run := Flipped(r, flip);
    SameRun(w, r, hash, flip);
    LinesAfter(w, r, hash, flip);
    var after := History.Next(w, History.Backup(run), hash);
    assert History.JournalAt(after, r.name)
        == Some(History.Image(header.snapshotID, header.createdAt, header.identity, History.LogAfter(w, run, hash)));
    if Journal.Read(c, text).Rejected? {
      steps := [History.Backup(run), History.Corrupt(r.name)];
      TwoSteps(w, steps[0], steps[1], hash);
    } else {
      steps := [History.Backup(run)];
      OneStep(w, steps[0], hash);
    }
  }

  /** The run left its journal file alone. */
  predicate LeavesJournal(w: History.World, r: History.RunInput) {
    r.walk.files == [] || (History.OpenedBy(w, r).NoJournal? && (!r.open.hasDir || r.open.otherwise.Kept?))
  }

  /** After the run, with at most one more line than it was sure of, the journal withstands the loss of
      any tail. */
  ghost predicate Withstands(w: History.World, r: History.RunInput, hash: Hash, c: Journal.Codec, tear: Option<nat>,
                             text: Option<string>)
    requires |r.walk.files| == |r.env.files|
  {
    Backs(c, text, History.JournalAt(History.Next(w, History.Backup(Flipped(r, tear)), hash), r.name))
  }

  /** A journal that was kept still withstands the loss of any tail. */
  lemma {:induction false} KeptBacks(w: History.World, r: History.RunInput, hash: Hash, c: Journal.Codec, text: string,
                                     header: Journal.Header, tear: Option<nat>)
    requires |r.walk.files| == |r.env.files| && r.walk.files != [] && !History.OpenedBy(w, r).NoJournal?
    requires History.RunOf(w, r, hash).published.None?
    requires header == Journal.Header(History.RunCtx(w, r, hash).id, History.CreatedAt(w, r), r.walk.identity)
    requires var ctx := History.RunCtx(w, r, hash);
             Journal.CrashSafe(c, text, header, History.Entries(History.RunLog(w, r))
               + LogEntries(Outcomes(ctx, r.walk.files, r.env.files), Flip(Writes(ctx, r.env.files), tear),
                            |r.walk.files|))
    ensures Withstands(w, r, hash, c, tear, Some(text))
  {
    var run := Flipped(r, tear);
    SameRun(w, r, hash, tear);
    LinesAfter(w, r, hash, tear);
    assert History.JournalAt(History.Next(w, History.Backup(run), hash), r.name)
        == Some(History.Image(header.snapshotID, header.createdAt, header.identity, History.LogAfter(w, run, hash)));
  }

  /** The end of a run that kept its journal. */
  lemma {:induction false} KeptEnd(w: History.World, r: History.RunInput, hash: Hash, c: Journal.Codec, text: string,
                                   header: Journal.Header, trace: Trace, sturdy: bool)
    returns (steps: seq<History.Step>)
    requires |r.walk.files| == |r.env.files| && r.walk.files != [] && !History.OpenedBy(w, r).NoJournal?
    requires History.RunOf(w, r, hash).published.None?
    requires header == Journal.Header(History.RunCtx(w, r, hash).id, History.CreatedAt(w, r), r.walk.identity)
    requires LeftInFile(History.RunCtx(w, r, hash), r.walk.files, r.env.files, c, header,
                        History.Entries(History.RunLog(w, r)), text, trace, sturdy)
    ensures Follows(w, r, hash, c, steps, History.RunOf(w, r, hash).store, Some(text))
    ensures sturdy ==> Withstands(w, r, hash, c, trace.tear, Some(text))
  {
    steps := KeptJournal(w, r, hash, c, text, header, trace.flip);
    if sturdy { KeptBacks(w, r, hash, c, text, header, trace.tear); }
  }

  /** An emptied or removed journal has nothing to lose. */
  lemma {:induction false} NoneBacks(w: History.World, r: History.RunInput, hash: Hash, c: Journal.Codec,
                                     text: Option<string>)
    requires |r.walk.files| == |r.env.files| && r.walk.files != [] && !LeavesJournal(w, r)
    requires if History.OpenedBy(w, r).NoJournal? then text == if r.open.otherwise.Gone? then None else Some("")
             else History.RunOf(w, r, hash).published.Some? && text == if r.removesJournal then None else Some("")
    ensures Withstands(w, r, hash, c, None, text)
  {
    assert Flipped(r, None) == r;
    Journal.PoisonedIsRejected(c);
    forall n | 0 <= n <= |""| ensures Journal.Read(c, ""[..n]).Rejected? { assert ""[..n] == ""; }
  }

  lemma {:induction false} OneStep(w: History.World, s: History.Step, hash: Hash)
    requires s.Backup? ==> |s.run.walk.files| == |s.run.env.files|
    ensures Replay(w, [s], hash) == History.Next(w, s, hash)
  {
    assert [s][..0] == [];
  }

  lemma {:induction false} TwoSteps(w: History.World, s: History.Step, t: History.Step, hash: Hash)
    requires s.Backup? ==> |s.run.walk.files| == |s.run.env.files|
    requires t.Backup? ==> |t.run.walk.files| == |t.run.env.files|
    ensures Replay(w, [s, t], hash) == History.Next(History.Next(w, s, hash), t, hash)
  {
    assert [s, t][..1] == [s];
    OneStep(w, s, hash);
  }

  /** The other ends of a run: no journal, or one completed. */
  lemma {:induction false} NoJournalLeft(w: History.World, r: History.RunInput, hash: Hash, c: Journal.Codec,
                                         text: Option<string>, was: Option<string>) returns (steps: seq<History.Step>)
    requires |r.walk.files| == |r.env.files| && r.walk.files != [] && StandsFor(c, was, History.JournalAt(w, r.name))
    requires if History.OpenedBy(w, r).NoJournal?
             then text == if !r.open.hasDir || r.open.otherwise.Kept? then was
                          else if r.open.otherwise.Gone? then None else Some("")
             else History.RunOf(w, r, hash).published.Some? && text == if r.removesJournal then None else Some("")
    ensures Follows(w, r, hash, c, steps, History.RunOf(w, r, hash).store, text)
  {
    steps := [History.Backup(r)];
    assert Flipped(r, None) == r;
    OneStep(w, steps[0], hash);
    Journal.PoisonedIsRejected(c);
  }

  lemma {:induction false} EmptyRun(w: History.World, r: History.RunInput, hash: Hash, c: Journal.Codec,
                                    text: Option<string>)
    requires r.walk.files == [] && |r.walk.files| == |r.env.files| && StandsFor(c, text, History.JournalAt(w, r.name))
    ensures Follows(w, r, hash, c, [History.Backup(r)], w.store, text)
  {
    assert Flipped(r, None) == r;
    OneStep(w, History.Backup(r), hash);
  }

  /** A run that has found files. */
  method RunWalked(p: Provider, c: Journal.Codec, file: DiskFile, r: History.RunInput, hash: Hash, torn: nat,
                   stray: set<string>, ghost w: History.World)
    returns (snap: Option<Snapshot>, stopped: bool, ghost steps: seq<History.Step>, ghost tear: Option<nat>)
    requires Journal.Lawful(c) && r.walk.files != []
    requires r.freshId != "" && |r.walk.files| == |r.env.files| && Sticky(r.env.files)
    requires p.objects == w.store && StandsFor(c, file.text, History.JournalAt(w, r.name))
    modifies p, file
    ensures RunResult(p.objects, snap, stopped) == History.RunOf(w, r, hash)
    ensures Follows(w, r, hash, c, steps, p.objects, file.text)
    ensures LeavesJournal(w, r) ==> file.text == old(file.text)
    ensures old(Sturdy(c, file.text)) && !LeavesJournal(w, r) ==> Withstands(w, r, hash, c, tear, file.text)
  {
    ghost var was := file.text;
    var journal, id := OpenRun(p, c, file, r, stray, w, hash);
    ghost var proof := journal.Some? && journal.value.CrashProof();
    var tally;
    ghost var trace;
    snap, stopped, tally, trace := CreateSnapshot(p, id, r.walk.files, r.prev, r.walk.disk, r.walk.later, hash, journal,
                                                  r.env, torn, r.removesJournal, stray);
    if journal.Some? && snap.None? {
      tear := trace.tear;
      steps := KeptEnd(w, r, hash, c, file.text.value, journal.value.header, trace, proof);
    } else {
      tear := None;
      steps := NoJournalLeft(w, r, hash, c, file.text, was);
      if !LeavesJournal(w, r) { NoneBacks(w, r, hash, c, file.text); }
    }
  }

  /** One run: its effect on the store, what it publishes and what it leaves in the journal file are the
      protocol's. */
  method RunBackup(p: Provider, c: Journal.Codec, file: DiskFile, r: History.RunInput, hash: Hash, torn: nat,
                   stray: set<string>, ghost w: History.World)
    returns (snap: Option<Snapshot>, stopped: bool, ghost steps: seq<History.Step>, ghost tear: Option<nat>)
    requires Journal.Lawful(c)
    requires r.freshId != "" && |r.walk.files| == |r.env.files| && Sticky(r.env.files)
    requires p.objects == w.store && StandsFor(c, file.text, History.JournalAt(w, r.name))
    modifies p, file
    ensures r.walk.files == [] ==> p.objects == old(p.objects) && file.text == old(file.text)
    ensures r.walk.files != [] ==> RunResult(p.objects, snap, stopped) == History.RunOf(w, r, hash)
    ensures Follows(w, r, hash, c, steps, p.objects, file.text)
    ensures LeavesJournal(w, r) ==> file.text == old(file.text)
    ensures old(Sturdy(c, file.text)) && !LeavesJournal(w, r) ==> Withstands(w, r, hash, c, tear, file.text)
  {
    if r.walk.files == [] {
      EmptyRun(w, r, hash, c, file.text);
      return None, false, [History.Backup(r)], None;
    }
    snap, stopped, steps, tear := RunWalked(p, c, file, r, hash, torn, stray, w);
  }

  // ------------------------------------------------ any number of runs

  /** One run and what surrounds it: how much of a failing write reaches the journal, the listed objects
      outside the model, and the manifests that cannot be read. */
  datatype Turn = Turn(run: History.RunInput, torn: nat, stray: set<string>, unreadable: set<string>)

  /** The walks of the runs that found files, after those of the past. */
  function Walked(past: seq<History.Walk>, turns: seq<Turn>): seq<History.Walk> {
    if turns == [] then past
    else
      var n := |turns| - 1;
      Walked(past, turns[..n]) + if turns[n].run.walk.files == [] then [] else [turns[n].run.walk]
  }

  lemma {:induction false} WalkedPrefix(past: seq<History.Walk>, turns: seq<Turn>, n: nat)
    requires n <= |turns|
    ensures Walked(past, turns[..n]) <= Walked(past, turns)
    decreases |turns| - n
  {
    if n == |turns| {
      assert turns[..n] == turns;
    } else {
      WalkedPrefix(past, turns, n + 1);
      assert turns[..n + 1][..n] == turns[..n];
    }
  }

  lemma {:induction false} CoherentPrefix(walks: seq<History.Walk>, more: seq<History.Walk>)
    requires walks <= more && History.Coherent(more)
    ensures History.Coherent(walks)
  {
    forall i, j, k | 0 <= i <= j <= k < |walks| ensures History.NoReturnAt(walks, i, j, k) {
      assert History.NoReturnAt(more, i, j, k);
    }
  }

  /** A run under a new snapshot ID. */
  predicate NewRun(r: History.RunInput, used: set<string>) {
    && r.freshId != "" && Keys.SlashFree(r.freshId) && r.freshId !in used
    && |r.walk.files| == |r.env.files| && Sticky(r.env.files)
  }

  /** Runs against one journal file, under new snapshot IDs. */
  predicate RunsOk(turns: seq<Turn>, used: set<string>, name: string) {
    && (forall i :: 0 <= i < |turns| ==> turns[i].run.name == name && NewRun(turns[i].run, used))
    && (forall i, k :: 0 <= i < k < |turns| ==> turns[i].run.freshId != turns[k].run.freshId)
  }

  /** A run's steps keep the protocol's invariant. */
  lemma {:induction false} StepsKeepInv(w: History.World, r: History.RunInput, hash: Hash, steps: seq<History.Step>)
    requires History.Inv(w, hash) && IsRun(r, steps) && WellSized(steps)
    requires |r.walk.files| == |r.env.files| && History.StepOk(w, History.Backup(r))
    requires r.walk.files != [] ==> History.Coherent(w.walks + [r.walk])
    ensures var after := Replay(w, steps, hash);
            && History.Inv(after, hash)
            && after.used <= w.used + {r.freshId}
            && after.walks == w.walks + if r.walk.files == [] then [] else [r.walk]
  {
    var flip :| steps[0] == History.Backup(Flipped(r, flip));
    var run := Flipped(r, flip);
    if r.walk.files != [] { History.BackupKeepsInv(w, run, hash); }
    OneStep(w, steps[0], hash);
    var mid := History.Next(w, steps[0], hash);
    if |steps| == 1 {
      assert steps == [steps[0]];
    } else {
      assert steps == [steps[0], steps[1]];
      TwoSteps(w, steps[0], steps[1], hash);
      History.DamageKeepsInv(mid, steps[1], hash);
    }
  }

  /** The run compares with the newest manifest it can list, which is one the store holds. */
  method WithPrevious(p: Provider, turn: Turn, ghost w: History.World, ghost hash: Hash) returns (r: History.RunInput)
    requires History.Inv(w, hash) && NewRun(turn.run, w.used) && p.objects == w.store
    ensures r == turn.run.(prev := r.prev) && History.StepOk(w, History.Backup(r))
  {
    var prev := PreviousManifest(p, turn.stray, turn.unreadable);
    if prev.Some? {
      ghost var key :| Listed(p.objects, key, turn.stray) && Fetch(p.objects, key, turn.unreadable) == prev;
      ListedIsHeld(p.objects, hash, w.used, key, turn.unreadable, prev.value);
    }
    r := turn.run.(prev := prev);
  }

  /** A run, whatever it compares with, is a possible step. */
  method RunNext(p: Provider, c: Journal.Codec, file: DiskFile, turn: Turn, hash: Hash, ghost w: History.World)
    returns (ghost after: History.World)
    requires Journal.Lawful(c) && History.Inv(w, hash) && NewRun(turn.run, w.used)
    requires turn.run.walk.files != [] ==> History.Coherent(w.walks + [turn.run.walk])
    requires p.objects == w.store && StandsFor(c, file.text, History.JournalAt(w, turn.run.name))
    modifies p, file
    ensures History.Inv(after, hash) && after.used <= w.used + {turn.run.freshId}
    ensures after.walks == w.walks + if turn.run.walk.files == [] then [] else [turn.run.walk]
    ensures p.objects == after.store && StandsFor(c, file.text, History.JournalAt(after, turn.run.name))
  {
    var r := WithPrevious(p, turn, w, hash);
    ghost var snap, stopped, steps, tear;
    snap, stopped, steps, tear := RunBackup(p, c, file, r, hash, turn.torn, turn.stray, w);
    StepsKeepInv(w, r, hash, steps);
    after := Replay(w, steps, hash);
  }

  /** Any number of runs, one after the other, on one store and one journal file: however they end and
      whatever reaches the journal, every manifest in the store stays sound. */
  method RunBackups(p: Provider, c: Journal.Codec, file: DiskFile, turns: seq<Turn>, hash: Hash, name: string,
                    ghost w: History.World)
    returns (ghost after: History.World)
    requires Journal.Lawful(c) && History.Inv(w, hash) && RunsOk(turns, w.used, name)
    requires History.Coherent(Walked(w.walks, turns))
    requires p.objects == w.store && StandsFor(c, file.text, History.JournalAt(w, name))
    modifies p, file
    ensures History.Inv(after, hash) && p.objects == after.store
    ensures StandsFor(c, file.text, History.JournalAt(after, name))
    ensures forall key :: key in p.objects && p.objects[key].Manifest? ==> Sound(p.objects, hash, p.objects[key].snap)
  {
    after := w;
    for i := 0 to |turns|
      invariant History.Inv(after, hash) && after.walks == Walked(w.walks, turns[..i])
      invariant forall k :: i <= k < |turns| ==> turns[k].run.freshId !in after.used
      invariant p.objects == after.store && StandsFor(c, file.text, History.JournalAt(after, name))
    {
      WalkedPrefix(w.walks, turns, i + 1);
      assert turns[..i + 1][..i] == turns[..i];
      CoherentPrefix(Walked(w.walks, turns[..i + 1]), Walked(w.walks, turns));
      after := RunNext(p, c, file, turns[i], hash, after);
    }
    assert turns[..|turns|] == turns;
    forall key | key in p.objects && p.objects[key].Manifest? ensures Sound(p.objects, hash, p.objects[key].snap) {
      assert History.ManifestOk(after.store, hash, after.used, key);
    }
  }
}
