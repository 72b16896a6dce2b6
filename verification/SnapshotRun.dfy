/** The snapshot run as the program performs it, on a mutable store and journal. */
module SnapshotRun {
  import opened Domain
  import opened Incremental
  import opened Engine
  import opened Progress
  import opened RunJournal
  import opened Checkpoint
  import opened Storage
  import Journal
  import Keys

  /** Match the journal against the walk before anything is uploaded. */
  method SeedResumed(journal: SnapshotJournal, files: seq<BackupFile>)
    returns (resumed: map<string, SnapshotFile>, resumedBytes: nat)
    requires journal.Valid()
    ensures resumed == ResumedMap(files, journal.entries)
    ensures resumedBytes == ResumedBytes(files, journal.entries)
  {
    resumed, resumedBytes := map[], 0;
    for i := 0 to |files|
      invariant resumed == ResumedMap(files[..i], journal.entries)
      invariant resumedBytes == ResumedBytes(files[..i], journal.entries)
    {
      assert files[..i + 1][..i] == files[..i];
      var found := journal.Lookup(files[i]);
      if found.Some? {
        resumed := resumed[LookupKey(files[i]) := found.value];
        resumedBytes := resumedBytes + found.value.size;
      }
    }
    assert files[..|files|] == files;
  }

  /** Upload one file: a plain failure is tried once more, a cancellation never. */
  method UploadWithRetry(p: Provider, key: string, data: Bytes, env: FileEnv) returns (verdict: Attempt)
    modifies p
    ensures p.objects == Transfer(old(p.objects), key, data, env)
    ensures verdict == Verdict(env)
  {
    p.Upload(key, data, env.first);
    verdict := env.first;
    if verdict.Failed? {
      if env.backoffCancelled {
        verdict := Cancelled(env.first.left);
      } else {
        p.Upload(key, data, env.second);
        verdict := env.second;
      }
    }
  }

  /** A journal whose write failed accepts no later one. */
  predicate Sticky(env: seq<FileEnv>) {
    forall m, k :: 0 <= m < k < |env| && !env[m].recorded ==> !env[k].recorded
  }

  /** Append an uploaded entry to the journal, of which `torn` characters arrive if the write fails. */
  method RecordUpload(journal: SnapshotJournal, e: SnapshotFile, recorded: bool, torn: nat)
    requires journal.Valid() && (recorded ==> !journal.dead)
    modifies journal, journal.file
    ensures journal.Valid() && (recorded ==> !journal.dead)
    ensures journal.entries == if recorded then old(journal.entries)[EntryKey(e) := e] else old(journal.entries)
    ensures journal.session == AfterUpload(journal.codec, old(journal.session), e, recorded, torn)
  {
    var whole := |Journal.Line(journal.codec, e)|;
    var _ := journal.Record(e, if recorded then whole else if torn < whole then torn else 0);
  }

  /** The counters and entries of a run's upload loop. */
  datatype Tally = Tally(entries: seq<SnapshotFile>, size: nat, failures: nat, filesDone: nat, bytesDone: nat)

  /** The snapshot's size, summed as its entries are kept. */
  function SizeTo(outs: seq<Outcome>, n: nat): nat
    requires n <= |outs|
  {
    if n == 0 then 0
    else
      var o := outs[n - 1];
      SizeTo(outs, n - 1) + if Halted(outs, n - 1) || Halts(o) || o.Skipped? then 0 else o.entry.size
  }

  lemma {:induction false} SizeIsSum(outs: seq<Outcome>, n: nat)
    requires n <= |outs| && !Halted(outs, n)
    ensures SizeTo(outs, n) == EntrySizes(EntriesTo(outs, n))
  {
    if n > 0 {
      SizeIsSum(outs, n - 1);
      IterationSize(outs, n);
    }
  }

  /** The tally after the first `n` files. */
  function TallyTo(outs: seq<Outcome>, n: nat, seed: Tally): Tally
    requires n <= |outs|
  {
    Tally(EntriesTo(outs, n), SizeTo(outs, n), FailuresTo(outs, n),
          seed.filesDone + WorkFiles(outs, n), seed.bytesDone + WorkBytes(outs, n))
  }

  /** What a file that did not stop the run adds to the tally. */
  function Advance(t: Tally, o: Outcome): Tally
    requires !Halts(o)
  {
    if o.Skipped? then t.(failures := t.failures + 1)
    else if o.Resumed? then t.(entries := t.entries + [o.entry], size := t.size + o.entry.size)
    else Tally(t.entries + [o.entry], t.size + o.entry.size, t.failures, t.filesDone + 1, t.bytesDone + o.entry.size)
  }

  lemma {:induction false} TallyStep(outs: seq<Outcome>, n: nat, seed: Tally)
    requires n < |outs| && !Halted(outs, n + 1)
    ensures TallyTo(outs, n + 1, seed) == Advance(TallyTo(outs, n, seed), outs[n])
  {
    assert EntriesTo(outs, n + 1) == EntriesTo(outs, n) + Yield(outs[n]);
  }

  /** Once halted, nothing more happens. */
  lemma {:induction false} HaltedStays(c: Ctx, store: Store, files: seq<BackupFile>, env: seq<FileEnv>,
                                       outs: seq<Outcome>,
                                       writes: seq<bool>, n: nat, m: nat)
    requires n <= m <= |files| == |env| == |outs| == |writes| && Halted(outs, n)
    ensures Halted(outs, m)
    ensures StoreTo(c, store, files, env, outs, m) == StoreTo(c, store, files, env, outs, n)
    ensures LogEntries(outs, writes, m) == LogEntries(outs, writes, n)
  {
    if n < m { HaltedStays(c, store, files, env, outs, writes, n, m - 1); }
  }

  /** What one iteration does to the store, by its outcome. */
  lemma {:induction false} StoreStep(c: Ctx, store: Store, files: seq<BackupFile>, env: seq<FileEnv>,
                                     outs: seq<Outcome>, n: nat)
    requires n < |files| == |env| == |outs| && !Halted(outs, n)
    ensures StoreTo(c, store, files, env, outs, n + 1) ==
            var before := StoreTo(c, store, files, env, outs, n);
            if Sends(outs[n]) then Transfer(before, KeyOf(c, files[n]), Content(c, files[n]), env[n]) else before
  {
  }

  /** What one iteration does to the replayed journal, by its outcome. */
  lemma {:induction false} ReplayStep(log: seq<SnapshotFile>, outs: seq<Outcome>, writes: seq<bool>, n: nat)
    requires n < |outs| == |writes| && !Halted(outs, n)
    ensures LastWins(log + LogEntries(outs, writes, n + 1)) ==
            var before := LastWins(log + LogEntries(outs, writes, n));
            if outs[n].Uploaded? && writes[n] then before[EntryKey(outs[n].entry) := outs[n].entry] else before
  {
    var added := LogEntries(outs, writes, n);
    if outs[n].Uploaded? && writes[n] {
      var e := outs[n].entry;
      assert LogEntries(outs, writes, n + 1) == added + [e];
      assert log + (added + [e]) == (log + added) + [e];
      LastWinsSnoc(log + added, e);
    } else {
      assert LogEntries(outs, writes, n + 1) == added;
    }
  }

  /** Deal with one walked file: stop, resume it, reference it, or upload and record it. */
  method HandleFile(p: Provider, c: Ctx, f: BackupFile, env: FileEnv, journal: Option<SnapshotJournal>, torn: nat)
    returns (o: Outcome)
    requires journal.Some? ==> journal.value.Valid() && (env.recorded ==> !journal.value.dead)
    modifies p, if journal.Some? then {journal.value, journal.value.file} else {}
    ensures o == Classify(c, f, env)
    ensures p.objects == if Sends(o) then Transfer(old(p.objects), KeyOf(c, f), Content(c, f), env) else old(p.objects)
    ensures journal.Some? ==>
              && journal.value.Valid() && (env.recorded ==> !journal.value.dead)
              && journal.value.entries == if o.Uploaded? && env.recorded
                                          then old(journal.value.entries)[EntryKey(o.entry) := o.entry]
                                          else old(journal.value.entries)
    ensures journal.Some? ==>
              journal.value.session
              == if o.Uploaded?
                 then AfterUpload(journal.value.codec, old(journal.value.session), o.entry, env.recorded, torn)
                 else old(journal.value.session)
  {
    if env.cancelled { return Stopped; }
    var key := LookupKey(f);
    if key in c.resumed { return Resumed(c.resumed[key]); }
    var decision := DecideFile(f, c.prev, CurrentSum(c, f, env.hashReadable));
    if decision.Reference? { return Referenced(decision.entry); }
    var verdict := UploadWithRetry(p, KeyOf(c, f), Content(c, f), env);
    if verdict.Cancelled? { return StoppedUploading; }
    if verdict.Failed? { return Skipped; }
    var e := UploadEntry(c, f, env.sumReadable);
    if journal.Some? { RecordUpload(journal.value, e, env.recorded, torn); }
    o := Uploaded(e);
  }

  /** The store and the replayed journal after the first `n` files. */
  ghost predicate ReachedBy(c: Ctx, store: Store, log: seq<SnapshotFile>, files: seq<BackupFile>, env: seq<FileEnv>,
                            n: nat,
                            objects: Store, entries: map<string, SnapshotFile>)
    requires n <= |files| == |env|
  {
    var outs := Outcomes(c, files, env);
    && objects == StoreTo(c, store, files, env, outs, n)
    && (c.journaled ==> entries == LastWins(log + LogEntries(outs, Writes(c, env), n)))
  }

  /** Handling file `n` moves store and journal on to position `n + 1`. */
  lemma {:induction false} Reaches(c: Ctx, store: Store, log: seq<SnapshotFile>, files: seq<BackupFile>,
                                   env: seq<FileEnv>, n: nat,
                                   before: Store, was: map<string, SnapshotFile>, after: Store,
                                   now: map<string, SnapshotFile>, o: Outcome)
    requires n < |files| == |env| && !Halted(Outcomes(c, files, env), n)
    requires ReachedBy(c, store, log, files, env, n, before, was)
    requires o == Classify(c, files[n], env[n])
    requires after == if Sends(o) then Transfer(before, KeyOf(c, files[n]), Content(c, files[n]), env[n]) else before
    requires c.journaled ==> now == if o.Uploaded? && env[n].recorded then was[EntryKey(o.entry) := o.entry] else was
    ensures ReachedBy(c, store, log, files, env, n + 1, after, now)
  {
    var outs, writes := Outcomes(c, files, env), Writes(c, env);
    assert outs[n] == o && writes[n] == (c.journaled && env[n].recorded);
    StoreStep(c, store, files, env, outs, n);
    ReplayStep(log, outs, writes, n);
  }

  lemma {:induction false} ReachesEnd(c: Ctx, store: Store, log: seq<SnapshotFile>, files: seq<BackupFile>,
                                      env: seq<FileEnv>, n: nat,
                                      objects: Store, entries: map<string, SnapshotFile>)
    requires n <= |files| == |env| && Halted(Outcomes(c, files, env), n)
    requires ReachedBy(c, store, log, files, env, n, objects, entries)
    ensures Halted(Outcomes(c, files, env), |files|)
    ensures ReachedBy(c, store, log, files, env, |files|, objects, entries)
  {
    HaltedStays(c, store, files, env, Outcomes(c, files, env), Writes(c, env), n, |files|);
  }

  /** The uploads whose journal line broke off: with only its newline missing, and anywhere. */
  datatype Trace = Trace(flip: Option<nat>, tear: Option<nat>)

  /** The journal file after the first `n` files, and, if it was `proof` against losing its tail, that it
      still is. */
  ghost predicate WrittenBy(c: Ctx, files: seq<BackupFile>, env: seq<FileEnv>, codec: Journal.Codec,
                            header: Journal.Header, log: seq<SnapshotFile>, n: nat, s: Journal.Session, trace: Trace,
                            proof: bool)
    requires n <= |files| == |env|
  {
    && TextAt(codec, header, log, Outcomes(c, files, env), Writes(c, env), n, s, trace.flip)
    && (proof ==> Tracks(log, Outcomes(c, files, env), Writes(c, env), n, s, trace.tear) && Journal.SessionOk(codec, s))
  }

  lemma {:induction false} WritesOn(c: Ctx, files: seq<BackupFile>, env: seq<FileEnv>, codec: Journal.Codec,
                                    header: Journal.Header, log: seq<SnapshotFile>, n: nat, s: Journal.Session,
                                    t: Journal.Session, trace: Trace, proof: bool, torn: nat, o: Outcome)
    returns (next: Trace)
    requires n < |files| == |env| && !Halted(Outcomes(c, files, env), n) && c.journaled && Sticky(env)
    requires Journal.Lawful(codec) && WrittenBy(c, files, env, codec, header, log, n, s, trace, proof)
    requires o == Classify(c, files[n], env[n])
    requires t == if o.Uploaded? then AfterUpload(codec, s, o.entry, env[n].recorded, torn) else s
    ensures WrittenBy(c, files, env, codec, header, log, n + 1, t, next, proof)
  {
    var outs, writes := Outcomes(c, files, env), Writes(c, env);
    assert outs[n] == o && writes[n] == env[n].recorded;
    var flip := TextStep(codec, header, log, outs, writes, n, s, t, trace.flip, torn);
    next := Trace(flip, None);
    if proof {
      var tear := TrackStep(codec, log, outs, writes, n, s, t, trace.tear, torn);
      next := Trace(flip, tear);
    }
  }

  lemma {:induction false} WritesEnd(c: Ctx, files: seq<BackupFile>, env: seq<FileEnv>, codec: Journal.Codec,
                                     header: Journal.Header, log: seq<SnapshotFile>, n: nat, s: Journal.Session,
                                     trace: Trace, proof: bool)
    requires n <= |files| == |env| && Halted(Outcomes(c, files, env), n)
    requires WrittenBy(c, files, env, codec, header, log, n, s, trace, proof)
    ensures WrittenBy(c, files, env, codec, header, log, |files|, s, trace, proof)
  {
    TextEnds(codec, header, log, Outcomes(c, files, env), Writes(c, env), n, s, trace.flip);
    if proof { TrackEnds(log, Outcomes(c, files, env), Writes(c, env), n, s, trace.tear); }
  }

  lemma {:induction false} WritesStart(c: Ctx, files: seq<BackupFile>, env: seq<FileEnv>, codec: Journal.Codec,
                                       header: Journal.Header, s: Journal.Session, proof: bool)
    requires |files| == |env| && !s.dead && s.header == header && Journal.Settled(codec, s.text, header, s.log)
    requires proof ==> Journal.CrashSafe(codec, s.text, header, s.log)
    ensures WrittenBy(c, files, env, codec, header, s.log, 0, s, Trace(None, None), proof)
  {
    assert s.log + [] == s.log;
  }

  /** What the file reads as in the end. */
  lemma {:induction false} WritesFinal(c: Ctx, files: seq<BackupFile>, env: seq<FileEnv>, codec: Journal.Codec,
                                       header: Journal.Header, log: seq<SnapshotFile>, s: Journal.Session, trace: Trace,
                                       proof: bool)
    requires |files| == |env| && WrittenBy(c, files, env, codec, header, log, |files|, s, trace, proof)
    ensures LeftInFile(c, files, env, codec, header, log, s.text, trace, proof)
  {
    TextFinal(codec, header, log, Outcomes(c, files, env), Writes(c, env), s, trace.flip);
    if proof { TrackFinal(codec, log, Outcomes(c, files, env), Writes(c, env), s, trace.tear); }
  }

  /** The text of the journal file after a run that found `log` in it. */
  ghost predicate LeftInFile(c: Ctx, files: seq<BackupFile>, env: seq<FileEnv>, codec: Journal.Codec,
                             header: Journal.Header, log: seq<SnapshotFile>, text: string, trace: Trace, proof: bool)
    requires |files| == |env|
  {
    var outs, writes := Outcomes(c, files, env), Writes(c, env);
    && ReadsAs(codec, text, header, log + LogEntries(outs, Flip(writes, trace.flip), |files|))
    && (proof ==> Journal.CrashSafe(codec, text, header, log + LogEntries(outs, Flip(writes, trace.tear), |files|)))
  }

  /** The entries the journal currently holds. */
  function Recorded(journal: Option<SnapshotJournal>): map<string, SnapshotFile>
    reads if journal.Some? then {journal.value} else {}
  {
    if journal.Some? then journal.value.entries else map[]
  }

  /** The upload loop over the walked files, up to the one that stops the run. */
  method UploadLoop(p: Provider, c: Ctx, files: seq<BackupFile>, env: seq<FileEnv>, journal: Option<SnapshotJournal>,
                    torn: nat, seed: Tally)
    returns (tally: Tally, stopped: bool, ghost trace: Trace)
    requires |files| == |env| && Sticky(env) && c.journaled == journal.Some?
    requires journal.Some? ==> journal.value.Valid() && !journal.value.dead
    requires seed.entries == [] && seed.size == 0 && seed.failures == 0
    modifies p, if journal.Some? then {journal.value, journal.value.file} else {}
    ensures var log := if journal.Some? then old(journal.value.session.log) else [];
            ReachedBy(c, old(p.objects), log, files, env, |files|, p.objects, Recorded(journal))
    ensures stopped == Halted(Outcomes(c, files, env), |files|)
    ensures !stopped ==> tally == TallyTo(Outcomes(c, files, env), |files|, seed)
    ensures journal.Some? ==> journal.value.Valid()
    ensures journal.Some? && old(journal.value.Legible()) ==>
              WrittenBy(c, files, env, journal.value.codec, journal.value.header, old(journal.value.session.log),
                        |files|, journal.value.session, trace, old(journal.value.CrashProof()))
  {
    ghost var outs, store := Outcomes(c, files, env), p.objects;
    ghost var log := if journal.Some? then journal.value.session.log else [];
    ghost var legible := journal.Some? && journal.value.Legible();
    ghost var proof := journal.Some? && journal.value.CrashProof();
    tally, stopped, trace := seed, false, Trace(None, None);
    assert log + [] == log;
    if legible { WritesStart(c, files, env, journal.value.codec, journal.value.header, journal.value.session, proof); }
    for i := 0 to |files|
      invariant !Halted(outs, i) && tally == TallyTo(outs, i, seed)
      invariant ReachedBy(c, store, log, files, env, i, p.objects, Recorded(journal))
      invariant journal.Some? ==> journal.value.Valid() && (journal.value.dead ==> i > 0 && !env[i - 1].recorded)
      invariant legible ==> WrittenBy(c, files, env, journal.value.codec, journal.value.header, log, i,
                                      journal.value.session, trace, proof)
    {
      ghost var objects, entries := p.objects, Recorded(journal);
      ghost var session := if legible then Some(journal.value.session) else None;
      var o := HandleFile(p, c, files[i], env[i], journal, torn);
      Reaches(c, store, log, files, env, i, objects, entries, p.objects, Recorded(journal), o);
      assert o == outs[i];
      if legible {
        trace := WritesOn(c, files, env, journal.value.codec, journal.value.header, log, i, session.value,
                          journal.value.session, trace, proof, torn, o);
      }
      if Halts(o) {
        ReachesEnd(c, store, log, files, env, i + 1, p.objects, Recorded(journal));
        if legible {
          WritesEnd(c, files, env, journal.value.codec, journal.value.header, log, i + 1, journal.value.session, trace,
                    proof);
        }
        stopped := true;
        return;
      }
      TallyStep(outs, i, seed);
      tally := Advance(tally, o);
    }
  }

  /** A stopped run: without a journal nothing can resume it, so its remote prefix is cleaned up. */
  method AbortStopped(p: Provider, c: Ctx, stray: set<string>, deletable: set<string>)
    modifies p
    ensures p.objects == Abort(c, old(p.objects), deletable).store
  {
    if !c.journaled { CleanupSnapshotPrefix(p, c.id, stray, deletable); }
  }

  /** Publish what the loop kept: nothing for an empty snapshot, the manifest last otherwise. */
  method PublishSnapshot(p: Provider, c: Ctx, halted: bool, tally: Tally, prev: Option<Snapshot>, env: RunEnv,
                         stray: set<string>)
    returns (snap: Option<Snapshot>, stopped: bool)
    requires !halted ==> tally.size == EntrySizes(tally.entries)
    modifies p
    ensures RunResult(p.objects, snap, stopped) == Finish(c, old(p.objects), halted, tally.entries, prev, env)
  {
    snap, stopped := None, false;
    if !halted && tally.entries == [] { return; }
    if halted || env.cancelledAtEnd || env.manifest.ManifestCancelled? {
      AbortStopped(p, c, stray, env.deletable);
      return None, true;
    }
    if env.manifest.ManifestFailed? { return; }
    var s := Snapshot(c.id, env.timestamp, tally.entries, tally.size,
                      if prev.Some? then 2 else 0, if prev.Some? then prev.value.id else "");
    p.Put(Keys.ManifestKey(c.id), Manifest(s));
    snap := Some(s);
  }

  /** The fixed inputs of a run that starts with this journal. */
  function Context(id: string, recorded: Option<map<string, SnapshotFile>>, files: seq<BackupFile>,
                   prev: Option<Snapshot>,
                   disk: Disk, later: Disk, hash: Hash): Ctx {
    var resumed := if recorded.Some? then ResumedMap(files, recorded.value) else map[];
    Ctx(id, recorded.Some?, resumed, PreviousIndex(prev), disk, later, hash)
  }

  /** Seed the run with what the journal recorded, and upload the walked files. */
  method UploadFiles(p: Provider, id: string, files: seq<BackupFile>, prev: Option<Snapshot>, disk: Disk, later: Disk,
                     hash: Hash, journal: Option<SnapshotJournal>, env: seq<FileEnv>, torn: nat)
    returns (c: Ctx, tally: Tally, halted: bool, ghost trace: Trace)
    requires |files| == |env| && Sticky(env)
    requires journal.Some? ==> journal.value.Valid() && !journal.value.dead
    modifies p, if journal.Some? then {journal.value, journal.value.file} else {}
    ensures var held := if journal.Some? then Some(old(journal.value.entries)) else None;
            c == Context(id, held, files, prev, disk, later, hash)
    ensures halted == Halted(Outcomes(c, files, env), |files|)
    ensures !halted ==>
              && tally.entries == EntriesTo(Outcomes(c, files, env), |files|)
              && tally.size == EntrySizes(tally.entries)
              && (journal.Some? ==>
                    && tally.filesDone
                       == FilesDone(files, old(journal.value.entries), Outcomes(c, files, env), |files| + 1)
                    && tally.bytesDone
                       == BytesDone(files, old(journal.value.entries), Outcomes(c, files, env), |files| + 1))
    ensures ReachedBy(c, old(p.objects), if journal.Some? then old(journal.value.session.log) else [], files, env,
                      |files|, p.objects, Recorded(journal))
    ensures journal.Some? ==> journal.value.Valid()
    ensures journal.Some? && old(journal.value.Legible()) ==>
              LeftInFile(c, files, env, journal.value.codec, journal.value.header, old(journal.value.session.log),
                         journal.value.session.text, trace, old(journal.value.CrashProof()))
  {
    var index := BuildPreviousIndex(prev);
    var resumed, resumedBytes := map[], 0;
    if journal.Some? { resumed, resumedBytes := SeedResumed(journal.value, files); }
    c := Ctx(id, journal.Some?, resumed, index, disk, later, hash);
    ghost var log := if journal.Some? then journal.value.session.log else [];
    ghost var legible := journal.Some? && journal.value.Legible();
    ghost var proof := journal.Some? && journal.value.CrashProof();
    tally, halted, trace := UploadLoop(p, c, files, env, journal, torn, Tally([], 0, 0, |resumed|, resumedBytes));
    if !halted { SizeIsSum(Outcomes(c, files, env), |files|); }
    if legible {
      WritesFinal(c, files, env, journal.value.codec, journal.value.header, log, journal.value.session, trace, proof);
    }
  }

  /** Create one snapshot: the store, the published manifest and the journal end as `Run` says. */
  method CreateSnapshot(p: Provider, id: string, files: seq<BackupFile>, prev: Option<Snapshot>, disk: Disk,
                        later: Disk, hash: Hash, journal: Option<SnapshotJournal>, env: RunEnv, torn: nat,
                        removes: bool, stray: set<string>)
    returns (snap: Option<Snapshot>, stopped: bool, tally: Tally, ghost trace: Trace)
    requires |files| == |env.files| && Sticky(env.files)
    requires journal.Some? ==> journal.value.Valid() && !journal.value.dead
    modifies p, if journal.Some? then {journal.value, journal.value.file} else {}
    ensures var held := if journal.Some? then Some(old(journal.value.entries)) else None;
            var c := Context(id, held, files, prev, disk, later, hash);
            var outs := Outcomes(c, files, env.files);
            && RunResult(p.objects, snap, stopped) == Run(c, old(p.objects), files, prev, env)
            && (!Halted(outs, |files|) && journal.Some? ==>
                  && tally.filesDone == FilesDone(files, old(journal.value.entries), outs, |files| + 1)
                  && tally.bytesDone == BytesDone(files, old(journal.value.entries), outs, |files| + 1))
            && (journal.Some? && snap.Some? ==> journal.value.file.text == if removes then None else Some(""))
            && (journal.Some? && snap.None? ==>
                  && journal.value.Valid()
                  && journal.value.entries
                     == LastWins(old(journal.value.session.log) + LogEntries(outs, Writes(c, env.files), |files|))
                  && (old(journal.value.Legible()) ==>
                        LeftInFile(c, files, env.files, journal.value.codec, journal.value.header,
                                   old(journal.value.session.log), journal.value.file.text.value, trace,
                                   old(journal.value.CrashProof()))))
  {
    var c, halted;
    c, tally, halted, trace := UploadFiles(p, id, files, prev, disk, later, hash, journal, env.files, torn);
    snap, stopped := PublishSnapshot(p, c, halted, tally, prev, env, stray);
    if snap.Some? && journal.Some? { journal.value.Complete(removes); }
  }
}
