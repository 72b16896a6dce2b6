/** Progress accounting: what the run reports while it uploads, under any interleaving of the upload
    loop with the keepalive that re-reports its counters. */
module Progress {
  import opened Domain
  import opened Engine

  /** Files counted by the loop itself: references and uploads. */
  predicate CountsAt(outs: seq<Outcome>, m: nat)
    requires m < |outs|
  {
    !Halted(outs, m) && (outs[m].Referenced? || outs[m].Uploaded?)
  }

  function WorkFiles(outs: seq<Outcome>, n: nat): nat
    requires n <= |outs|
  {
    if n == 0 then 0 else WorkFiles(outs, n - 1) + if CountsAt(outs, n - 1) then 1 else 0
  }

  function WorkBytes(outs: seq<Outcome>, n: nat): nat
    requires n <= |outs|
  {
    if n == 0 then 0 else WorkBytes(outs, n - 1) + if CountsAt(outs, n - 1) then outs[n - 1].entry.size else 0
  }

  function TotalBytes(files: seq<BackupFile>): nat {
    if files == [] then 0 else TotalBytes(files[..|files| - 1]) + files[|files| - 1].size
  }

  /** The walked files carried over from the journal. */
  function ResumedCount(files: seq<BackupFile>, entries: map<string, SnapshotFile>): nat {
    if files == [] then 0
    else ResumedCount(files[..|files| - 1], entries) + if LookupHits(entries, files[|files| - 1]) then 1 else 0
  }

  /** Counters: position 0 is before the resumed total is seeded, position p + 1 after p files. */
  function FilesDone(files: seq<BackupFile>, entries: map<string, SnapshotFile>, outs: seq<Outcome>, pos: nat): nat
    requires pos <= |outs| + 1
  {
    if pos == 0 then 0 else |ResumedMap(files, entries)| + WorkFiles(outs, pos - 1)
  }

  function BytesDone(files: seq<BackupFile>, entries: map<string, SnapshotFile>, outs: seq<Outcome>, pos: nat): nat
    requires pos <= |outs| + 1
  {
    if pos == 0 then 0 else ResumedBytes(files, entries) + WorkBytes(outs, pos - 1)
  }

  /** The outcomes fit the walked files: exactly those whose journal entry matches are resumed (unless
      the run stops there), and every kept entry has its file's size. */
  predicate Fits(files: seq<BackupFile>, entries: map<string, SnapshotFile>, outs: seq<Outcome>) {
    && |files| == |outs|
    && forall m :: 0 <= m < |files| ==>
         && (LookupHits(entries, files[m]) ==> outs[m].Resumed? || outs[m].Stopped?)
         && (outs[m].Resumed? ==> LookupHits(entries, files[m]))
         && (Yield(outs[m]) != [] ==> outs[m].entry.size == files[m].size)
  }

  lemma {:induction false} EngineFits(c: Ctx, files: seq<BackupFile>, env: seq<FileEnv>, entries: map<string,
                                      SnapshotFile>)
    requires |files| == |env| && OneFilePerKey(files) && c.resumed == ResumedMap(files, entries)
    ensures Fits(files, entries, Outcomes(c, files, env))
  {
    forall m | 0 <= m < |files|
      ensures var o := Outcomes(c, files, env)[m];
              && (LookupHits(entries, files[m]) ==> o.Resumed? || o.Stopped?)
              && (o.Resumed? ==> LookupHits(entries, files[m]))
              && (Yield(o) != [] ==> o.entry.size == files[m].size)
    {
      OutcomeFacts(c, files[m], env[m]);
      ResumedIffHits(files, entries, files[m]);
      ResumedMeaning(files, entries, LookupKey(files[m]));
    }
  }

  /** Two walked files under one key are the same file. */
  predicate OneFilePerKey(files: seq<BackupFile>) {
    forall f, g :: f in files && g in files && LookupKey(f) == LookupKey(g) ==> FileTag(f) == FileTag(g)
  }

  /** The resumed files all lie under different keys. */
  predicate ResumedKeysDistinct(files: seq<BackupFile>, entries: map<string, SnapshotFile>) {
    forall a, b :: 0 <= a < b < |files| && LookupHits(entries, files[a]) && LookupHits(entries, files[b]) ==>
      LookupKey(files[a]) != LookupKey(files[b])
  }

  lemma {:induction false} ResumedMapSize(files: seq<BackupFile>, entries: map<string, SnapshotFile>)
    ensures |ResumedMap(files, entries)| <= ResumedCount(files, entries)
    ensures |ResumedMap(files, entries)| == ResumedCount(files, entries) <==> ResumedKeysDistinct(files, entries)
  {
    if files != [] {
      var n := |files| - 1;
      var before, f := files[..n], files[n];
      ResumedMapSize(before, entries);
      ResumedMeaning(before, entries, LookupKey(f));
      assert forall a :: 0 <= a < n ==> before[a] == files[a];
      if LookupHits(entries, f) {
        var m := ResumedMap(before, entries);
        if LookupKey(f) in m {
          var a :| 0 <= a < n && LookupKey(before[a]) == LookupKey(f) && LookupHits(entries, before[a]);
          assert m[LookupKey(f) := entries[LookupKey(f)]].Keys == m.Keys;
          assert !ResumedKeysDistinct(files, entries);
        } else {
          assert m[LookupKey(f) := entries[LookupKey(f)]].Keys == m.Keys + {LookupKey(f)};
        }
      }
    }
  }

  /** With one file per key, the loop resumes exactly the files whose journal entry matches. */
  lemma {:induction false} ResumedIffHits(files: seq<BackupFile>, entries: map<string, SnapshotFile>, f: BackupFile)
    requires OneFilePerKey(files) && f in files
    ensures LookupKey(f) in ResumedMap(files, entries) <==> LookupHits(entries, f)
  {
    ResumedMeaning(files, entries, LookupKey(f));
  }

  lemma {:induction false} SizesSnoc(entries: seq<SnapshotFile>, e: SnapshotFile)
    ensures EntrySizes(entries + [e]) == EntrySizes(entries) + e.size
  {
    assert (entries + [e])[..|entries|] == entries;
  }

  /** No file the loop has passed is counted twice. */
  lemma {:induction false} CountedOnce(files: seq<BackupFile>, entries: map<string, SnapshotFile>, outs: seq<Outcome>,
                                       n: nat)
    requires Fits(files, entries, outs) && n <= |outs|
    ensures ResumedCount(files[..n], entries) + WorkFiles(outs, n) <= n
    ensures ResumedBytes(files[..n], entries) + WorkBytes(outs, n) <= TotalBytes(files[..n])
  {
    if n > 0 {
      CountedOnce(files, entries, outs, n - 1);
      assert files[..n][..n - 1] == files[..n - 1];
    }
  }

  lemma {:induction false} IterationSize(outs: seq<Outcome>, n: nat)
    requires 0 < n <= |outs| && !Halted(outs, n)
    ensures EntrySizes(EntriesTo(outs, n))
            == EntrySizes(EntriesTo(outs, n - 1)) + if Yield(outs[n - 1]) == [] then 0 else outs[n - 1].entry.size
  {
    var before, o := EntriesTo(outs, n - 1), outs[n - 1];
    if Yield(o) == [] {
      assert EntriesTo(outs, n) == before;
    } else {
      assert EntriesTo(outs, n) == before + [o.entry];
      SizesSnoc(before, o.entry);
    }
  }

  /** A loop that was not halted has counted every file: resumed, worked on, or failed. */
  lemma {:induction false} AccountedFiles(files: seq<BackupFile>, entries: map<string, SnapshotFile>,
                                          outs: seq<Outcome>, n: nat)
    requires Fits(files, entries, outs) && n <= |outs| && !Halted(outs, n)
    ensures ResumedCount(files[..n], entries) + WorkFiles(outs, n) == |EntriesTo(outs, n)|
    ensures |EntriesTo(outs, n)| + FailuresTo(outs, n) == n
  {
    if n > 0 {
      AccountedFiles(files, entries, outs, n - 1);
      assert files[..n][..n - 1] == files[..n - 1];
    }
  }

  lemma {:induction false} AccountedBytes(files: seq<BackupFile>, entries: map<string, SnapshotFile>,
                                          outs: seq<Outcome>, n: nat)
    requires Fits(files, entries, outs) && n <= |outs| && !Halted(outs, n)
    ensures ResumedBytes(files[..n], entries) + WorkBytes(outs, n) == EntrySizes(EntriesTo(outs, n))
  {
    if n > 0 {
      AccountedBytes(files, entries, outs, n - 1);
      assert files[..n][..n - 1] == files[..n - 1];
      IterationSize(outs, n);
    }
  }

  lemma {:induction false} PrefixSums(files: seq<BackupFile>, entries: map<string, SnapshotFile>, n: nat)
    requires n <= |files|
    ensures ResumedCount(files, entries) - ResumedCount(files[..n], entries) <= |files| - n
    ensures ResumedBytes(files, entries) - ResumedBytes(files[..n], entries)
            <= TotalBytes(files) - TotalBytes(files[..n])
    decreases |files| - n
  {
    if n == |files| {
      assert files[..n] == files;
    } else {
      PrefixSums(files, entries, n + 1);
      assert files[..n + 1][..n] == files[..n];
    }
  }

  /** Counters never pass the totals. */
  lemma {:induction false} WithinTotals(files: seq<BackupFile>, entries: map<string, SnapshotFile>, outs: seq<Outcome>,
                                        pos: nat)
    requires Fits(files, entries, outs) && pos <= |outs| + 1
    ensures FilesDone(files, entries, outs, pos) <= |files|
    ensures BytesDone(files, entries, outs, pos) <= TotalBytes(files)
  {
    if pos > 0 {
      CountedOnce(files, entries, outs, pos - 1);
      PrefixSums(files, entries, pos - 1);
      ResumedMapSize(files, entries);
    }
  }

  lemma {:induction false} NeverBack(files: seq<BackupFile>, entries: map<string, SnapshotFile>, outs: seq<Outcome>,
                                     p: nat, q: nat)
    requires p <= q <= |outs| + 1
    ensures FilesDone(files, entries, outs, p) <= FilesDone(files, entries, outs, q)
    ensures BytesDone(files, entries, outs, p) <= BytesDone(files, entries, outs, q)
  {
    if p < q { NeverBack(files, entries, outs, p, q - 1); }
  }

  /** A turn of the upload loop or of the keepalive; either may be throttled and report nothing. */
  datatype Turn = Upload(reports: bool) | Keepalive(reports: bool)

  function PosAfter(turns: seq<Turn>, n: nat): (pos: nat)
    ensures pos <= n + 1
  {
    if turns == [] then 0
    else
      var before := PosAfter(turns[..|turns| - 1], n);
      if turns[|turns| - 1].Upload? && before <= n then before + 1 else before
  }

  /** The positions at which counters were reported, in the order of the reports. */
  function ReportedAt(turns: seq<Turn>, n: nat): (reports: seq<nat>)
    ensures forall i :: 0 <= i < |reports| ==> reports[i] <= PosAfter(turns, n)
    ensures forall i, j :: 0 <= i < j < |reports| ==> reports[i] <= reports[j]
  {
    if turns == [] then []
    else
      var before := ReportedAt(turns[..|turns| - 1], n);
      if turns[|turns| - 1].reports then before + [PosAfter(turns, n)] else before
  }

  /** Under every interleaving, reported counters never decrease and never exceed the totals. */
  lemma {:induction false} ReportsMonotone(c: Ctx, files: seq<BackupFile>, env: seq<FileEnv>, entries: map<string,
                                           SnapshotFile>,
                                           turns: seq<Turn>, i: nat, j: nat)
    requires |files| == |env| && OneFilePerKey(files) && c.resumed == ResumedMap(files, entries)
    requires i <= j < |ReportedAt(turns, |files|)|
    ensures var at, outs := ReportedAt(turns, |files|), Outcomes(c, files, env);
            && FilesDone(files, entries, outs, at[i]) <= FilesDone(files, entries, outs, at[j]) <= |files|
            && BytesDone(files, entries, outs, at[i]) <= BytesDone(files, entries, outs, at[j]) <= TotalBytes(files)
  {
    var at, outs := ReportedAt(turns, |files|), Outcomes(c, files, env);
    EngineFits(c, files, env, entries);
    NeverBack(files, entries, outs, at[i], at[j]);
    WithinTotals(files, entries, outs, at[j]);
  }

  /** Every report shows the counters of the moment: whoever reports next, loop or keepalive, reports what the
      loop has reached, and after the loop's last file its final counters; a throttled turn reports nothing. */
  lemma {:induction false} ReportsAreCurrent(turns: seq<Turn>, next: Turn, n: nat)
    ensures var before, at := ReportedAt(turns, n), ReportedAt(turns + [next], n);
            && (!next.reports ==> at == before)
            && (next.reports ==> at == before + [PosAfter(turns + [next], n)])
            && (next.Keepalive? ==> PosAfter(turns + [next], n) == PosAfter(turns, n))
            && (next.Upload? ==>
                  PosAfter(turns + [next], n) == if PosAfter(turns, n) <= n then PosAfter(turns, n) + 1 else n + 1)
  {
    assert (turns + [next])[..|turns|] == turns;
  }

  function Uploads(turns: seq<Turn>): nat {
    if turns == [] then 0 else Uploads(turns[..|turns| - 1]) + if turns[|turns| - 1].Upload? then 1 else 0
  }

  /** The loop's position is the number of its turns, up to the end of the walk: the keepalive never moves it. */
  lemma {:induction false} PositionIsUploads(turns: seq<Turn>, n: nat)
    ensures PosAfter(turns, n) == if Uploads(turns) <= n + 1 then Uploads(turns) else n + 1
  {
    if turns != [] { PositionIsUploads(turns[..|turns| - 1], n); }
  }

  /** When the loop completes, bytes done are the snapshot's size, entries and failures add up to the
      walk, and files done are the manifest's entries exactly when no two resumed files share a key. */
  lemma {:induction false} FinalCounts(c: Ctx, files: seq<BackupFile>, env: seq<FileEnv>, entries: map<string,
                                       SnapshotFile>)
    requires |files| == |env| && OneFilePerKey(files) && c.resumed == ResumedMap(files, entries)
    requires !Halted(Outcomes(c, files, env), |files|)
    ensures var outs := Outcomes(c, files, env);
            var manifest := EntriesTo(outs, |files|);
            && BytesDone(files, entries, outs, |files| + 1) == EntrySizes(manifest)
            && |manifest| + FailuresTo(outs, |files|) == |files|
            && (FilesDone(files, entries, outs, |files| + 1) == |manifest| <==> ResumedKeysDistinct(files, entries))
  {
    EngineFits(c, files, env, entries);
    assert files[..|files|] == files;
    AccountedFiles(files, entries, Outcomes(c, files, env), |files|);
    AccountedBytes(files, entries, Outcomes(c, files, env), |files|);
    ResumedMapSize(files, entries);
  }

  // ------------------------------------------------ overlapping roots

  /** One file, found below "/v" and again below "/v/d". */
  function FoundTwice(): seq<BackupFile> {
    [BackupFile("/v/d/a", "path_0/d/a", 1, 0, 420, "", false), BackupFile("/v/d/a", "path_1/a", 1, 0, 420, "", false)]
  }

  /** Overlapping roots make the count fall short: resumed from its journal entry, the file is two manifest
      entries but counts once. */
  lemma {:induction false} OverlapUndercounts(c: Ctx, e: SnapshotFile, env: seq<FileEnv>)
    requires e.sourcePath == "/v/d/a" && e.originalPath == "" && e.size == 1 && e.modTime == 0
    requires c.resumed == ResumedMap(FoundTwice(), LastWins([e])) && |env| == 2 && !env[0].cancelled
    requires !env[1].cancelled
    ensures var outs := Outcomes(c, FoundTwice(), env);
            && !Halted(outs, 2) && EntriesTo(outs, 2) == [e, e]
            && FilesDone(FoundTwice(), LastWins([e]), outs, 3) == 1
  {
    var files, entries, outs := FoundTwice(), LastWins([e]), Outcomes(c, FoundTwice(), env);
    assert [e][..0] == [] && entries == map["/v/d/a" := e];
    assert LookupHits(entries, files[0]) && LookupHits(entries, files[1]);
    ResumedTwice(files, entries, e);
    assert outs[0] == Resumed(e) && outs[1] == Resumed(e);
    TwoResumed(outs, e);
  }

  lemma {:induction false} TwoResumed(outs: seq<Outcome>, e: SnapshotFile)
    requires |outs| == 2 && outs[0] == Resumed(e) && outs[1] == Resumed(e)
    ensures !Halted(outs, 2) && EntriesTo(outs, 2) == [e, e] && WorkFiles(outs, 2) == 0
  {
    assert !Halted(outs, 0) && EntriesTo(outs, 0) == [] && WorkFiles(outs, 0) == 0;
    assert !CountsAt(outs, 0) && EntriesTo(outs, 1) == [] + [e];
    assert !Halted(outs, 1) && WorkFiles(outs, 1) == 0;
    assert !CountsAt(outs, 1) && EntriesTo(outs, 2) == [e] + [e];
  }

  lemma {:induction false} ResumedTwice(files: seq<BackupFile>, entries: map<string, SnapshotFile>, e: SnapshotFile)
    requires |files| == 2 && LookupKey(files[0]) == LookupKey(files[1]) && LookupHits(entries, files[0])
    requires LookupHits(entries, files[1])
    requires entries[LookupKey(files[0])] == e
    ensures ResumedMap(files, entries) == map[LookupKey(files[0]) := e] && |ResumedMap(files, entries)| == 1
  {
    assert files[..1] == [files[0]] && [files[0]][..0] == [];
    assert ResumedMap([], entries) == map[];
    assert ResumedMap([files[0]], entries) == map[LookupKey(files[0]) := e];
  }
}
