/** Runs on one store and one journal file when, before each run, the file may lose any number of its last
    bytes. */
module LossyRuns {
  import opened Domain
  import opened Checkpoint
  import opened Storage
  import opened BackupRun
  import Journal
  import History

  /** What is left of a file that keeps at most so many bytes. */
  function Cut(text: Option<string>, kept: nat): Option<string> {
    if text.Some? && kept < |text.value| then Some(text.value[..kept]) else text
  }

  /** The file loses its tail. */
  method Crash(file: DiskFile, kept: nat)
    modifies file
    ensures file.text == Cut(old(file.text), kept)
  {
    if file.text.Some? && kept < |file.text.value| { file.text := Some(file.text.value[..kept]); }
  }

  lemma {:induction false} CutBacks(c: Journal.Codec, text: Option<string>, j: Option<History.JournalFile>, kept: nat)
    requires Backs(c, text, j)
    ensures Backs(c, Cut(text, kept), j)
  {
    if text.Some? && kept < |text.value| {
      var cut := text.value[..kept];
      forall n | 0 <= n <= |cut| ensures cut[..n] == text.value[..n] {}
      match j.value
      case Damaged =>
      case Image(id, createdAt, identity, log) =>
        var header := Journal.Header(id, createdAt, identity);
        forall n | 0 <= n <= |cut| ensures Journal.CutReads(c, cut[..n], header, History.Entries(log)) {
          assert Journal.CutReads(c, text.value[..n], header, History.Entries(log));
        }
    }
  }

  /** In the protocol the loss is nothing, or the corruption of the journal, or the loss of its last lines. */
  lemma {:induction false} LossIsStep(c: Journal.Codec, text: Option<string>, w: History.World, name: string, kept: nat,
                                      hash: Hash)
    returns (mid: History.World)
    requires Journal.Lawful(c) && History.Inv(w, hash) && Backs(c, text, History.JournalAt(w, name))
    ensures History.Inv(mid, hash) && mid.store == w.store && mid.used == w.used && mid.walks == w.walks
    ensures StandsFor(c, Cut(text, kept), History.JournalAt(mid, name)) && Sturdy(c, Cut(text, kept))
  {
    mid := w;
    if text.Some? {
      var n := if kept < |text.value| then kept else |text.value|;
      var cut := text.value[..n];
      assert text.value[..|text.value|] == text.value;
      assert Cut(text, kept) == Some(cut);
      match w.journals[name]
      case Damaged =>
      case Image(id, createdAt, identity, log) =>
        var header := Journal.Header(id, createdAt, identity);
        assert Journal.CutReads(c, cut, header, History.Entries(log));
        if Journal.Read(c, cut).Rejected? {
          mid := Damage(w, History.Corrupt(name), hash);
        } else {
          var k := |Journal.Read(c, cut).entries|;
          assert History.Entries(log[..k]) == History.Entries(log)[..k];
          mid := Damage(w, History.Truncate(name, k), hash);
          Journal.RestartSafe(c, text.value, header, History.Entries(log), n);
        }
    }
  }

  lemma {:induction false} Damage(w: History.World, s: History.Step, hash: Hash) returns (mid: History.World)
    requires History.Inv(w, hash) && !s.Backup?
    ensures mid == History.Next(w, s, hash) && History.Inv(mid, hash)
    ensures mid.store == w.store && mid.used == w.used && mid.walks == w.walks
  {
    mid := History.Next(w, s, hash);
    History.DamageKeepsInv(w, s, hash);
  }

  /** The same run without a configuration directory, which never looks at the journal. */
  function Blind(r: History.RunInput): History.RunInput {
    r.(open := r.open.(hasDir := false))
  }

  /** A run that opened no journal does the same whatever the journal held. */
  lemma {:induction false} BlindRun(w: History.World, mid: History.World, r: History.RunInput, hash: Hash)
    requires |r.walk.files| == |r.env.files| && r.walk.files != []
    requires mid.store == w.store && History.OpenedBy(mid, r).NoJournal?
    ensures History.RunOf(w, Blind(r), hash) == History.RunOf(mid, r, hash)
    ensures History.Next(w, History.Backup(Blind(r)), hash)
            == History.World(History.RunOf(mid, r, hash).store, w.journals, w.used + {r.freshId}, w.walks + [r.walk])
  {
    assert History.RunCtx(w, Blind(r), hash) == History.RunCtx(mid, r, hash);
  }

  /** What holds between two runs. */
  ghost predicate Ready(c: Journal.Codec, store: Store, text: Option<string>, w: History.World, name: string,
                        hash: Hash) {
    History.Inv(w, hash) && store == w.store && Backs(c, text, History.JournalAt(w, name))
  }

  /** The world after a run that started from what the loss left. */
  lemma {:induction false} AfterRun(w: History.World, mid: History.World, r: History.RunInput, hash: Hash,
                                    c: Journal.Codec, cut: Option<string>, store: Store, text: Option<string>,
                                    tear: Option<nat>)
    returns (after: History.World)
    requires History.Inv(w, hash) && History.Inv(mid, hash)
    requires mid.store == w.store && mid.used == w.used && mid.walks == w.walks
    requires History.StepOk(w, History.Backup(r)) && Backs(c, cut, History.JournalAt(w, r.name))
    requires r.walk.files != [] ==> History.Coherent(w.walks + [r.walk])
    requires store == if r.walk.files == [] then w.store else History.RunOf(mid, r, hash).store
    requires if LeavesJournal(mid, r) then text == cut else Withstands(mid, r, hash, c, tear, text)
    ensures Ready(c, store, text, after, r.name, hash) && after.used <= w.used + {r.freshId}
    ensures after.walks == w.walks + if r.walk.files == [] then [] else [r.walk]
  {
    if r.walk.files == [] {
      after := w;
    } else if LeavesJournal(mid, r) {
      after := History.Next(w, History.Backup(Blind(r)), hash);
      BlindRun(w, mid, r, hash);
      History.BackupKeepsInv(w, Blind(r), hash);
    } else {
      var run := Flipped(r, tear);
      after := History.Next(mid, History.Backup(run), hash);
      SameRun(mid, r, hash, tear);
      History.BackupKeepsInv(mid, run, hash);
    }
  }

  /** The file loses its tail, and the next run starts from what is left. */
  method RunAfterLoss(p: Provider, c: Journal.Codec, file: DiskFile, turn: Turn, kept: nat, hash: Hash,
                      ghost w: History.World)
    returns (ghost after: History.World)
    requires Journal.Lawful(c) && NewRun(turn.run, w.used)
    requires turn.run.walk.files != [] ==> History.Coherent(w.walks + [turn.run.walk])
    requires Ready(c, p.objects, file.text, w, turn.run.name, hash)
    modifies p, file
    ensures Ready(c, p.objects, file.text, after, turn.run.name, hash) && after.used <= w.used + {turn.run.freshId}
    ensures after.walks == w.walks + if turn.run.walk.files == [] then [] else [turn.run.walk]
  {
    ghost var mid := LossIsStep(c, file.text, w, turn.run.name, kept, hash);
    CutBacks(c, file.text, History.JournalAt(w, turn.run.name), kept);
    Crash(file, kept);
    ghost var cut := file.text;
    var r := WithPrevious(p, turn, w, hash);
    ghost var snap, stopped, steps, tear;
    snap, stopped, steps, tear := RunBackup(p, c, file, r, hash, turn.torn, turn.stray, mid);
    after := AfterRun(w, mid, r, hash, c, cut, p.objects, file.text, tear);
  }

  /** Any number of runs on one store and one journal file, which may lose any number of its last bytes
      before each of them: every manifest in the store stays sound. */
  method RunBackupsLosing(p: Provider, c: Journal.Codec, file: DiskFile, turns: seq<Turn>, kept: seq<nat>, hash: Hash,
                          name: string, ghost w: History.World)
    returns (ghost after: History.World)
    requires Journal.Lawful(c) && RunsOk(turns, w.used, name) && |kept| == |turns|
    requires History.Coherent(Walked(w.walks, turns))
    requires Ready(c, p.objects, file.text, w, name, hash)
    modifies p, file
    ensures Ready(c, p.objects, file.text, after, name, hash)
    ensures forall key :: key in p.objects && p.objects[key].Manifest? ==> Sound(p.objects, hash, p.objects[key].snap)
  {
    after := w;
    for i := 0 to |turns|
      invariant Ready(c, p.objects, file.text, after, name, hash) && after.walks == Walked(w.walks, turns[..i])
      invariant forall k :: i <= k < |turns| ==> turns[k].run.freshId !in after.used
    {
      WalkedPrefix(w.walks, turns, i + 1);
      assert turns[..i + 1][..i] == turns[..i];
      CoherentPrefix(Walked(w.walks, turns[..i + 1]), Walked(w.walks, turns));
      after := RunAfterLoss(p, c, file, turns[i], kept[i], hash, after);
    }
    assert turns[..|turns|] == turns;
    forall key | key in p.objects && p.objects[key].Manifest? ensures Sound(p.objects, hash, p.objects[key].snap) {
      assert History.ManifestOk(after.store, hash, after.used, key);
    }
  }
}
