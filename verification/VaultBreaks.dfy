/** How the vault breaks incremental snapshots: one unchanged file, two runs, and the second snapshot
    references the first. */
module VaultBreaks {
  import opened Domain
  import opened Incremental
  import opened Engine
  import opened Retention
  import opened VaultHistory
  import Keys
  import History
  import Vault

  const FILE := BackupFile("/v/x", "path_0/x", 1, 0, 420, "", false)
  const DISK: Disk := map["/v/x" := [1]]
  const WALK := History.Walk("i", [FILE], DISK, DISK)
  const QUIET := FileEnv(false, true, Delivered, false, Delivered, true, true)

  /** A run without a configuration directory in which nothing fails. */
  function RunOnce(id: string, prev: Option<Snapshot>, time: int): History.RunInput {
    History.RunInput("j", WALK, time, id, prev, History.OpenEnv(false, false, false, History.Kept), {}, false,
                     RunEnv([QUIET], false, ManifestUploaded, time, {}))
  }

  function Uploads(hash: Hash): SnapshotFile {
    SnapshotFile("/v/x", Keys.ObjectKey("a", "path_0/x"), 1, 0, Some(hash([1])), Perm(420), "")
  }

  /** The two snapshots: the second has the first one's entry. */
  function First(hash: Hash): Snapshot {
    Snapshot("a", 1, [Uploads(hash)], 1, 0, "")
  }

  function Second(hash: Hash): Snapshot {
    Snapshot("b", 2, [Uploads(hash)], 1, 2, "a")
  }

  /** The two runs, the second comparing with the first snapshot. */
  function RunFirst(): History.Step {
    History.Backup(RunOnce("a", None, 1))
  }

  function RunSecond(hash: Hash): History.Step {
    History.Backup(RunOnce("b", Some(First(hash)), 2))
  }

  /** A run over one file. */
  lemma {:induction false} OneFile(c: Ctx, store: Store, f: BackupFile, prev: Option<Snapshot>, env: RunEnv,
                                   o: Outcome)
    requires |env.files| == 1 && !env.cancelledAtEnd && env.manifest.ManifestUploaded?
    requires o == Classify(c, f, env.files[0]) && Yield(o) != []
    ensures var after := if o.Uploaded? then Transfer(store, KeyOf(c, f), Content(c, f), env.files[0]) else store;
            Run(c, store, [f], prev, env).store
            == after[Keys.ManifestKey(c.id) := Manifest(MakeSnapshot(c, env.timestamp, [o.entry], prev))]
  {
    var outs := Outcomes(c, [f], env.files);
    assert outs == [o];
    assert !Halted(outs, 0) && StoreTo(c, store, [f], env.files, outs, 0) == store;
    assert EntriesTo(outs, 1) == [] + [o.entry];
  }

  lemma {:induction false} OneSize(e: SnapshotFile)
    ensures EntrySizes([e]) == e.size
  {
    assert [e][..0] == [];
  }

  function Context(id: string, prev: Option<Snapshot>, hash: Hash): Ctx {
    Ctx(id, false, map[], PreviousIndex(prev), DISK, DISK, hash)
  }

  lemma {:induction false} SameContext(w: History.World, id: string, prev: Option<Snapshot>, time: int, hash: Hash)
    ensures History.RunCtx(w, RunOnce(id, prev, time), hash) == Context(id, prev, hash)
  {
    assert [FILE][..0] == [] && History.Entries([]) == [];
    assert ResumedMap([], LastWins([])) == map[];
  }

  /** The primary after each run. */
  function StoreOne(hash: Hash): Store {
    map[Keys.ObjectKey("a", "path_0/x") := Blob([1]), Keys.ManifestKey("a") := Manifest(First(hash))]
  }

  function StoreTwo(hash: Hash): Store {
    StoreOne(hash)[Keys.ManifestKey("b") := Manifest(Second(hash))]
  }

  function WorldOne(hash: Hash): History.World {
    History.World(StoreOne(hash), map[], {"a"}, [WALK])
  }

  function WorldTwo(hash: Hash): History.World {
    History.World(StoreTwo(hash), map[], {"a", "b"}, [WALK, WALK])
  }

  lemma {:induction false} FirstRun(hash: Hash)
    ensures History.Next(History.EMPTY, RunFirst(), hash) == WorldOne(hash)
  {
    var r, c := RunOnce("a", None, 1), Context("a", None, hash);
    SameContext(History.EMPTY, "a", None, 1, hash);
    OneFile(c, map[], FILE, None, r.env, Uploaded(Uploads(hash)));
    OneSize(Uploads(hash));
  }

  lemma {:induction false} SecondRun(hash: Hash)
    ensures History.Next(WorldOne(hash), RunSecond(hash), hash) == WorldTwo(hash)
  {
    var r, c := RunOnce("b", Some(First(hash)), 2), Context("b", Some(First(hash)), hash);
    SameContext(WorldOne(hash), "b", Some(First(hash)), 2, hash);
    assert [Uploads(hash)][..0] == [] && c.prev == map["/v/x" := Uploads(hash)];
    OneFile(c, StoreOne(hash), FILE, Some(First(hash)), r.env, Referenced(Uploads(hash)));
    OneSize(Uploads(hash));
  }

  lemma {:induction false} AlwaysCoherent(walks: seq<History.Walk>)
    requires forall i :: 0 <= i < |walks| ==> walks[i] == WALK
    ensures History.Coherent(walks)
  {
    forall i, j, k | 0 <= i <= j <= k < |walks| ensures History.NoReturnAt(walks, i, j, k) {}
    assert History.WalkOk(WALK);
  }

  // ------------------------------------------------ the syncs

  /** An error-free sync with retention 1. */
  function SyncOf(id: string, hash: Hash, listed: seq<Snapshot>): Move {
    Sync(id, {}, false, StoreTwo(hash).Keys, 1, listed)
  }

  lemma {:induction false} Scopes()
    ensures var x, a, b := Keys.ObjectKey("a", "path_0/x"), Keys.ManifestKey("a"), Keys.ManifestKey("b");
            && Keys.Scoped(x, "a") && Keys.Scoped(a, "a") && !Keys.Scoped(b, "a")
            && !Keys.Scoped(x, "b") && !Keys.Scoped(a, "b") && Keys.Scoped(b, "b")
            && x != a && x != b && a != b
  {
    var x, a, b := Keys.ObjectKey("a", "path_0/x"), Keys.ManifestKey("a"), Keys.ManifestKey("b");
    Keys.ObjectKeyFacts("a", "path_0/x");
    Keys.ManifestKeyFacts("a");
    Keys.ManifestKeyFacts("b");
    Keys.OwnerIfScoped(x, "b");
    Keys.OwnerIfScoped(a, "b");
    Keys.OwnerIfScoped(b, "a");
  }

  lemma {:induction false} FirstListed(hash: Hash)
    ensures Inventory(StoreOne(hash), [First(hash)])
  {
    assert StoreOne(hash)[Keys.ManifestKey("a")] == Manifest(First(hash));
  }

  /** The first sync copies the whole first snapshot. */
  lemma {:induction false} SyncFirst(hash: Hash)
    ensures var m := SyncOf("a", hash, [First(hash)]);
            && WithSnapshot(map[], StoreOne(hash), m) == StoreOne(hash)
            && AfterSync(map[], StoreOne(hash), m) == StoreOne(hash)
  {
    Scopes();
    var one := StoreOne(hash);
    assert Vault.PrimaryItems(one, "a", {}) == one.Keys;
    assert WithSnapshot(map[], one, SyncOf("a", hash, [First(hash)])) == one;
  }

  /** Syncing the second brings in its manifest only. */
  lemma {:induction false} SyncSecond(hash: Hash, vault: Store, listed: seq<Snapshot>)
    ensures WithSnapshot(vault, StoreTwo(hash), SyncOf("b", hash, listed))
            == vault[Keys.ManifestKey("b") := Manifest(Second(hash))]
  {
    Scopes();
    var two, m := StoreTwo(hash), SyncOf("b", hash, listed);
    assert Vault.PrimaryItems(two, "b", {}) == {Keys.ManifestKey("b")};
  }

  /** What is left in the vault, with or without the first snapshot in it before. */
  function Lonely(hash: Hash): Store {
    map[Keys.ManifestKey("b") := Manifest(Second(hash))]
  }

  lemma {:induction false} SecondAlone(hash: Hash)
    ensures AfterSync(map[], StoreTwo(hash), SyncOf("b", hash, [Second(hash)])) == Lonely(hash)
    ensures Inventory(Lonely(hash), [Second(hash)])
  {
    SyncSecond(hash, map[], [Second(hash)]);
    assert Lonely(hash)[Keys.ManifestKey("b")] == Manifest(Second(hash));
  }

  lemma {:induction false} UnderOne(k: string, s: Snapshot)
    ensures Under(k, [s]) <==> Keys.Scoped(k, s.id)
  {
    assert [s][0] == s;
  }

  /** Retention 1 takes the first snapshot's prefix. */
  lemma {:induction false} PruneFirst(hash: Hash)
    ensures Pruned(StoreTwo(hash), [First(hash)], StoreTwo(hash).Keys) == Lonely(hash)
  {
    Scopes();
    UnderOne(Keys.ObjectKey("a", "path_0/x"), First(hash));
    UnderOne(Keys.ManifestKey("a"), First(hash));
    UnderOne(Keys.ManifestKey("b"), First(hash));
  }

  lemma {:induction false} BothListed(hash: Hash)
    ensures Inventory(StoreTwo(hash), [First(hash), Second(hash)])
  {
    Scopes();
    assert StoreTwo(hash)[Keys.ManifestKey("a")] == Manifest(First(hash));
    assert StoreTwo(hash)[Keys.ManifestKey("b")] == Manifest(Second(hash));
  }

  lemma {:induction false} SecondPrunes(hash: Hash)
    ensures AfterSync(StoreOne(hash), StoreTwo(hash), SyncOf("b", hash, [First(hash), Second(hash)])) == Lonely(hash)
  {
    var both := [First(hash), Second(hash)];
    SyncSecond(hash, StoreOne(hash), both);
    PruneFirst(hash);
    assert Expired(both, 1) == [First(hash)];
  }

  /** The vault's copy of the second manifest names an object the vault does not have. */
  lemma {:induction false} LonelyUnsound(hash: Hash)
    ensures History.Holds(Lonely(hash), Second(hash)) && !Sound(Lonely(hash), hash, Second(hash))
  {
    Scopes();
    assert Uploads(hash) in Second(hash).files;
  }

  // ------------------------------------------------ the two histories

  /** One more move in front. */
  lemma {:induction false} Before(s: State, m: Move, rest: seq<Move>, hash: Hash)
    requires MoveOk(s, m, hash) && Clean(s, m)
    requires Possible(Next(s, m, hash), rest, hash) && AllClean(Next(s, m, hash), rest, hash)
    ensures Possible(s, [m] + rest, hash) && AllClean(s, [m] + rest, hash)
    ensures Exec(s, [m] + rest, hash) == Exec(Next(s, m, hash), rest, hash)
  {
    assert ([m] + rest)[1..] == rest;
  }

  lemma {:induction false} FirstMove(hash: Hash)
    ensures MoveOk(START, Primary(RunFirst()), hash)
    ensures Next(START, Primary(RunFirst()), hash) == State(WorldOne(hash), map[])
  {
    FirstRun(hash);
    AlwaysCoherent([WALK]);
  }

  lemma {:induction false} SecondStepOk(hash: Hash)
    ensures History.StepOk(WorldOne(hash), RunSecond(hash))
  {
    Scopes();
    assert StoreOne(hash)[Keys.ManifestKey("a")] == Manifest(First(hash));
    assert "b"[0] != "a"[0];
  }

  lemma {:induction false} SecondMove(hash: Hash, vault: Store)
    ensures MoveOk(State(WorldOne(hash), vault), Primary(RunSecond(hash)), hash)
    ensures Next(State(WorldOne(hash), vault), Primary(RunSecond(hash)), hash) == State(WorldTwo(hash), vault)
  {
    SecondStepOk(hash);
    SecondRun(hash);
    AlwaysCoherent(WorldTwo(hash).walks);
  }

  /** The second snapshot synced on its own. */
  function SyncedAlone(hash: Hash): seq<Move> {
    [Primary(RunFirst())]
    + ([Primary(RunSecond(hash))] + ([SyncOf("b", hash, [Second(hash)])] + []))
  }

  /** Both snapshots synced, each after its run, into a vault that keeps one. */
  function SyncedBoth(hash: Hash): seq<Move> {
    [Primary(RunFirst())]
    + ([SyncOf("a", hash, [First(hash)])]
       + ([Primary(RunSecond(hash))]
          + ([SyncOf("b", hash, [First(hash), Second(hash)])] + [])))
  }

  /** A snapshot synced without the one it references is broken in the vault. */
  lemma {:induction false} LoneSyncBreaks(hash: Hash)
    ensures Possible(START, SyncedAlone(hash), hash) && AllClean(START, SyncedAlone(hash), hash)
    ensures var vault := Exec(START, SyncedAlone(hash), hash).vault;
            History.Holds(vault, Second(hash)) && !Sound(vault, hash, Second(hash))
  {
    var m := SyncOf("b", hash, [Second(hash)]);
    SecondAlone(hash);
    SyncSecond(hash, map[], [Second(hash)]);
    Before(State(WorldTwo(hash), map[]), m, [], hash);
    SecondMove(hash, map[]);
    Before(State(WorldOne(hash), map[]), Primary(RunSecond(hash)), [m] + [], hash);
    FirstMove(hash);
    Before(START, Primary(RunFirst()), [Primary(RunSecond(hash))] + ([m] + []), hash);
    LonelyUnsound(hash);
  }

  /** So is one whose base retention has dropped. */
  lemma {:induction false} RetentionBreaks(hash: Hash)
    ensures Possible(START, SyncedBoth(hash), hash) && AllClean(START, SyncedBoth(hash), hash)
    ensures var vault := Exec(START, SyncedBoth(hash), hash).vault;
            History.Holds(vault, Second(hash)) && !Sound(vault, hash, Second(hash))
  {
    var m, n := SyncOf("a", hash, [First(hash)]), SyncOf("b", hash, [First(hash), Second(hash)]);
    SecondPrunes(hash);
    BothListed(hash);
    SyncSecond(hash, StoreOne(hash), [First(hash), Second(hash)]);
    Before(State(WorldTwo(hash), StoreOne(hash)), n, [], hash);
    SecondMove(hash, StoreOne(hash));
    Before(State(WorldOne(hash), StoreOne(hash)), Primary(RunSecond(hash)), [n] + [], hash);
    SyncFirst(hash);
    FirstListed(hash);
    Before(State(WorldOne(hash), map[]), m, [Primary(RunSecond(hash))] + ([n] + []), hash);
    FirstMove(hash);
    Before(START, Primary(RunFirst()), [m] + ([Primary(RunSecond(hash))] + ([n] + [])), hash);
    LonelyUnsound(hash);
  }
}
