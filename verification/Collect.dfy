/** Collecting the walked files of all roots into one sorted list without repeated snapshot paths. */
module Collect {
  import opened Domain
  import opened Exclude
  import opened Walk
  import Text

  // ------------------------------------------------ collecting

  function Paths(files: seq<BackupFile>): set<string> {
    set f | f in files :: f.snapshotPath
  }

  /** A file is added unless its snapshot path has been seen. */
  function Add(files: seq<BackupFile>, e: BackupFile): seq<BackupFile> {
    if e.snapshotPath in Paths(files) then files else files + [e]
  }

  function AddAll(files: seq<BackupFile>, es: seq<BackupFile>): seq<BackupFile>
    decreases es
  {
    if es == [] then files else AddAll(Add(files, es[0]), es[1..])
  }

  function Entries(i: nat, path: string, found: seq<Found>): seq<BackupFile> {
    seq(|found|, k requires 0 <= k < |found| => Entry(i, path, found[k]))
  }

  lemma {:induction false} AddAllConcat(files: seq<BackupFile>, a: seq<BackupFile>, b: seq<BackupFile>)
    ensures AddAll(files, a + b) == AddAll(AddAll(files, a), b)
    decreases a
  {
    if a == [] {
      assert a + b == b;
    } else {
      assert (a + b)[0] == a[0] && (a + b)[1..] == a[1..] + b;
      AddAllConcat(Add(files, a[0]), a[1..], b);
    }
  }

  lemma {:induction false} EntriesConcat(i: nat, path: string, a: seq<Found>, b: seq<Found>)
    ensures Entries(i, path, a + b) == Entries(i, path, a) + Entries(i, path, b)
  {
  }

  ghost function RulesOf(m: ExcludeMatcher): Rules
    reads m
  {
    Rules(m.syntax, m.patterns)
  }

  class Collector {
    var files: seq<BackupFile>
    var seen: set<string>

    predicate Valid()
      reads this
    {
      seen == Paths(files) && DistinctPaths(files)
    }

    constructor ()
      ensures Valid() && files == []
    {
      files, seen := [], {};
    }

    method Take(e: BackupFile)
      requires Valid()
      modifies this
      ensures Valid() && files == AddAll(old(files), [e])
    {
      assert [e][1..] == [];
      if e.snapshotPath !in seen {
        seen := seen + {e.snapshotPath};
        files := files + [e];
      }
    }

    /** Visit a node that is not the root. */
    method Visit(m: ExcludeMatcher, i: nat, path: string, rel: seq<string>, node: Node)
      requires Valid() && m.Valid()
      modifies this
      ensures Valid() && files == AddAll(old(files), Entries(i, path, Pruned(RulesOf(m), rel, node)))
      decreases node
    {
      if node.Special? { return; }
      var hit := m.MatchesPath(rel);
      if hit { return; }
      match node
      case File(_, stat) =>
        assert Entries(i, path, [Found(rel, stat)]) == [Entry(i, path, Found(rel, stat))];
        Take(Entry(i, path, Found(rel, stat)));
      case Dir(_, readable, children) =>
        if readable { VisitBelow(m, i, path, rel, children); }
    }

    method VisitBelow(m: ExcludeMatcher, i: nat, path: string, rel: seq<string>, children: seq<Node>)
      requires Valid() && m.Valid()
      modifies this
      ensures Valid() && files == AddAll(old(files), Entries(i, path, PrunedBelow(RulesOf(m), rel, children)))
      decreases children
    {
      if children == [] { return; }
      Visit(m, i, path, rel + [children[0].name], children[0]);
      VisitBelow(m, i, path, rel, children[1..]);
      ghost var a := Pruned(RulesOf(m), rel + [children[0].name], children[0]);
      ghost var b := PrunedBelow(RulesOf(m), rel, children[1..]);
      EntriesConcat(i, path, a, b);
      AddAllConcat(old(files), Entries(i, path, a), Entries(i, path, b));
    }

    method VisitRoot(m: ExcludeMatcher, i: nat, path: string, root: Root)
      requires Valid() && m.Valid()
      modifies this
      ensures Valid() && files == AddAll(old(files), Entries(i, path, RootPruned(RulesOf(m), root)))
    {
      match root
      case Missing =>
      case Single(base, stat) =>
        var hit := m.MatchesPath([base]);
        if !hit {
          assert Entries(i, path, [Found([base], stat)]) == [Entry(i, path, Found([base], stat))];
          Take(Entry(i, path, Found([base], stat)));
        }
      case Tree(readable, children) =>
        if readable { VisitBelow(m, i, path, [], children); }
    }
  }

  predicate DistinctPaths(files: seq<BackupFile>) {
    forall a, b :: 0 <= a < b < |files| ==> files[a].snapshotPath != files[b].snapshotPath
  }

  /** What the first `n` roots offer, in walking order. */
  ghost function Offered(m: Rules, roots: seq<Root>, paths: seq<string>, n: nat): seq<BackupFile>
    requires n <= |roots| == |paths|
  {
    if n == 0 then [] else Offered(m, roots, paths, n - 1) + Entries(n - 1, paths[n - 1], RootPruned(m, roots[n - 1]))
  }

  /** Walk every configured root and sort what was found. `paths[i]` is the directory that root `i`'s
      relative paths start from: the root itself, or its parent when the root is a file. */
  method CollectBackupFiles(m: ExcludeMatcher, roots: seq<Root>, paths: seq<string>) returns (files: seq<BackupFile>)
    requires m.Valid() && |roots| == |paths|
    ensures Increasing(files) && DistinctPaths(files)
    ensures forall f :: f in files <==> f in AddAll([], Offered(RulesOf(m), roots, paths, |roots|))
    ensures forall f :: f in files ==> Belongs(RulesOf(m), roots, paths, |roots|, f)
    ensures AllTidy(roots) ==> forall f :: f in files <==> Belongs(RulesOf(m), roots, paths, |roots|, f)
  {
    var found := WalkRoots(m, roots, paths);
    files := SortByPath(found);
    IncreasingDistinct(files);
    ExactlyKept(RulesOf(m), roots, paths, files);
  }

  method WalkRoots(m: ExcludeMatcher, roots: seq<Root>, paths: seq<string>) returns (files: seq<BackupFile>)
    requires m.Valid() && |roots| == |paths|
    ensures DistinctPaths(files) && files == AddAll([], Offered(RulesOf(m), roots, paths, |roots|))
  {
    var c := new Collector();
    for i := 0 to |roots|
      invariant c.Valid() && c.files == AddAll([], Offered(RulesOf(m), roots, paths, i))
    {
      c.VisitRoot(m, i, paths[i], roots[i]);
      AddAllConcat([], Offered(RulesOf(m), roots, paths, i), Entries(i, paths[i], RootPruned(RulesOf(m), roots[i])));
    }
    files := c.files;
  }

  lemma {:induction false} ExactlyKept(m: Rules, roots: seq<Root>, paths: seq<string>, files: seq<BackupFile>)
    requires |roots| == |paths|
    requires forall f :: f in files <==> f in AddAll([], Offered(m, roots, paths, |roots|))
    ensures forall f :: f in files ==> Belongs(m, roots, paths, |roots|, f)
    ensures AllTidy(roots) ==> forall f :: f in files <==> Belongs(m, roots, paths, |roots|, f)
  {
    forall f | f in files ensures Belongs(m, roots, paths, |roots|, f) {
      AddAllHolds([], Offered(m, roots, paths, |roots|), f);
      OfferedIs(m, roots, paths, |roots|, f);
    }
    if AllTidy(roots) {
      forall f ensures f in files <==> Belongs(m, roots, paths, |roots|, f) { CollectsKeptFiles(m, roots, paths, f); }
    }
  }

  // ------------------------------------------------ sorting

  predicate Less(a: string, b: string) {
    b != "" && (a == "" || a[0] < b[0] || (a[0] == b[0] && Less(a[1..], b[1..])))
  }

  predicate Increasing(files: seq<BackupFile>) {
    forall a, b :: 0 <= a < b < |files| ==> Less(files[a].snapshotPath, files[b].snapshotPath)
  }

  lemma {:induction false} LessTotal(a: string, b: string)
    ensures a == b || Less(a, b) || Less(b, a)
  {
    if a != "" && b != "" && a[0] == b[0] {
      LessTotal(a[1..], b[1..]);
      assert a == [a[0]] + a[1..] && b == [b[0]] + b[1..];
    }
  }

  lemma {:induction false} LessTransitive(a: string, b: string, c: string)
    requires Less(a, b) && Less(b, c)
    ensures Less(a, c)
  {
    if a != "" && a[0] == b[0] == c[0] { LessTransitive(a[1..], b[1..], c[1..]); }
  }

  lemma {:induction false} NotLessItself(a: string)
    ensures !Less(a, a)
  {
    if a != "" { NotLessItself(a[1..]); }
  }

  /** Sorted snapshot paths are also distinct. */
  lemma {:induction false} IncreasingDistinct(files: seq<BackupFile>)
    requires Increasing(files)
    ensures DistinctPaths(files)
  {
    forall a, b | 0 <= a < b < |files| ensures files[a].snapshotPath != files[b].snapshotPath {
      NotLessItself(files[a].snapshotPath);
    }
  }

  method SortByPath(files: seq<BackupFile>) returns (r: seq<BackupFile>)
    requires DistinctPaths(files)
    ensures Increasing(r) && |r| == |files| && forall f :: f in r <==> f in files
  {
    r := [];
    for i := 0 to |files|
      invariant Increasing(r) && |r| == i && forall f :: f in r <==> f in files[..i]
    {
      assert files[..i + 1] == files[..i] + [files[i]];
      r := InsertByPath(r, files[i]);
    }
    assert files[..|files|] == files;
  }

  method InsertByPath(files: seq<BackupFile>, e: BackupFile) returns (r: seq<BackupFile>)
    requires Increasing(files) && forall f :: f in files ==> f.snapshotPath != e.snapshotPath
    ensures Increasing(r) && |r| == |files| + 1 && forall f :: f in r <==> f in files || f == e
  {
    var i := |files|;
    while i > 0 && Less(e.snapshotPath, files[i - 1].snapshotPath)
      invariant 0 <= i <= |files|
      invariant forall k :: i <= k < |files| ==> Less(e.snapshotPath, files[k].snapshotPath)
    {
      i := i - 1;
    }
    r := files[..i] + [e] + files[i..];
    InsertedIncreasing(files, e, i, r);
    assert files == files[..i] + files[i..];
  }

  lemma {:induction false} InsertedIncreasing(files: seq<BackupFile>, e: BackupFile, i: nat, r: seq<BackupFile>)
    requires Increasing(files) && i <= |files| && r == files[..i] + [e] + files[i..]
    requires forall f :: f in files ==> f.snapshotPath != e.snapshotPath
    requires i > 0 ==> !Less(e.snapshotPath, files[i - 1].snapshotPath)
    requires forall k :: i <= k < |files| ==> Less(e.snapshotPath, files[k].snapshotPath)
    ensures Increasing(r)
  {
    forall k | 0 <= k < i ensures Less(files[k].snapshotPath, e.snapshotPath) {
      LessTotal(files[i - 1].snapshotPath, e.snapshotPath);
      if k < i - 1 { LessTransitive(files[k].snapshotPath, files[i - 1].snapshotPath, e.snapshotPath); }
    }
    forall a, b | 0 <= a < b < |r| ensures Less(r[a].snapshotPath, r[b].snapshotPath) {
      assert a < i ==> r[a] == files[a];
      assert b < i ==> r[b] == files[b];
      assert a > i ==> r[a] == files[a - 1];
      assert b > i ==> r[b] == files[b - 1];
    }
  }

  // ------------------------------------------------ exactly the kept files

  predicate TidyNode(node: Node)
    decreases node
  {
    node.Dir? ==> TidyBelow(node.children)
  }

  /** Names have no slash and siblings have different names, all the way down. */
  predicate TidyBelow(children: seq<Node>)
    decreases children
  {
    children == [] ||
    (&& '/' !in children[0].name
     && (forall k :: 0 < k < |children| ==> children[k].name != children[0].name)
     && TidyNode(children[0]) && TidyBelow(children[1..]))
  }

  predicate Tidy(r: Root) {
    match r
    case Missing => true
    case Single(base, _) => '/' !in base
    case Tree(_, children) => TidyBelow(children)
  }

  predicate AllTidy(roots: seq<Root>) {
    forall i :: 0 <= i < |roots| ==> Tidy(roots[i])
  }

  lemma {:induction false} TidySlashFree(rel: seq<string>, node: Node, f: Found)
    requires TidyNode(node) && f in Files(rel, node) && SlashFree(rel)
    ensures SlashFree(f.rel)
    decreases node, 1
  {
    if node.Dir? { TidySlashFreeBelow(rel, node.children, f); }
  }

  lemma {:induction false} TidySlashFreeBelow(rel: seq<string>, children: seq<Node>, f: Found)
    requires TidyBelow(children) && f in FilesBelow(rel, children) && SlashFree(rel)
    ensures SlashFree(f.rel)
    decreases children, 0
  {
    var first := rel + [children[0].name];
    if f in Files(first, children[0]) {
      TidySlashFree(first, children[0], f);
    } else {
      TidySlashFreeBelow(rel, children[1..], f);
    }
  }

  /** A path leads to one file. */
  lemma {:induction false} OnePerPath(rel: seq<string>, node: Node, f: Found, g: Found)
    requires TidyNode(node) && f in Files(rel, node) && g in Files(rel, node) && f.rel == g.rel
    ensures f == g
    decreases node, 1
  {
    if node.Dir? { OnePerPathBelow(rel, node.children, f, g); }
  }

  lemma {:induction false} OnePerPathBelow(rel: seq<string>, children: seq<Node>, f: Found, g: Found)
    requires TidyBelow(children) && f in FilesBelow(rel, children) && g in FilesBelow(rel, children) && f.rel == g.rel
    ensures f == g
    decreases children, 0
  {
    var first := rel + [children[0].name];
    if f in Files(first, children[0]) && g in Files(first, children[0]) {
      OnePerPath(first, children[0], f, g);
    } else if f in Files(first, children[0]) {
      ApartFromRest(rel, children, f, g);
    } else if g in Files(first, children[0]) {
      ApartFromRest(rel, children, g, f);
    } else {
      OnePerPathBelow(rel, children[1..], f, g);
    }
  }

  lemma {:induction false} ApartFromRest(rel: seq<string>, children: seq<Node>, f: Found, g: Found)
    requires children != [] && TidyBelow(children)
    requires f in Files(rel + [children[0].name], children[0]) && g in FilesBelow(rel, children[1..])
    ensures f.rel != g.rel
  {
    var first := rel + [children[0].name];
    FilesExtend(first, children[0], f);
    FilesBelowExtend(rel, children[1..], g);
    assert f.rel[|rel|] == first[|rel|];
    var i :| 0 <= i < |children[1..]| && children[1..][i].name == g.rel[|rel|];
    assert children[i + 1].name != children[0].name;
  }

  lemma {:induction false} RootFileFacts(r: Root, f: Found, g: Found)
    requires Tidy(r) && f in RootFiles(r) && g in RootFiles(r)
    ensures SlashFree(f.rel) && (f.rel == g.rel ==> f == g)
  {
    if r.Tree? {
      TidySlashFreeBelow([], r.children, f);
      if f.rel == g.rel { OnePerPathBelow([], r.children, f, g); }
    }
  }

  /** What an entry says about the file it was made for: its size, time and mode, its path below the root,
      and the same path below the root's positional label. */
  predicate Describes(path: string, i: nat, found: Found, e: BackupFile) {
    && e.size == found.stat.size && e.modTime == found.stat.modTime && e.mode == found.stat.mode
    && e.sourcePath == Text.Join([path] + found.rel, '/')
    && e.snapshotPath == Text.Join(["path_" + Text.Decimal(i)] + found.rel, '/')
    && e.originalPath == "" && !e.systemState
  }

  /** The entry of a kept file below one root. */
  ghost predicate EntryOf(m: Rules, root: Root, path: string, i: nat, found: Found, e: BackupFile) {
    found in RootFiles(root) && Kept(m, found.rel) && Describes(path, i, found, e)
  }

  ghost predicate FromRoot(m: Rules, root: Root, path: string, i: nat, e: BackupFile) {
    exists found :: EntryOf(m, root, path, i, found, e)
  }

  /** The entry of a kept file below one of the first `n` roots. */
  ghost predicate Belongs(m: Rules, roots: seq<Root>, paths: seq<string>, n: nat, e: BackupFile)
    requires n <= |roots| == |paths|
  {
    exists i :: 0 <= i < n && FromRoot(m, roots[i], paths[i], i, e)
  }

  lemma {:induction false} RootOffers(m: Rules, root: Root, path: string, i: nat, e: BackupFile)
    ensures e in Entries(i, path, RootPruned(m, root)) <==> FromRoot(m, root, path, i, e)
  {
    var pruned := RootPruned(m, root);
    RootPrunedIs(m, root);
    if e in Entries(i, path, pruned) {
      var k :| 0 <= k < |pruned| && Entry(i, path, pruned[k]) == e;
      FilterMeaning(m, RootFiles(root), pruned[k]);
      assert EntryOf(m, root, path, i, pruned[k], e);
    }
    if FromRoot(m, root, path, i, e) {
      var found :| EntryOf(m, root, path, i, found, e);
      FilterMeaning(m, RootFiles(root), found);
      var k :| 0 <= k < |pruned| && pruned[k] == found;
      assert Entries(i, path, pruned)[k] == e;
    }
  }

  lemma {:induction false} OfferedIs(m: Rules, roots: seq<Root>, paths: seq<string>, n: nat, e: BackupFile)
    requires n <= |roots| == |paths|
    ensures e in Offered(m, roots, paths, n) <==> Belongs(m, roots, paths, n, e)
  {
    if n > 0 {
      OfferedIs(m, roots, paths, n - 1, e);
      RootOffers(m, roots[n - 1], paths[n - 1], n - 1, e);
    }
  }

  lemma {:induction false} AddAllHolds(files: seq<BackupFile>, es: seq<BackupFile>, e: BackupFile)
    ensures e in AddAll(files, es) ==> e in files || e in es
    ensures e in files ==> e in AddAll(files, es)
    decreases es
  {
    if es != [] { AddAllHolds(Add(files, es[0]), es[1..], e); }
  }

  /** Every offered file is in, or one with its snapshot path is. */
  lemma {:induction false} AddAllCovers(files: seq<BackupFile>, es: seq<BackupFile>,
                                        e: BackupFile) returns (g: BackupFile)
    requires e in es
    ensures g in AddAll(files, es) && g.snapshotPath == e.snapshotPath
    decreases es
  {
    var next := Add(files, es[0]);
    if e in es[1..] {
      g := AddAllCovers(next, es[1..], e);
    } else {
      assert e == es[0] && e.snapshotPath in Paths(next);
      g :| g in next && g.snapshotPath == e.snapshotPath;
      AddAllHolds(next, es[1..], g);
    }
  }

  /** Over tidy roots, the collected files are exactly the regular files with neither themselves nor an
      ancestor below the root excluded; none is lost as a repeated snapshot path. */
  lemma {:induction false} CollectsKeptFiles(m: Rules, roots: seq<Root>, paths: seq<string>, e: BackupFile)
    requires |roots| == |paths| && AllTidy(roots)
    ensures e in AddAll([], Offered(m, roots, paths, |roots|)) <==> Belongs(m, roots, paths, |roots|, e)
  {
    var es := Offered(m, roots, paths, |roots|);
    OfferedIs(m, roots, paths, |roots|, e);
    AddAllHolds([], es, e);
    if e in es {
      var g := AddAllCovers([], es, e);
      AddAllHolds([], es, g);
      OfferedIs(m, roots, paths, |roots|, g);
      SamePathSameFile(m, roots, paths, e, g);
    }
  }

  lemma {:induction false} SamePathSameFile(m: Rules, roots: seq<Root>, paths: seq<string>, e: BackupFile,
                                            g: BackupFile)
    requires |roots| == |paths| && AllTidy(roots)
    requires Belongs(m, roots, paths, |roots|, e) && Belongs(m, roots, paths, |roots|, g)
    requires e.snapshotPath == g.snapshotPath
    ensures e == g
  {
    var i :| 0 <= i < |roots| && FromRoot(m, roots[i], paths[i], i, e);
    var k :| 0 <= k < |roots| && FromRoot(m, roots[k], paths[k], k, g);
    var a :| EntryOf(m, roots[i], paths[i], i, a, e);
    var b :| EntryOf(m, roots[k], paths[k], k, b, g);
    RootFileFacts(roots[i], a, a);
    RootFileFacts(roots[k], b, b);
    SnapshotPathInjective(i, a.rel, k, b.rel);
    RootFileFacts(roots[i], a, b);
  }
}
