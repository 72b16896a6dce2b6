/** The walk over the configured roots: pruned at excluded directories, and sorted by snapshot path. */
module Walk {
  import opened Domain
  import opened Exclude
  import Text

  datatype Stat = Stat(size: nat, modTime: int, mode: nat)

  /** A directory tree. `Special` stands for links, devices and files whose details cannot be read. */
  datatype Node =
    | File(name: string, stat: Stat)
    | Dir(name: string, readable: bool, children: seq<Node>)
    | Special(name: string)

  /** A regular file at a root-relative path. */
  datatype Found = Found(rel: seq<string>, stat: Stat)

  // ------------------------------------------------ the simple form: list everything, then filter

  function Files(rel: seq<string>, node: Node): seq<Found>
    decreases node
  {
    match node
    case File(_, stat) => [Found(rel, stat)]
    case Dir(_, readable, children) => if readable then FilesBelow(rel, children) else []
    case Special(_) => []
  }

  function FilesBelow(rel: seq<string>, children: seq<Node>): seq<Found>
    decreases children
  {
    if children == [] then []
    else Files(rel + [children[0].name], children[0]) + FilesBelow(rel, children[1..])
  }

  /** Neither the path nor any ancestor below the root is excluded. */
  ghost predicate Kept(m: Rules, rel: seq<string>) {
    forall k :: 0 < k <= |rel| ==> !Excluded(m.syntax, m.patterns, rel[..k])
  }

  datatype Rules = Rules(syntax: Syntax, patterns: seq<string>)

  ghost function Filter(m: Rules, found: seq<Found>): seq<Found> {
    if found == [] then []
    else (if Kept(m, found[0].rel) then [found[0]] else []) + Filter(m, found[1..])
  }

  // ------------------------------------------------ the pruned form

  ghost function Pruned(m: Rules, rel: seq<string>, node: Node): seq<Found>
    decreases node
  {
    if Excluded(m.syntax, m.patterns, rel) then []
    else
      match node
      case File(_, stat) => [Found(rel, stat)]
      case Dir(_, readable, children) => if readable then PrunedBelow(m, rel, children) else []
      case Special(_) => []
  }

  ghost function PrunedBelow(m: Rules, rel: seq<string>, children: seq<Node>): seq<Found>
    decreases children
  {
    if children == [] then []
    else Pruned(m, rel + [children[0].name], children[0]) + PrunedBelow(m, rel, children[1..])
  }

  lemma {:induction false} FilterConcat(m: Rules, a: seq<Found>, b: seq<Found>)
    ensures Filter(m, a + b) == Filter(m, a) + Filter(m, b)
  {
    if a == [] {
      assert a + b == b;
    } else {
      assert (a + b)[1..] == a[1..] + b;
      FilterConcat(m, a[1..], b);
    }
  }

  /** Everything listed under a path extends it. */
  lemma {:induction false} FilesExtend(rel: seq<string>, node: Node, f: Found)
    requires f in Files(rel, node)
    ensures rel <= f.rel
    decreases node
  {
    if node.Dir? { FilesBelowExtend(rel, node.children, f); }
  }

  lemma {:induction false} FilesBelowExtend(rel: seq<string>, children: seq<Node>, f: Found)
    requires f in FilesBelow(rel, children)
    ensures rel <= f.rel && |f.rel| > |rel|
    ensures exists i :: 0 <= i < |children| && children[i].name == f.rel[|rel|]
    decreases children
  {
    var first := rel + [children[0].name];
    if f in Files(first, children[0]) {
      FilesExtend(first, children[0], f);
      assert f.rel[|rel|] == first[|rel|];
    } else {
      FilesBelowExtend(rel, children[1..], f);
      var i :| 0 <= i < |children[1..]| && children[1..][i].name == f.rel[|rel|];
      assert children[i + 1].name == f.rel[|rel|];
    }
  }

  lemma {:induction false} FilterNone(m: Rules, found: seq<Found>)
    requires forall f :: f in found ==> !Kept(m, f.rel)
    ensures Filter(m, found) == []
  {
    if found != [] { FilterNone(m, found[1..]); }
  }

  lemma {:induction false} KeptSnoc(m: Rules, rel: seq<string>, name: string)
    requires Kept(m, rel)
    ensures Kept(m, rel + [name]) <==> !Excluded(m.syntax, m.patterns, rel + [name])
  {
    var longer := rel + [name];
    assert longer[..|longer|] == longer;
    forall k | 0 < k <= |rel| ensures longer[..k] == rel[..k] {}
  }

  /** Pruning refines filtering: skipping an excluded directory loses exactly the files whose path
      passes through it. */
  lemma {:induction false} PruningFilters(m: Rules, rel: seq<string>, name: string, node: Node)
    requires Kept(m, rel)
    ensures Pruned(m, rel + [name], node) == Filter(m, Files(rel + [name], node))
    decreases node, 1
  {
    var here := rel + [name];
    KeptSnoc(m, rel, name);
    if Excluded(m.syntax, m.patterns, here) {
      forall f | f in Files(here, node) ensures !Kept(m, f.rel) {
        FilesExtend(here, node, f);
        assert f.rel[..|here|] == here;
      }
      FilterNone(m, Files(here, node));
    } else if node.Dir? {
      PruningFiltersBelow(m, here, node.children);
    }
  }

  lemma {:induction false} PruningFiltersBelow(m: Rules, rel: seq<string>, children: seq<Node>)
    requires Kept(m, rel)
    ensures PrunedBelow(m, rel, children) == Filter(m, FilesBelow(rel, children))
    decreases children, 0
  {
    if children != [] {
      PruningFilters(m, rel, children[0].name, children[0]);
      PruningFiltersBelow(m, rel, children[1..]);
      FilterConcat(m, Files(rel + [children[0].name], children[0]), FilesBelow(rel, children[1..]));
    }
  }

  lemma {:induction false} FilterMeaning(m: Rules, found: seq<Found>, f: Found)
    ensures f in Filter(m, found) <==> f in found && Kept(m, f.rel)
  {
    if found != [] { FilterMeaning(m, found[1..], f); }
  }

  // ------------------------------------------------ roots and snapshot paths

  datatype Root = Missing | Single(base: string, stat: Stat) | Tree(readable: bool, children: seq<Node>)

  /** The regular files below a root, root-relative. */
  function RootFiles(r: Root): seq<Found> {
    match r
    case Missing => []
    case Single(base, stat) => [Found([base], stat)]
    case Tree(readable, children) => if readable then FilesBelow([], children) else []
  }

  ghost function RootPruned(m: Rules, r: Root): seq<Found> {
    match r
    case Missing => []
    case Single(base, stat) => if Excluded(m.syntax, m.patterns, [base]) then [] else [Found([base], stat)]
    case Tree(readable, children) => if readable then PrunedBelow(m, [], children) else []
  }

  /** What the walk of a root collects: its regular files that are kept, in order. */
  lemma {:induction false} RootPrunedIs(m: Rules, r: Root)
    ensures RootPruned(m, r) == Filter(m, RootFiles(r))
  {
    match r
    case Missing =>
    case Single(base, stat) =>
      KeptSnoc(m, [], base);
      assert [] + [base] == [base];
      assert RootFiles(r)[1..] == [];
    case Tree(readable, children) => PruningFiltersBelow(m, [], children);
  }

  function Label(i: nat): string {
    "path_" + Text.Decimal(i)
  }

  function SnapshotPath(i: nat, rel: seq<string>): string {
    Text.Join([Label(i)] + rel, '/')
  }

  function Entry(i: nat, path: string, f: Found): BackupFile {
    BackupFile(Text.Join([path] + f.rel, '/'), SnapshotPath(i, f.rel), f.stat.size, f.stat.modTime, f.stat.mode, "",
               false)
  }

  lemma {:induction false} SnapshotPathInjective(i: nat, a: seq<string>, k: nat, b: seq<string>)
    requires SlashFree(a) && SlashFree(b) && SnapshotPath(i, a) == SnapshotPath(k, b)
    ensures i == k && a == b
  {
    var x, y := [Label(i)] + a, [Label(k)] + b;
    Text.JoinInjective(x, y, '/');
    assert x[0] == y[0] && x[1..] == a && y[1..] == b;
    assert Label(i)[5..] == Text.Decimal(i) && Label(k)[5..] == Text.Decimal(k);
    Text.DecimalInjective(i, k);
  }

  predicate SlashFree(rel: seq<string>) {
    forall s :: s in rel ==> '/' !in s
  }
}
