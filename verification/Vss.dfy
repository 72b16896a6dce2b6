/** Shadow copies: paths are rewritten to a per-run shadow device before the walk, and each walked file's
    original path is recovered afterwards, so that its journal key does not change from run to run. */
module Vss {
  import opened Domain

  const SEP := "\\"

  /** Volume names ("C:" for "C:\\Users"), as a function from paths to a prefix of them. */
  type VolumeName = string -> string

  predicate Prefixing(volume: VolumeName, p: string) {
    volume(p) <= p
  }

  /** A path on its volume: the volume itself, or something below its root. */
  predicate Rooted(volume: VolumeName, p: string) {
    Prefixing(volume, p) && (p == volume(p) || volume(p) + SEP <= p)
  }

  function Rewrite(volume: VolumeName, shadows: map<string, string>, p: string): string
    requires Prefixing(volume, p)
  {
    if volume(p) in shadows then shadows[volume(p)] + p[|volume(p)|..] else p
  }

  /** The path has the shadow device in place of its volume, or stays when its volume has none. */
  predicate Moved(volume: string, shadows: map<string, string>, p: string, q: string) {
    if volume in shadows then
      shadows[volume] <= q && volume <= p && q[|shadows[volume]|..] == p[|volume|..]
    else q == p
  }

  lemma {:induction false} RewriteMoves(volume: VolumeName, shadows: map<string, string>, p: string)
    requires Prefixing(volume, p)
    ensures Moved(volume(p), shadows, p, Rewrite(volume, shadows, p))
  {
    if volume(p) in shadows {
      var root, rest := shadows[volume(p)], p[|volume(p)|..];
      assert (root + rest)[|root|..] == rest;
    }
  }

  method RewritePaths(volume: VolumeName, shadows: map<string, string>, paths: seq<string>) returns (r: seq<string>)
    requires forall p :: p in paths ==> Prefixing(volume, p)
    ensures |r| == |paths| && forall i :: 0 <= i < |paths| ==> r[i] == Rewrite(volume, shadows, paths[i])
    ensures forall i :: 0 <= i < |paths| ==> Moved(volume(paths[i]), shadows, paths[i], r[i])
  {
    r := [];
    for i := 0 to |paths|
      invariant |r| == i && forall k :: 0 <= k < i ==> r[k] == Rewrite(volume, shadows, paths[k])
      invariant forall k :: 0 <= k < i ==> Moved(volume(paths[k]), shadows, paths[k], r[k])
    {
      RewriteMoves(volume, shadows, paths[i]);
      r := r + [Rewrite(volume, shadows, paths[i])];
    }
  }

  /** The order in which a map from shadow roots to volumes happens to be iterated. */
  type Order = seq<(string, string)>

  /** The order lists each usable shadow root with its volume, and nothing else. */
  predicate OrderOf(order: Order, shadows: map<string, string>) {
    && (forall x :: x in order ==> x.0 != "" && x.1 in shadows && shadows[x.1] == x.0)
    && (forall v :: v in shadows && shadows[v] != "" ==> (shadows[v], v) in order)
  }

  predicate Under(p: string, root: string) {
    p == root || root + SEP <= p
  }

  /** The volume path of a file under the first matching shadow root, if there is one. */
  function Recover(order: Order, p: string): Option<string> {
    if order == [] then None
    else if Under(p, order[0].0) then Some(order[0].1 + p[|order[0].0|..])
    else Recover(order[1..], p)
  }

  /** Set the original path of every file that lies under a shadow root. */
  method OriginalPaths(files: array<BackupFile>, order: Order)
    modifies files
    ensures forall i :: 0 <= i < files.Length ==>
              files[i] == var r := Recover(order, old(files[i]).sourcePath);
                          if r.Some? then old(files[i]).(originalPath := r.value) else old(files[i])
  {
    for i := 0 to files.Length
      invariant forall k :: i <= k < files.Length ==> files[k] == old(files[k])
      invariant forall k :: 0 <= k < i ==>
                  files[k] == var r := Recover(order, old(files[k]).sourcePath);
                              if r.Some? then old(files[k]).(originalPath := r.value) else old(files[k])
    {
      var r := RecoverPath(order, files[i].sourcePath);
      if r.Some? { files[i] := files[i].(originalPath := r.value); }
    }
  }

  method RecoverPath(order: Order, p: string) returns (r: Option<string>)
    ensures r == Recover(order, p)
  {
    for i := 0 to |order|
      invariant Recover(order, p) == Recover(order[i..], p)
    {
      var shadow, volume := order[i].0, order[i].1;
      if p == shadow { return Some(volume + p[|shadow|..]); }
      if shadow + SEP <= p { return Some(volume + p[|shadow|..]); }
      assert order[i..][1..] == order[i + 1..];
    }
    return None;
  }

  // ------------------------------------------------ recovery

  /** Different volumes have different shadow roots, and no root is another one plus a separator. */
  predicate Apart(shadows: map<string, string>) {
    forall v, w :: v in shadows && w in shadows && v != w ==>
      shadows[v] != shadows[w] && !(shadows[v] + SEP <= shadows[w])
  }

  /** Two roots of one path are equal or one lies below the other. */
  lemma {:induction false} RootsNest(a: string, b: string, p: string)
    requires Under(p, a) && Under(p, b)
    ensures a == b || a + SEP <= b || b + SEP <= a
  {
    assert p[..|a|] == a && p[..|b|] == b;
    if |a| < |b| {
      assert p[..|a| + 1] == a + SEP && b[..|a| + 1] == p[..|a| + 1];
    } else if |b| < |a| {
      assert p[..|b| + 1] == b + SEP && a[..|b| + 1] == p[..|b| + 1];
    }
  }

  /** A path lies under at most one shadow root. */
  lemma {:induction false} OneRoot(shadows: map<string, string>, v: string, w: string, p: string)
    requires Apart(shadows) && v in shadows && w in shadows && Under(p, shadows[v]) && Under(p, shadows[w])
    ensures v == w
  {
    RootsNest(shadows[v], shadows[w], p);
  }

  lemma {:induction false} RecoverFinds(order: Order, shadows: map<string, string>, v: string, p: string)
    requires Apart(shadows) && v in shadows && Under(p, shadows[v])
    requires forall x :: x in order ==> x.1 in shadows && shadows[x.1] == x.0
    requires (shadows[v], v) in order
    ensures Recover(order, p) == Some(v + p[|shadows[v]|..])
  {
    if Under(p, order[0].0) {
      assert order[0] in order;
      OneRoot(shadows, v, order[0].1, p);
    } else {
      assert order[0] != (shadows[v], v);
      forall x | x in order[1..] ensures x in order {}
      RecoverFinds(order[1..], shadows, v, p);
    }
  }

  /** What makes a path lie under a root is the separator behind it. */
  lemma {:induction false} UnderIff(root: string, rest: string)
    ensures Under(root + rest, root) <==> rest == "" || SEP <= rest
    ensures (root + rest)[|root|..] == rest
  {
    var p := root + rest;
    if rest == "" {
      assert p == root;
    } else {
      assert p != root && p[|root|] == rest[0];
      assert p[..|root| + 1] == root + [rest[0]];
      assert SEP <= rest <==> rest[0] == SEP[0];
      assert root + SEP <= p <==> rest[0] == SEP[0] by {
        assert (root + SEP)[|root|] == SEP[0];
        if rest[0] == SEP[0] { assert root + [rest[0]] == root + SEP; }
      }
    }
  }

  /** Below a shadow root, the root is exchanged for its volume. */
  lemma {:induction false} RecoversBelow(shadows: map<string, string>, order: Order, v: string, rest: string)
    requires Apart(shadows) && OrderOf(order, shadows) && v in shadows && shadows[v] != ""
    requires rest == "" || SEP <= rest
    ensures Recover(order, shadows[v] + rest) == Some(v + rest)
  {
    UnderIff(shadows[v], rest);
    RecoverFinds(order, shadows, v, shadows[v] + rest);
  }

  /** For every iteration order, a file found under a rewritten root gets back the path it has under the
      configured root: `sub` is what the walk appended, empty for the root itself. */
  lemma {:induction false} RecoversOriginal(volume: VolumeName, shadows: map<string, string>, order: Order, p: string,
                                            sub: string)
    requires Apart(shadows) && OrderOf(order, shadows) && Rooted(volume, p)
    requires volume(p) in shadows && shadows[volume(p)] != ""
    requires sub == "" || SEP <= sub
    ensures Recover(order, Rewrite(volume, shadows, p) + sub) == Some(p + sub)
  {
    var v := volume(p);
    var root, rest := shadows[v], p[|v|..];
    assert p == v + rest;
    UnderIff(v, rest);
    Appended(rest, sub);
    RecoversBelow(shadows, order, v, rest + sub);
    assert root + rest + sub == root + (rest + sub) && v + rest + sub == v + (rest + sub);
  }

  lemma {:induction false} Appended(rest: string, sub: string)
    requires (rest == "" || SEP <= rest) && (sub == "" || SEP <= sub)
    ensures rest + sub == "" || SEP <= rest + sub
  {
    if rest == "" { assert rest + sub == sub; } else { assert (rest + sub)[0] == rest[0]; }
  }

  /** What is recovered is a path under the volume of a root the path lies under. */
  lemma {:induction false} RecoverShape(order: Order, q: string) returns (x: (string, string))
    requires Recover(order, q).Some?
    ensures x in order && Under(q, x.0) && Recover(order, q) == Some(x.1 + q[|x.0|..])
  {
    if Under(q, order[0].0) {
      x := order[0];
    } else {
      x := RecoverShape(order[1..], q);
    }
  }

  lemma {:induction false} RecoveredUnder(order: Order, q: string) returns (x: (string, string))
    requires Recover(order, q).Some?
    ensures x in order && Under(q, x.0) && Under(Recover(order, q).value, x.1)
  {
    x := RecoverShape(order, q);
    var rest := q[|x.0|..];
    assert q == x.0 + rest;
    UnderIff(x.0, rest);
    UnderIff(x.1, rest);
  }

  /** A drive-relative path ("C:data") is rewritten too, but never recovered: recovery needs the
      separator. Exactly the rooted paths come back, among paths that lie under no other volume. */
  lemma {:induction false} RecoversIffRooted(volume: VolumeName, shadows: map<string, string>, order: Order, p: string)
    requires Apart(shadows) && OrderOf(order, shadows) && Prefixing(volume, p)
    requires volume(p) in shadows && shadows[volume(p)] != ""
    requires forall w :: w in shadows && Under(p, w) ==> w == volume(p)
    ensures Recover(order, Rewrite(volume, shadows, p)) == Some(p) <==> Rooted(volume, p)
  {
    var v := volume(p);
    var root, rest := shadows[v], p[|v|..];
    var q := Rewrite(volume, shadows, p);
    assert p == v + rest && q == root + rest;
    UnderIff(v, rest);
    UnderIff(root, rest);
    if Rooted(volume, p) {
      RecoversOriginal(volume, shadows, order, p, "");
      assert q + "" == q && p + "" == p;
    } else if Recover(order, q).Some? {
      var x := RecoveredUnder(order, q);
      assert x.1 in shadows && shadows[x.1] == x.0;
    }
  }

  /** A file on a volume without a shadow copy keeps its path, and that is its journal key. */
  lemma {:induction false} UnshadowedUntouched(volume: VolumeName, shadows: map<string, string>, order: Order,
                                               p: string, rest: string)
    requires Prefixing(volume, p) && volume(p) !in shadows && OrderOf(order, shadows)
    requires forall v :: v in shadows ==> !Under(p + rest, shadows[v])
    ensures Rewrite(volume, shadows, p) + rest == p + rest && Recover(order, p + rest) == None
  {
    RecoversNothing(order, p + rest);
  }

  lemma {:induction false} RecoversNothing(order: Order, q: string)
    requires forall x :: x in order ==> !Under(q, x.0)
    ensures Recover(order, q) == None
  {
    if order != [] { RecoversNothing(order[1..], q); }
  }

  /** Drive letters. */
  function Drive(p: string): string {
    if |p| >= 2 && p[1] == ':' then p[..2] else ""
  }

  /** A drive-relative path loses its original path. This is about the path alone: the rewritten root names
      nothing on the shadow device, so the walk ends before it finds a file below it. */
  lemma {:induction false} DriveRelativeNotRecovered(device: string)
    requires device != ""
    ensures var shadows := map["C:" := device + "1"];
            && Rewrite(Drive, shadows, "C:data") == device + "1data"
            && Recover([(device + "1", "C:")], device + "1data") == None
  {
    var root := device + "1";
    assert Drive("C:data") == "C:" && "C:data"[2..] == "data";
    assert root + "data" == device + "1data";
    UnderIff(root, "data");
    assert "data"[0] != SEP[0];
    assert [(root, "C:")][1..] == [];
  }

  /** Worse, it can be taken for a file on another volume, whose journal key it then has: shadow device 1
      followed by "2\\f" reads like shadow device 12. */
  lemma {:induction false} DriveRelativeMistaken(device: string)
    requires device != ""
    ensures var shadows := map["C:" := device + "1", "D:" := device + "12"];
            var order := [(device + "1", "C:"), (device + "12", "D:")];
            && Apart(shadows) && OrderOf(order, shadows)
            && Recover(order, Rewrite(Drive, shadows, "C:2\\f")) == Some("D:\\f")
  {
    var one, two, p := device + "1", device + "12", "C:2\\f";
    var order := [(one, "C:"), (two, "D:")];
    assert Drive(p) == "C:" && p[2..] == "2\\f";
    var q := one + "2\\f";
    assert q == two + "\\f" && two == one + "2";
    UnderIff(one, "2\\f");
    assert "2\\f"[0] != SEP[0] && !(SEP <= "2\\f");
    assert one + "2\\f" == q && !Under(q, one);
    UnderIff(two, "\\f");
    UnderIff(one, "2");
    assert !(two + SEP <= one);
    assert order[1..] == [(two, "D:")];
    assert Recover(order, q) == Recover([(two, "D:")], q);
    assert "D:" + "\\f" == "D:\\f";
  }

  /** One file, walked in two runs with different shadow devices, has the same journal key in both, and
      it is the key of its configured path. */
  lemma {:induction false} SameJournalKey(volume: VolumeName, one: map<string, string>, two: map<string, string>,
                                          first: Order, second: Order, p: string, sub: string, f: BackupFile,
                                          g: BackupFile)
    requires Apart(one) && OrderOf(first, one) && Apart(two) && OrderOf(second, two)
    requires Rooted(volume, p) && p + sub != "" && (sub == "" || SEP <= sub)
    requires volume(p) in one && one[volume(p)] != "" && volume(p) in two && two[volume(p)] != ""
    requires f.sourcePath == Rewrite(volume, one, p) + sub && g.sourcePath == Rewrite(volume, two, p) + sub
    ensures Recover(first, f.sourcePath).Some? && Recover(second, g.sourcePath).Some?
    ensures var a := f.(originalPath := Recover(first, f.sourcePath).value);
            var b := g.(originalPath := Recover(second, g.sourcePath).value);
            LookupKey(a) == LookupKey(b) == p + sub
  {
    RecoversOriginal(volume, one, first, p, sub);
    RecoversOriginal(volume, two, second, p, sub);
  }
}
