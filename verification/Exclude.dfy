/** Exclusion patterns: doublestar matching over path segments. */
module Exclude {
  import Text

  const STARS := "**"

  /** A single-segment glob: does a pattern segment match a path segment. */
  type Glob = (string, string) -> bool

  // ------------------------------------------------ what a match is

  /** Cut positions that hand each pattern segment its span: any span for a doublestar, exactly one
      matching segment for anything else. */
  predicate Assigns(glob: Glob, pattern: seq<string>, segs: seq<string>, cuts: seq<nat>) {
    && |cuts| == |pattern| + 1
    && cuts[0] == 0 && cuts[|pattern|] == |segs|
    && forall i :: 0 <= i < |pattern| ==> FitsAt(glob, pattern, segs, cuts, i)
  }

  predicate FitsAt(glob: Glob, pattern: seq<string>, segs: seq<string>, cuts: seq<nat>, i: nat)
    requires i < |pattern| && |cuts| == |pattern| + 1
  {
    && cuts[i] <= cuts[i + 1] <= |segs|
    && (pattern[i] != STARS ==> cuts[i + 1] == cuts[i] + 1 && glob(pattern[i], segs[cuts[i]]))
  }

  ghost predicate Spans(glob: Glob, pattern: seq<string>, segs: seq<string>) {
    exists cuts :: Assigns(glob, pattern, segs, cuts)
  }

  // ------------------------------------------------ matching, one segment at a time

  predicate Matches(glob: Glob, pattern: seq<string>, segs: seq<string>)
    decreases |pattern| + |segs|
  {
    if pattern == [] then segs == []
    else if pattern[0] == STARS then
      Matches(glob, pattern[1..], segs) || (segs != [] && Matches(glob, pattern, segs[1..]))
    else segs != [] && glob(pattern[0], segs[0]) && Matches(glob, pattern[1..], segs[1..])
  }

  /** A doublestar in front: the rest matches some suffix. */
  lemma {:induction false} StarsMatchSuffix(glob: Glob, pattern: seq<string>, segs: seq<string>)
    ensures Matches(glob, [STARS] + pattern, segs) <==>
              exists i :: 0 <= i <= |segs| && Matches(glob, pattern, segs[i..])
    decreases |segs|
  {
    var whole := [STARS] + pattern;
    assert whole[1..] == pattern && segs[0..] == segs;
    if segs != [] {
      StarsMatchSuffix(glob, pattern, segs[1..]);
      if i :| 0 <= i <= |segs| && Matches(glob, pattern, segs[i..]) {
        if i > 0 { assert segs[1..][i - 1..] == segs[i..]; }
      }
      if i :| 0 <= i <= |segs[1..]| && Matches(glob, pattern, segs[1..][i..]) {
        assert segs[1..][i..] == segs[i + 1..];
      }
    }
  }

  lemma {:induction false} StarsCollapse(glob: Glob, pattern: seq<string>, segs: seq<string>)
    ensures Matches(glob, [STARS] + ([STARS] + pattern), segs) <==> Matches(glob, [STARS] + pattern, segs)
  {
    StarsMatchSuffix(glob, [STARS] + pattern, segs);
    StarsMatchSuffix(glob, pattern, segs);
    assert segs[0..] == segs;
    if i :| 0 <= i <= |segs| && Matches(glob, [STARS] + pattern, segs[i..]) {
      StarsMatchSuffix(glob, pattern, segs[i..]);
      var k :| 0 <= k <= |segs[i..]| && Matches(glob, pattern, segs[i..][k..]);
      assert segs[i..][k..] == segs[i + k..];
    }
  }

  /** The matcher: a loop over plain segments that, at a doublestar, drops the stars and tries every
      suffix. */
  method MatchSegments(glob: Glob, pattern0: seq<string>, segs0: seq<string>) returns (r: bool)
    ensures r == Matches(glob, pattern0, segs0)
    ensures r <==> Spans(glob, pattern0, segs0)
    decreases |pattern0|
  {
    MatchesIffSpans(glob, pattern0, segs0);
    var pattern, segs := pattern0, segs0;
    while pattern != []
      invariant |pattern| <= |pattern0|
      invariant Matches(glob, pattern, segs) == Matches(glob, pattern0, segs0)
      decreases |pattern|
    {
      if pattern[0] == STARS {
        assert pattern == [STARS] + pattern[1..];
        pattern := pattern[1..];
        while pattern != [] && pattern[0] == STARS
          invariant |pattern| < |pattern0|
          invariant Matches(glob, [STARS] + pattern, segs) == Matches(glob, pattern0, segs0)
        {
          assert pattern == [STARS] + pattern[1..];
          StarsCollapse(glob, pattern[1..], segs);
          pattern := pattern[1..];
        }
        StarsMatchSuffix(glob, pattern, segs);
        if pattern == [] {
          assert segs[|segs|..] == [];
          return true;
        }
        for i := 0 to |segs| + 1
          invariant forall k :: 0 <= k < i ==> !Matches(glob, pattern, segs[k..])
        {
          var hit := MatchSegments(glob, pattern, segs[i..]);
          if hit { return true; }
        }
        return false;
      }
      if segs == [] || !glob(pattern[0], segs[0]) { return false; }
      pattern, segs := pattern[1..], segs[1..];
    }
    r := segs == [];
  }

  // ------------------------------------------------ the two agree

  lemma {:induction false} MatchHasSpans(glob: Glob, pattern: seq<string>, segs: seq<string>) returns (cuts: seq<nat>)
    requires Matches(glob, pattern, segs)
    ensures Assigns(glob, pattern, segs, cuts)
    decreases |pattern| + |segs|
  {
    if pattern == [] {
      cuts := [0];
    } else if pattern[0] == STARS && Matches(glob, pattern[1..], segs) {
      var rest := MatchHasSpans(glob, pattern[1..], segs);
      cuts := [0] + rest;
      Prepend(glob, pattern, segs, rest, 0);
    } else if pattern[0] == STARS {
      var rest := MatchHasSpans(glob, pattern, segs[1..]);
      cuts := [0] + seq(|pattern|, i requires 0 <= i < |pattern| => rest[i + 1] + 1);
      Stretch(glob, pattern, segs, rest, cuts);
    } else {
      var rest := MatchHasSpans(glob, pattern[1..], segs[1..]);
      cuts := [0] + seq(|rest|, i requires 0 <= i < |rest| => rest[i] + 1);
      Prepend(glob, pattern, segs, rest, 1);
    }
  }

  /** Cuts of the rest, moved past the first pattern segment's span. */
  lemma {:induction false} Prepend(glob: Glob, pattern: seq<string>, segs: seq<string>, rest: seq<nat>, w: nat)
    requires pattern != [] && w <= |segs| && w <= 1 && Assigns(glob, pattern[1..], segs[w..], rest)
    requires pattern[0] == STARS || (w == 1 && glob(pattern[0], segs[0]))
    ensures Assigns(glob, pattern, segs, [0] + seq(|rest|, i requires 0 <= i < |rest| => rest[i] + w))
    ensures w == 0 ==> Assigns(glob, pattern, segs, [0] + rest)
  {
    var cuts := [0] + seq(|rest|, i requires 0 <= i < |rest| => rest[i] + w);
    forall i | 0 <= i < |pattern| ensures FitsAt(glob, pattern, segs, cuts, i) {
      if i > 0 {
        assert FitsAt(glob, pattern[1..], segs[w..], rest, i - 1);
        assert pattern[1..][i - 1] == pattern[i];
      }
    }
    if w == 0 { assert cuts == [0] + rest; }
  }

  /** A doublestar's span, one segment longer at the front. */
  lemma {:induction false} Stretch(glob: Glob, pattern: seq<string>, segs: seq<string>, rest: seq<nat>, cuts: seq<nat>)
    requires pattern != [] && pattern[0] == STARS && segs != [] && Assigns(glob, pattern, segs[1..], rest)
    requires cuts == [0] + seq(|pattern|, i requires 0 <= i < |pattern| => rest[i + 1] + 1)
    ensures Assigns(glob, pattern, segs, cuts)
  {
    forall i | 0 <= i < |pattern| ensures FitsAt(glob, pattern, segs, cuts, i) {
      assert FitsAt(glob, pattern, segs[1..], rest, i);
      if i > 0 { assert cuts[i] == rest[i] + 1 && cuts[i + 1] == rest[i + 1] + 1; }
    }
  }

  /** The last of all cut positions bounds the earlier ones. */
  lemma {:induction false} CutsRise(glob: Glob, pattern: seq<string>, segs: seq<string>, cuts: seq<nat>, i: nat)
    requires Assigns(glob, pattern, segs, cuts) && i <= |pattern|
    ensures cuts[i] <= |segs| && (i > 0 ==> cuts[1] <= cuts[i])
  {
    if i > 0 {
      assert FitsAt(glob, pattern, segs, cuts, i - 1);
      CutsRise(glob, pattern, segs, cuts, i - 1);
    }
  }

  lemma {:induction false} SpansMatch(glob: Glob, pattern: seq<string>, segs: seq<string>, cuts: seq<nat>)
    requires Assigns(glob, pattern, segs, cuts)
    ensures Matches(glob, pattern, segs)
  {
    if pattern != [] {
      var w := cuts[1];
      assert FitsAt(glob, pattern, segs, cuts, 0);
      var rest := seq(|pattern|, i requires 0 <= i < |pattern| => if cuts[i + 1] >= w then cuts[i + 1] - w else 0);
      forall i | 0 <= i < |pattern[1..]| ensures FitsAt(glob, pattern[1..], segs[w..], rest, i) {
        assert FitsAt(glob, pattern, segs, cuts, i + 1);
        CutsRise(glob, pattern, segs, cuts, i + 1);
      }
      CutsRise(glob, pattern, segs, cuts, |pattern|);
      SpansMatch(glob, pattern[1..], segs[w..], rest);
      assert pattern == [pattern[0]] + pattern[1..];
      if pattern[0] == STARS { StarsMatchSuffix(glob, pattern[1..], segs); }
    }
  }

  /** The matcher says yes exactly when spans can be assigned. */
  lemma {:induction false} MatchesIffSpans(glob: Glob, pattern: seq<string>, segs: seq<string>)
    ensures Matches(glob, pattern, segs) <==> Spans(glob, pattern, segs)
  {
    if Matches(glob, pattern, segs) { var cuts := MatchHasSpans(glob, pattern, segs); }
    if cuts :| Assigns(glob, pattern, segs, cuts) { SpansMatch(glob, pattern, segs, cuts); }
  }

  /** A pattern with a slash applies at any depth: the doublestar put in front of it lets the pattern
      itself span any suffix of the path. */
  lemma {:induction false} AnyDepth(glob: Glob, pattern: seq<string>, segs: seq<string>)
    ensures Spans(glob, [STARS] + pattern, segs) <==> exists i :: 0 <= i <= |segs| && Spans(glob, pattern, segs[i..])
  {
    MatchesIffSpans(glob, [STARS] + pattern, segs);
    StarsMatchSuffix(glob, pattern, segs);
    forall i | 0 <= i <= |segs| ensures Matches(glob, pattern, segs[i..]) <==> Spans(glob, pattern, segs[i..]) {
      MatchesIffSpans(glob, pattern, segs[i..]);
    }
  }

  // ------------------------------------------------ pattern lists

  /** How raw patterns are read: `normal` trims them, turns backslashes into slashes and folds case;
      `valid` says that a segment is a well-formed glob. */
  datatype Syntax = Syntax(glob: Glob, valid: string -> bool, normal: string -> string)

  /** A path, given by its segments, falls under one raw pattern. */
  ghost predicate Hits(x: Syntax, raw: string, segs: seq<string>)
    requires segs != []
  {
    var p := x.normal(raw);
    if '/' in p then ValidSegments(x, Text.Split(p, '/')) && Spans(x.glob, [STARS] + Text.Split(p, '/'), segs)
    else p != "" && x.valid(p) && x.glob(p, segs[|segs| - 1])
  }

  predicate ValidSegments(x: Syntax, segs: seq<string>) {
    forall s :: s in segs ==> s == STARS || (s != "" && x.valid(s))
  }

  ghost predicate Excluded(x: Syntax, patterns: seq<string>, segs: seq<string>) {
    segs != [] && exists raw :: raw in patterns && Hits(x, raw, segs)
  }

  /** Patterns that are empty, or have an empty or malformed segment, exclude nothing. */
  lemma {:induction false} UnusableExcludesNothing(x: Syntax, raw: string, segs: seq<string>)
    requires segs != []
    requires var p := x.normal(raw);
             || p == "" || ('/' !in p && !x.valid(p))
             || ('/' in p && exists s :: s in Text.Split(p, '/') && s != STARS && (s == "" || !x.valid(s)))
    ensures !Hits(x, raw, segs)
  {
  }

  /** The compiled lists exclude what the raw patterns do. */
  ghost predicate Faithful(x: Syntax, baseName: seq<string>, relPath: seq<seq<string>>, patterns: seq<string>) {
    forall segs :: segs != [] ==> (Compiled(x, baseName, relPath, segs) <==> Excluded(x, patterns, segs))
  }

  class ExcludeMatcher {
    var baseName: seq<string>        // patterns without a slash
    var relPath: seq<seq<string>>    // patterns with one, split, with a doublestar in front
    const syntax: Syntax
    ghost var patterns: seq<string>

    /** The compiled lists exclude exactly what the raw patterns do. */
    ghost predicate Valid()
      reads this
    {
      Faithful(syntax, baseName, relPath, patterns)
    }

    constructor (x: Syntax, raws: seq<string>)
      ensures Valid() && syntax == x && patterns == raws
    {
      syntax, baseName, relPath, patterns := x, [], [], raws;
      new;
      for i := 0 to |raws|
        invariant patterns == raws && syntax == x
        invariant forall segs :: segs != [] ==> (Compiled(x, baseName, relPath, segs) <==> Excluded(x, raws[..i], segs))
      {
        assert raws[..i + 1] == raws[..i] + [raws[i]];
        var p := x.normal(raws[i]);
        ghost var bases, rels := baseName, relPath;
        if '/' in p {
          var segs := Text.Split(p, '/');
          if ValidSegments(x, segs) { relPath := relPath + [[STARS] + segs]; }
        } else if p != "" && x.valid(p) {
          baseName := baseName + [p];
        }
        forall segs | segs != []
          ensures Compiled(x, baseName, relPath, segs) <==> Excluded(x, raws[..i + 1], segs)
        {
          CompileOne(x, bases, rels, baseName, relPath, raws, i, segs);
        }
      }
      assert raws[..|raws|] == raws;
    }

    /** Does some pattern exclude this path. */
    method MatchesPath(segs: seq<string>) returns (hit: bool)
      requires Valid()
      ensures hit <==> Excluded(syntax, patterns, segs)
    {
      if segs == [] { return false; }
      for i := 0 to |baseName|
        invariant forall k :: 0 <= k < i ==> !syntax.glob(baseName[k], segs[|segs| - 1])
      {
        if syntax.glob(baseName[i], segs[|segs| - 1]) {
          assert Compiled(syntax, baseName, relPath, segs);
          return true;
        }
      }
      for i := 0 to |relPath|
        invariant forall k :: 0 <= k < i ==> !Spans(syntax.glob, relPath[k], segs)
      {
        var r := MatchSegments(syntax.glob, relPath[i], segs);
        if r {
          assert Compiled(syntax, baseName, relPath, segs);
          return true;
        }
      }
      assert !Compiled(syntax, baseName, relPath, segs);
      return false;
    }
  }

  ghost predicate Compiled(x: Syntax, baseName: seq<string>, relPath: seq<seq<string>>, segs: seq<string>)
    requires segs != []
  {
    || (exists k :: 0 <= k < |baseName| && x.glob(baseName[k], segs[|segs| - 1]))
    || (exists k :: 0 <= k < |relPath| && Spans(x.glob, relPath[k], segs))
  }

  lemma {:induction false} CompileOne(x: Syntax, bases: seq<string>, rels: seq<seq<string>>, baseName: seq<string>,
                                      relPath: seq<seq<string>>, raws: seq<string>, i: nat, segs: seq<string>)
    requires i < |raws| && segs != []
    requires Compiled(x, bases, rels, segs) <==> Excluded(x, raws[..i], segs)
    requires var p := x.normal(raws[i]);
             var parts := Text.Split(p, '/');
             if '/' in p
             then baseName == bases && relPath == if ValidSegments(x, parts) then rels + [[STARS] + parts] else rels
             else relPath == rels && baseName == if p != "" && x.valid(p) then bases + [p] else bases
    ensures Compiled(x, baseName, relPath, segs) <==> Excluded(x, raws[..i + 1], segs)
  {
    assert raws[..i + 1] == raws[..i] + [raws[i]];
    var last := segs[|segs| - 1];
    assert Excluded(x, raws[..i + 1], segs) <==> Excluded(x, raws[..i], segs) || Hits(x, raws[i], segs);
    assert Compiled(x, baseName, relPath, segs) <==> Compiled(x, bases, rels, segs) || Hits(x, raws[i], segs) by {
      if k :| 0 <= k < |bases| && x.glob(bases[k], last) { assert baseName[k] == bases[k]; }
      if k :| 0 <= k < |rels| && Spans(x.glob, rels[k], segs) { assert relPath[k] == rels[k]; }
      if Hits(x, raws[i], segs) {
        if '/' in x.normal(raws[i]) {
          assert Spans(x.glob, relPath[|rels|], segs);
        } else {
          assert x.glob(baseName[|bases|], last);
        }
      }
    }
  }
}
