/** Joining and splitting text, decimal numerals, and length-prefixed fields. */
module Text {
  function Join(parts: seq<string>, sep: char): string {
    if parts == [] then "" else if |parts| == 1 then parts[0] else parts[0] + [sep] + Join(parts[1..], sep)
  }

  function Split(s: string, sep: char): (pieces: seq<string>)
    ensures pieces != []
  {
    if s == "" then [""] else Grow(s[0], Split(s[1..], sep), sep)
  }

  /** The pieces of a string with one more character in front. */
  function Grow(ch: char, pieces: seq<string>, sep: char): (more: seq<string>)
    requires pieces != []
    ensures more != []
  {
    if ch == sep then [""] + pieces else [[ch] + pieces[0]] + pieces[1..]
  }

  /** The separator-free pieces of all parts, in order. */
  function Pieces(parts: seq<string>, sep: char): seq<string> {
    if parts == [] then [] else Split(parts[0], sep) + Pieces(parts[1..], sep)
  }

  lemma {:induction false} GrowConcat(ch: char, x: seq<string>, y: seq<string>, sep: char)
    requires x != []
    ensures Grow(ch, x + y, sep) == Grow(ch, x, sep) + y
  {
    assert (x + y)[1..] == x[1..] + y;
  }

  lemma {:induction false} SplitConcat(a: string, b: string, sep: char)
    ensures Split(a + [sep] + b, sep) == Split(a, sep) + Split(b, sep)
  {
    var s := a + [sep] + b;
    if a == "" {
      assert s[1..] == b;
    } else {
      assert s[1..] == a[1..] + [sep] + b;
      SplitConcat(a[1..], b, sep);
      GrowConcat(a[0], Split(a[1..], sep), Split(b, sep), sep);
    }
  }

  lemma {:induction false} SplitJoin(parts: seq<string>, sep: char)
    requires parts != []
    ensures Split(Join(parts, sep), sep) == Pieces(parts, sep)
  {
    if |parts| == 1 {
      assert Pieces(parts, sep) == Split(parts[0], sep) + [];
    } else {
      SplitJoin(parts[1..], sep);
      SplitConcat(parts[0], Join(parts[1..], sep), sep);
    }
  }

  /** Joining the pieces of a string gives it back. */
  lemma {:induction false} JoinSplit(s: string, sep: char)
    ensures Join(Split(s, sep), sep) == s
  {
    if s != "" {
      JoinSplit(s[1..], sep);
      var rest := Split(s[1..], sep);
      assert s == [s[0]] + s[1..];
      if s[0] == sep {
        assert ([""] + rest)[1..] == rest;
      } else {
        assert Grow(s[0], rest, sep)[1..] == rest[1..];
        if |rest| > 1 {
          assert [s[0]] + rest[0] + [sep] + Join(rest[1..], sep) == [s[0]] + (rest[0] + [sep] + Join(rest[1..], sep));
        }
      }
    }
  }

  lemma {:induction false} PiecesOfFree(parts: seq<string>, sep: char)
    requires forall p :: p in parts ==> sep !in p
    ensures Pieces(parts, sep) == parts
  {
    if parts != [] {
      SplitFree(parts[0], sep);
      PiecesOfFree(parts[1..], sep);
    }
  }

  lemma {:induction false} SplitFree(s: string, sep: char)
    requires sep !in s
    ensures Split(s, sep) == [s]
  {
    if s != "" {
      SplitFree(s[1..], sep);
      assert s == [s[0]] + s[1..];
    }
  }

  /** Separator-free parts can be read back from their join. */
  lemma {:induction false} JoinInjective(a: seq<string>, b: seq<string>, sep: char)
    requires a != [] && b != [] && Join(a, sep) == Join(b, sep)
    requires (forall p :: p in a ==> sep !in p) && (forall p :: p in b ==> sep !in p)
    ensures a == b
  {
    SplitJoin(a, sep);
    SplitJoin(b, sep);
    PiecesOfFree(a, sep);
    PiecesOfFree(b, sep);
  }

  // ------------------------------------------------ numerals

  function Digit(d: nat): char
    requires d < 10
  {
    '0' + d as char
  }

  function Decimal(n: nat): (s: string)
    ensures s != "" && forall i :: 0 <= i < |s| ==> '0' <= s[i] <= '9'
  {
    if n < 10 then [Digit(n)] else Decimal(n / 10) + [Digit(n % 10)]
  }

  lemma {:induction false} DecimalLength(n: nat)
    ensures |Decimal(n)| == 1 <==> n < 10
  {
    if n >= 10 { assert |Decimal(n)| == |Decimal(n / 10)| + 1; }
  }

  lemma {:induction false} DecimalInjective(a: nat, b: nat)
    requires Decimal(a) == Decimal(b)
    ensures a == b
  {
    DecimalLength(a);
    DecimalLength(b);
    var s, t := Decimal(a), Decimal(b);
    assert s[|s| - 1] == Digit(a % 10) && t[|t| - 1] == Digit(b % 10);
    if a >= 10 {
      assert s[..|s| - 1] == Decimal(a / 10) && t[..|t| - 1] == Decimal(b / 10);
      DecimalInjective(a / 10, b / 10);
    }
  }

  /** The number a numeral stands for. */
  function Value(s: string): int {
    if s == "" then 0 else Value(s[..|s| - 1]) * 10 + (s[|s| - 1] as int - '0' as int)
  }

  /** Reading a numeral gives the number back, and it has no leading zero. */
  lemma {:induction false} DecimalReads(n: nat)
    ensures Value(Decimal(n)) == n && (n > 0 ==> Decimal(n)[0] != '0')
  {
    if n < 10 {
      assert Decimal(n)[..0] == "";
    } else {
      DecimalReads(n / 10);
      var s := Decimal(n);
      assert s[..|s| - 1] == Decimal(n / 10) && s[|s| - 1] == Digit(n % 10);
    }
  }

  // ------------------------------------------------ length prefixes

  /** A length-prefixed field. */
  function Field(f: string): string {
    Decimal(|f|) + ":" + f
  }

  /** Everything before the first colon. */
  function UntilColon(s: string): string {
    if s == "" || s[0] == ':' then "" else [s[0]] + UntilColon(s[1..])
  }

  lemma {:induction false} UntilColonOf(a: string, x: string)
    requires ':' !in a
    ensures UntilColon(a + ":" + x) == a
  {
    if a != "" {
      UntilColonOf(a[1..], x);
      assert (a + ":" + x)[1..] == a[1..] + ":" + x;
      assert a == [a[0]] + a[1..];
    }
  }

  /** The colon of a length prefix ends it, whatever the field contains. */
  lemma {:induction false} ColonAfterDigits(a: string, b: string, x: string, y: string)
    requires ':' !in a && ':' !in b && a + ":" + x == b + ":" + y
    ensures a == b && x == y
  {
    UntilColonOf(a, x);
    UntilColonOf(b, y);
    assert (a + ":" + x)[|a| + 1..] == x && (b + ":" + y)[|b| + 1..] == y;
  }

  lemma {:induction false} FieldDecodes(f: string, g: string, x: string, y: string)
    requires Field(f) + x == Field(g) + y
    ensures f == g && x == y
  {
    assert Field(f) + x == Decimal(|f|) + ":" + (f + x);
    assert Field(g) + y == Decimal(|g|) + ":" + (g + y);
    ColonAfterDigits(Decimal(|f|), Decimal(|g|), f + x, g + y);
    DecimalInjective(|f|, |g|);
    assert (f + x)[..|f|] == f && (g + y)[..|g|] == g;
    assert (f + x)[|f|..] == x && (g + y)[|g|..] == y;
  }
}
