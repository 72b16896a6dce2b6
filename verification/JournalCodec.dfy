/** A codec that meets the journal's laws, so that they are not too much to ask: every field is written
    with a length prefix, as numerals and colons. */
module JournalCodec {
  import opened Domain
  import opened Journal
  import opened Text

  /** A string as its character codes. */
  function Codes(s: string): string {
    if s == "" then "" else Decimal(s[0] as int) + ":" + Codes(s[1..])
  }

  lemma {:induction false} CodesInjective(a: string, b: string)
    requires Codes(a) == Codes(b)
    ensures a == b
  {
    if a != "" && b != "" {
      ColonAfterDigits(Decimal(a[0] as int), Decimal(b[0] as int), Codes(a[1..]), Codes(b[1..]));
      DecimalInjective(a[0] as int, b[0] as int);
      CodesInjective(a[1..], b[1..]);
      assert a == [a[0]] + a[1..] && b == [b[0]] + b[1..];
    }
  }

  lemma {:induction false} CodesOneLine(s: string)
    ensures '\n' !in Codes(s)
  {
    if s != "" { CodesOneLine(s[1..]); }
  }

  function Signed(n: int): string {
    if n < 0 then "-" + Decimal(-n) else "+" + Decimal(n)
  }

  lemma {:induction false} SignedInjective(a: int, b: int)
    requires Signed(a) == Signed(b)
    ensures a == b
  {
    assert Signed(a)[0] == Signed(b)[0] && Signed(a)[1..] == Signed(b)[1..];
    if a < 0 { DecimalInjective(-a, -b); } else { DecimalInjective(a, b); }
  }

  function Maybe(s: Option<string>): string {
    if s.None? then "-" else "+" + Codes(s.value)
  }

  lemma {:induction false} MaybeInjective(a: Option<string>, b: Option<string>)
    requires Maybe(a) == Maybe(b)
    ensures a == b
  {
    assert Maybe(a)[0] == Maybe(b)[0];
    if a.Some? {
      assert Maybe(a)[1..] == Codes(a.value) && Maybe(b)[1..] == Codes(b.value);
      CodesInjective(a.value, b.value);
    }
  }

  /** Fields one after the other. */
  function Fields(fs: seq<string>): string {
    if fs == [] then "" else Field(fs[0]) + Fields(fs[1..])
  }

  /** Equally many fields, followed by anything, are not other such fields. */
  lemma {:induction false} FieldsPrefixFree(fs: seq<string>, gs: seq<string>, x: string)
    requires |fs| == |gs| && Fields(fs) + x == Fields(gs)
    ensures fs == gs && x == ""
  {
    if fs != [] {
      assert Fields(fs) + x == Field(fs[0]) + (Fields(fs[1..]) + x);
      FieldDecodes(fs[0], gs[0], Fields(fs[1..]) + x, Fields(gs[1..]));
      FieldsPrefixFree(fs[1..], gs[1..], x);
      assert fs == [fs[0]] + fs[1..] && gs == [gs[0]] + gs[1..];
    }
  }

  lemma {:induction false} FieldsOneLine(fs: seq<string>)
    requires forall f :: f in fs ==> '\n' !in f
    ensures '\n' !in Fields(fs) && (fs != [] ==> Fields(fs) != "")
  {
    if fs != [] { FieldsOneLine(fs[1..]); }
  }

  function EntryFields(e: SnapshotFile): seq<string> {
    [Codes(e.sourcePath), Codes(e.backupPath), Decimal(e.size), Signed(e.modTime), Maybe(e.checksum), Decimal(e.mode),
     Codes(e.originalPath)]
  }

  function EntryText(e: SnapshotFile): string {
    Fields(EntryFields(e))
  }

  function HeaderFields(h: Header): seq<string> {
    [Codes(h.snapshotID), Signed(h.createdAt), Codes(h.identity)]
  }

  function HeaderText(h: Header): string {
    Fields(HeaderFields(h))
  }

  lemma {:induction false} EntryOneLine(e: SnapshotFile)
    ensures '\n' !in EntryText(e) && EntryText(e) != ""
  {
    CodesOneLine(e.sourcePath);
    CodesOneLine(e.backupPath);
    CodesOneLine(e.originalPath);
    if e.checksum.Some? { CodesOneLine(e.checksum.value); }
    FieldsOneLine(EntryFields(e));
  }

  lemma {:induction false} HeaderOneLine(h: Header)
    ensures '\n' !in HeaderText(h) && HeaderText(h) != ""
  {
    CodesOneLine(h.snapshotID);
    CodesOneLine(h.identity);
    FieldsOneLine(HeaderFields(h));
  }

  /** An encoding followed by anything is not another encoding. */
  lemma {:induction false} EntryPrefixFree(a: SnapshotFile, b: SnapshotFile, x: string)
    requires EntryText(a) + x == EntryText(b)
    ensures a == b && x == ""
  {
    FieldsPrefixFree(EntryFields(a), EntryFields(b), x);
    SameFields(a, b);
  }

  lemma {:induction false} SameFields(a: SnapshotFile, b: SnapshotFile)
    requires EntryFields(a) == EntryFields(b)
    ensures a == b
  {
    var f, g := EntryFields(a), EntryFields(b);
    assert f[0] == g[0] && f[1] == g[1] && f[2] == g[2] && f[3] == g[3] && f[4] == g[4] && f[5] == g[5] && f[6] == g[6];
    CodesInjective(a.sourcePath, b.sourcePath);
    CodesInjective(a.backupPath, b.backupPath);
    DecimalInjective(a.size, b.size);
    SignedInjective(a.modTime, b.modTime);
    MaybeInjective(a.checksum, b.checksum);
    DecimalInjective(a.mode, b.mode);
    CodesInjective(a.originalPath, b.originalPath);
  }

  lemma {:induction false} HeaderPrefixFree(a: Header, b: Header, x: string)
    requires HeaderText(a) + x == HeaderText(b)
    ensures a == b && x == ""
  {
    FieldsPrefixFree(HeaderFields(a), HeaderFields(b), x);
    var f, g := HeaderFields(a), HeaderFields(b);
    assert f[0] == g[0] && f[1] == g[1] && f[2] == g[2];
    CodesInjective(a.snapshotID, b.snapshotID);
    SignedInjective(a.createdAt, b.createdAt);
    CodesInjective(a.identity, b.identity);
  }

  ghost function ReadEntry(l: string): (r: Option<SnapshotFile>)
    ensures r.Some? ==> EntryText(r.value) == l
    ensures r.None? ==> forall e :: EntryText(e) != l
  {
    if exists e :: EntryText(e) == l then (var e :| EntryText(e) == l; Some(e)) else None
  }

  ghost function ReadHeader(l: string): (r: Option<Header>)
    ensures r.Some? ==> HeaderText(r.value) == l
    ensures r.None? ==> forall h :: HeaderText(h) != l
  {
    if exists h :: HeaderText(h) == l then (var h :| HeaderText(h) == l; Some(h)) else None
  }

  lemma {:induction false} EntryLaws(e: SnapshotFile, n: nat)
    ensures ReadEntry(EntryText(e)) == Some(e)
    ensures 0 < n < |EntryText(e)| ==> ReadEntry(EntryText(e)[..n]).None?
  {
    var text := EntryText(e);
    assert text + "" == text;
    if ReadEntry(text).Some? { EntryPrefixFree(ReadEntry(text).value, e, ""); }
    if 0 < n < |text| && ReadEntry(text[..n]).Some? {
      assert text[..n] + text[n..] == text;
      EntryPrefixFree(ReadEntry(text[..n]).value, e, text[n..]);
    }
  }

  lemma {:induction false} GlueLaws(l: string, x: string)
    requires x != ""
    ensures ReadEntry(l).Some? ==> ReadEntry(l + x).None?
    ensures ReadHeader(l).Some? ==> ReadHeader(l + x).None?
  {
    if ReadEntry(l).Some? && ReadEntry(l + x).Some? { EntryPrefixFree(ReadEntry(l).value, ReadEntry(l + x).value, x); }
    if ReadHeader(l).Some? && ReadHeader(l + x).Some? {
      HeaderPrefixFree(ReadHeader(l).value, ReadHeader(l + x).value, x);
    }
  }

  lemma {:induction false} HeaderLaws(h: Header, n: nat)
    ensures ReadHeader(HeaderText(h)) == Some(h)
    ensures n < |HeaderText(h)| ==> ReadHeader(HeaderText(h)[..n]).None?
  {
    var text := HeaderText(h);
    assert text + "" == text;
    if ReadHeader(text).Some? { HeaderPrefixFree(ReadHeader(text).value, h, ""); }
    if n < |text| && ReadHeader(text[..n]).Some? {
      assert text[..n] + text[n..] == text;
      HeaderPrefixFree(ReadHeader(text[..n]).value, h, text[n..]);
    }
  }

  /** The laws of a journal codec can be met. */
  lemma {:induction false} LawfulCodecExists() returns (c: Codec)
    ensures Lawful(c)
  {
    c := Codec(HeaderText, l => ReadHeader(l), EntryText, l => ReadEntry(l));
    forall h ensures c.decodeHeader(c.encodeHeader(h)) == Some(h) && '\n' !in c.encodeHeader(h) {
      HeaderLaws(h, 0);
      HeaderOneLine(h);
    }
    forall e ensures c.decodeEntry(c.encodeEntry(e)) == Some(e) && '\n' !in c.encodeEntry(e) && c.encodeEntry(e) != "" {
      EntryLaws(e, 0);
      EntryOneLine(e);
    }
    forall h, n | 0 <= n < |c.encodeHeader(h)| ensures c.decodeHeader(c.encodeHeader(h)[..n]).None? {
      HeaderLaws(h, n);
    }
    forall e, n | 0 < n < |c.encodeEntry(e)| ensures c.decodeEntry(c.encodeEntry(e)[..n]).None? { EntryLaws(e, n); }
    forall l, e, n | 0 < n <= |c.encodeEntry(e)|
      ensures (c.decodeEntry(l).Some? ==> c.decodeEntry(l + c.encodeEntry(e)[..n]).None?)
           && (c.decodeHeader(l).Some? ==> c.decodeHeader(l + c.encodeEntry(e)[..n]).None?)
    {
      GlueLaws(l, c.encodeEntry(e)[..n]);
    }
  }
}
