/** The checkpoint journal: an append-only text file with one encoded record per line, read back whole
    or not at all. */
module Journal {
  import opened Domain

  const MAX_LINE := 1024 * 1024  // a longer line makes the scanner fail

  datatype Header = Header(snapshotID: string, createdAt: int, identity: string)

  /** How records are written as lines and read back; the real one is JSON. */
  datatype Codec = Codec(
    encodeHeader: Header -> string,
    decodeHeader: string -> Option<Header>,
    encodeEntry: SnapshotFile -> string,
    decodeEntry: string -> Option<SnapshotFile>)

  /** Encodings are non-empty single lines that decode to what they encode; a torn encoding does not
      decode, and neither does a complete record with the beginning of another glued to it. */
  ghost predicate Lawful(c: Codec) {
    RoundTrips(c) && TornFails(c) && GluedFails(c)
  }

  ghost predicate RoundTrips(c: Codec) {
    && (forall h :: c.decodeHeader(c.encodeHeader(h)) == Some(h) && '\n' !in c.encodeHeader(h))
    && (forall e :: c.decodeEntry(c.encodeEntry(e)) == Some(e) && '\n' !in c.encodeEntry(e) && c.encodeEntry(e) != "")
  }

  ghost predicate TornFails(c: Codec) {
    && (forall h, n :: 0 <= n < |c.encodeHeader(h)| ==> c.decodeHeader(c.encodeHeader(h)[..n]).None?)
    && (forall e, n :: 0 < n < |c.encodeEntry(e)| ==> c.decodeEntry(c.encodeEntry(e)[..n]).None?)
  }

  ghost predicate GluedFails(c: Codec) {
    forall l, e, n :: 0 < n <= |c.encodeEntry(e)| ==>
      && (c.decodeEntry(l).Some? ==> c.decodeEntry(l + c.encodeEntry(e)[..n]).None?)
      && (c.decodeHeader(l).Some? ==> c.decodeHeader(l + c.encodeEntry(e)[..n]).None?)
  }

  // ------------------------------------------------ reading

  /** The terminated lines of a text and the unterminated rest. */
  datatype Scanned = Scanned(lines: seq<string>, rest: string)

  function Scan(text: string): Scanned {
    if text == "" then Scanned([], "")
    else
      var s := Scan(text[..|text| - 1]);
      if text[|text| - 1] == '\n' then Scanned(s.lines + [s.rest], "")
      else Scanned(s.lines, s.rest + [text[|text| - 1]])
  }

  /** What a line scanner delivers: an unterminated last line counts unless it is empty. */
  function Tokens(text: string): seq<string> {
    var s := Scan(text);
    s.lines + if s.rest == "" then [] else [s.rest]
  }

  datatype ReadResult = Rejected | Loaded(header: Header, entries: seq<SnapshotFile>)

  function LoadHeader(c: Codec, token: string): ReadResult {
    if |token| >= MAX_LINE then Rejected
    else
      match c.decodeHeader(token)
      case None => Rejected
      case Some(h) => if h.snapshotID == "" then Rejected else Loaded(h, [])
  }

  function LoadEntry(c: Codec, r: ReadResult, token: string): ReadResult {
    if r.Rejected? || |token| >= MAX_LINE then Rejected
    else if token == "" then r
    else
      match c.decodeEntry(token)
      case None => Rejected
      case Some(e) => r.(entries := r.entries + [e])
  }

  function Load(c: Codec, tokens: seq<string>): ReadResult {
    if tokens == [] then Rejected
    else if |tokens| == 1 then LoadHeader(c, tokens[0])
    else LoadEntry(c, Load(c, tokens[..|tokens| - 1]), tokens[|tokens| - 1])
  }

  function Read(c: Codec, text: string): ReadResult {
    Load(c, Tokens(text))
  }

  /** Reading a journal file: the header and the last recorded entry under each key, or nothing. */
  method ReadJournal(c: Codec, text: string) returns (header: Option<Header>, entries: map<string, SnapshotFile>)
    ensures header.None? <==> Read(c, text).Rejected?
    ensures header.None? ==> entries == map[]
    ensures header.Some? ==> header.value == Read(c, text).header && entries == LastWins(Read(c, text).entries)
  {
    header, entries := None, map[];
    var tokens := Tokens(text);
    if tokens == [] { return; }
    if |tokens[0]| >= MAX_LINE {
      RejectedStays(c, tokens, 1);
      return;
    }
    var h := c.decodeHeader(tokens[0]);
    if h.None? || h.value.snapshotID == "" {
      RejectedStays(c, tokens, 1);
      return;
    }
    ghost var found := LoadHeader(c, tokens[0]);
    assert tokens[..1] == [tokens[0]];
    for i := 1 to |tokens|
      invariant found == Load(c, tokens[..i]) && found.Loaded?
      invariant found.header == h.value && entries == LastWins(found.entries)
    {
      LoadStep(c, tokens, i);
      if |tokens[i]| >= MAX_LINE || (tokens[i] != "" && c.decodeEntry(tokens[i]).None?) {
        RejectedStays(c, tokens, i + 1);
        entries := map[];
        return;
      }
      if tokens[i] != "" {
        var e := c.decodeEntry(tokens[i]).value;
        LastWinsSnoc(found.entries, e);
        entries := entries[EntryKey(e) := e];
      }
      found := LoadEntry(c, found, tokens[i]);
    }
    assert tokens[..|tokens|] == tokens;
    header := h;
  }

  lemma {:induction false} LoadStep(c: Codec, tokens: seq<string>, n: nat)
    requires 0 < n < |tokens|
    ensures Load(c, tokens[..n + 1]) == LoadEntry(c, Load(c, tokens[..n]), tokens[n])
  {
    assert tokens[..n + 1][..n] == tokens[..n];
  }

  /** Once a prefix of the lines is rejected, so is the whole file. */
  lemma {:induction false} RejectedStays(c: Codec, tokens: seq<string>, n: nat)
    requires 0 < n <= |tokens| && Load(c, tokens[..n]).Rejected?
    ensures Load(c, tokens).Rejected?
    decreases |tokens| - n
  {
    if n < |tokens| {
      LoadStep(c, tokens, n);
      RejectedStays(c, tokens, n + 1);
    } else {
      assert tokens[..n] == tokens;
    }
  }

  // ------------------------------------------------ appending

  lemma {:induction false} ScanChar(text: string, ch: char)
    requires ch != '\n'
    ensures Scan(text + [ch]) == Scanned(Scan(text).lines, Scan(text).rest + [ch])
  {
    assert (text + [ch])[..|text|] == text;
  }

  lemma {:induction false} ScanAppend(text: string, x: string)
    requires '\n' !in x
    ensures Scan(text + x) == Scanned(Scan(text).lines, Scan(text).rest + x)
  {
    if x == "" {
      assert text + x == text && Scan(text).rest + x == Scan(text).rest;
    } else {
      var n := |x| - 1;
      ScanAppend(text, x[..n]);
      ScanChar(text + x[..n], x[n]);
      LastApart(text, x);
      LastApart(Scan(text).rest, x);
    }
  }

  lemma {:induction false} LastApart(a: string, x: string)
    requires x != ""
    ensures a + x == a + x[..|x| - 1] + [x[|x| - 1]]
  {
    assert x == x[..|x| - 1] + [x[|x| - 1]];
  }

  lemma {:induction false} ScanNewline(text: string)
    ensures Scan(text + "\n") == Scanned(Scan(text).lines + [Scan(text).rest], "")
  {
    assert (text + "\n")[..|text|] == text;
  }

  /** The line a record is appended as. */
  function Line(c: Codec, e: SnapshotFile): string {
    c.encodeEntry(e) + "\n"
  }

  /** After an append, whole or torn, the scanner delivers the old lines with what arrived of the new
      one glued to the unterminated rest. */
  lemma {:induction false} AppendTokens(c: Codec, text: string, e: SnapshotFile, n: nat)
    requires RoundTrips(c) && 0 < n <= |Line(c, e)|
    ensures var enc := c.encodeEntry(e);
            var part := if n <= |enc| then enc[..n] else enc;
            Tokens(text + Line(c, e)[..n]) == Scan(text).lines + [Scan(text).rest + part]
  {
    var enc := c.encodeEntry(e);
    if n <= |enc| {
      assert Line(c, e)[..n] == enc[..n];
      ScanAppend(text, enc[..n]);
    } else {
      assert text + Line(c, e)[..n] == (text + enc) + "\n";
      ScanAppend(text, enc);
      ScanNewline(text + enc);
    }
  }

  /** One more token behind a readable list: rejected, or one entry more. */
  lemma {:induction false} OneMoreToken(c: Codec, lines: seq<string>, e: SnapshotFile, n: nat)
    requires Lawful(c) && Load(c, lines).Loaded? && 0 < n <= |c.encodeEntry(e)|
    ensures var r := Load(c, lines + [c.encodeEntry(e)[..n]]);
            r.Rejected? || r == Load(c, lines).(entries := Load(c, lines).entries + [e])
  {
    var part := c.encodeEntry(e)[..n];
    assert (lines + [part])[..|lines|] == lines;
    if n == |c.encodeEntry(e)| { assert part == c.encodeEntry(e); }
  }

  /** Appending to a readable journal: whatever part of the line arrives, the file is then rejected, or
      reads as before, or reads as before plus the new entry. */
  lemma {:induction false} AppendedRead(c: Codec, text: string, e: SnapshotFile, n: nat)
    requires Lawful(c) && Read(c, text).Loaded? && n <= |Line(c, e)|
    ensures var r := Read(c, text + Line(c, e)[..n]);
            r.Rejected? || r == Read(c, text) || r == Read(c, text).(entries := Read(c, text).entries + [e])
  {
    if n == 0 {
      assert text + Line(c, e)[..0] == text;
    } else {
      var s, enc := Scan(text), c.encodeEntry(e);
      var k := if n <= |enc| then n else |enc|;
      assert enc[..|enc|] == enc;
      AppendTokens(c, text, e, n);
      TokensOf(text);
      if s.rest == "" {
        assert s.rest + enc[..k] == enc[..k];
        OneMoreToken(c, s.lines, e, k);
      } else {
        GluedIsRejected(c, s.lines, s.rest, e, k);
      }
    }
  }

  lemma {:induction false} TokensOf(text: string)
    ensures Tokens(text) == if Scan(text).rest == "" then Scan(text).lines else Scan(text).lines + [Scan(text).rest]
  {
  }

  /** A line that decodes stops decoding when the beginning of another is glued to it. */
  lemma {:induction false} GluedIsRejected(c: Codec, lines: seq<string>, last: string, e: SnapshotFile, n: nat)
    requires Lawful(c) && last != "" && Load(c, lines + [last]).Loaded? && 0 < n <= |c.encodeEntry(e)|
    ensures Load(c, lines + [last + c.encodeEntry(e)[..n]]).Rejected?
  {
    assert (lines + [last])[..|lines|] == lines;
    assert (lines + [last + c.encodeEntry(e)[..n]])[..|lines|] == lines;
  }

  /** A record that follows a terminated line is read back exactly when it fits a line; a longer one makes
      the whole journal unreadable. */
  lemma {:induction false} RecordIsDurable(c: Codec, text: string, e: SnapshotFile)
    requires Lawful(c) && Read(c, text).Loaded? && Scan(text).rest == ""
    ensures Read(c, text + Line(c, e))
            == if |c.encodeEntry(e)| < 1024 * 1024 then Read(c, text).(entries := Read(c, text).entries + [e])
               else Rejected
  {
    var s, enc := Scan(text), c.encodeEntry(e);
    AppendTokens(c, text, e, |Line(c, e)|);
    assert Line(c, e)[..|Line(c, e)|] == Line(c, e) && "" + enc == enc;
    assert (s.lines + [enc])[..|s.lines|] == s.lines;
    assert Tokens(text) == s.lines;
  }

  /** Blank lines say nothing. */
  lemma {:induction false} BlankLineIgnored(c: Codec, text: string)
    requires Read(c, text).Loaded? && Scan(text).rest == ""
    ensures Read(c, text + "\n") == Read(c, text)
  {
    var s := Scan(text);
    ScanNewline(text);
    assert Tokens(text) == s.lines && Tokens(text + "\n") == s.lines + [""];
    assert (s.lines + [""])[..|s.lines|] == s.lines;
  }

  /** A journal that can be read names a snapshot. */
  lemma {:induction false} LoadedIsNamed(c: Codec, tokens: seq<string>)
    ensures Load(c, tokens).Loaded? ==> Load(c, tokens).header.snapshotID != ""
  {
    if |tokens| > 1 { LoadedIsNamed(c, tokens[..|tokens| - 1]); }
  }

  /** A journal that can be read starts with its header, on a line of its own that decodes and fits. */
  lemma {:induction false} HeaderComesFirst(c: Codec, tokens: seq<string>)
    requires Load(c, tokens).Loaded?
    ensures tokens != [] && |tokens[0]| < 1024 * 1024 && c.decodeHeader(tokens[0]) == Some(Load(c, tokens).header)
  {
    if |tokens| > 1 { HeaderComesFirst(c, tokens[..|tokens| - 1]); }
  }

  // ------------------------------------------------ crashes

  /** Every byte prefix of the file is rejected or gives this header and a prefix of these entries. */
  ghost predicate CrashSafe(c: Codec, text: string, header: Header, log: seq<SnapshotFile>) {
    forall n :: 0 <= n <= |text| ==> CutReads(c, text[..n], header, log)
  }

  predicate CutReads(c: Codec, cut: string, header: Header, log: seq<SnapshotFile>) {
    Read(c, cut).Loaded? ==> Read(c, cut).header == header && Read(c, cut).entries <= log
  }

  /** The file as its writer sees it: readable up to its last record, or beyond repair. */
  predicate Settled(c: Codec, text: string, header: Header, log: seq<SnapshotFile>) {
    || Read(c, text) == Loaded(header, log)
    || (Read(c, text).Rejected? && Scan(text).rest == "" && Scan(text).lines != [])
  }

  /** A process writing to the journal. `dead` means a write failed and nothing more is written. */
  datatype Session = Session(text: string, header: Header, log: seq<SnapshotFile>, dead: bool)

  /** Records, writes that break off after `n` characters, and crashes that leave `n` characters of
      the file behind, each followed by a restart that reopens or replaces it. */
  datatype Op = Record(entry: SnapshotFile) | TornRecord(entry: SnapshotFile, n: nat) | Restart(n: nat, next: Header)

  function Start(c: Codec, header: Header): Session {
    Session(c.encodeHeader(header) + "\n", header, [], false)
  }

  function Do(c: Codec, s: Session, op: Op): Session {
    match op
    case Record(e) =>
      if s.dead then s else s.(text := s.text + Line(c, e), log := s.log + [e])
    case TornRecord(e, n) =>
      if s.dead || n >= |Line(c, e)| then s
      else s.(text := s.text + Line(c, e)[..n], log := s.log + [e], dead := true)
    case Restart(n, next) =>
      var text := if n <= |s.text| then s.text[..n] else s.text;
      match Read(c, text)
      case Rejected => Start(c, next)
      case Loaded(h, entries) => Session(text, h, entries, false)
  }

  function DoAll(c: Codec, s: Session, ops: seq<Op>): Session {
    if ops == [] then s else Do(c, DoAll(c, s, ops[..|ops| - 1]), ops[|ops| - 1])
  }

  predicate GoodOps(ops: seq<Op>) {
    forall i :: 0 <= i < |ops| && ops[i].Restart? ==> GoodHeader(ops[i].next)
  }

  predicate GoodHeader(h: Header) {
    h.snapshotID != ""
  }

  ghost predicate SessionOk(c: Codec, s: Session) {
    CrashSafe(c, s.text, s.header, s.log) && (s.dead || Settled(c, s.text, s.header, s.log))
  }

  lemma {:induction false} StartOk(c: Codec, header: Header)
    requires Lawful(c) && GoodHeader(header)
    ensures SessionOk(c, Start(c, header))
  {
    var enc := c.encodeHeader(header);
    var text := enc + "\n";
    forall n | 0 <= n <= |text| ensures CutReads(c, text[..n], header, []) { StartCut(c, header, n); }
    HeaderWhole(c, header);
  }

  lemma {:induction false} StartCut(c: Codec, header: Header, n: nat)
    requires Lawful(c) && GoodHeader(header) && n <= |c.encodeHeader(header)| + 1
    ensures CutReads(c, (c.encodeHeader(header) + "\n")[..n], header, [])
  {
    var enc := c.encodeHeader(header);
    var text := enc + "\n";
    if n <= |enc| {
      HeaderCut(c, header, n);
      assert text[..n] == enc[..n];
    } else {
      assert text[..n] == text;
      HeaderWhole(c, header);
    }
  }

  lemma {:induction false} HeaderWhole(c: Codec, header: Header)
    requires RoundTrips(c) && GoodHeader(header)
    ensures var enc := c.encodeHeader(header);
            && Scan(enc + "\n") == Scanned([enc], "")
            && Read(c, enc + "\n") == LoadHeader(c, enc)
            && (LoadHeader(c, enc).Rejected? || LoadHeader(c, enc) == Loaded(header, []))
  {
    var enc := c.encodeHeader(header);
    ScanAppend("", enc);
    assert "" + enc == enc;
    ScanNewline(enc);
    assert Tokens(enc + "\n") == [enc];
  }

  lemma {:induction false} HeaderCut(c: Codec, header: Header, n: nat)
    requires RoundTrips(c) && TornFails(c) && GoodHeader(header) && n <= |c.encodeHeader(header)|
    ensures CutReads(c, c.encodeHeader(header)[..n], header, [])
  {
    var cut := c.encodeHeader(header)[..n];
    ScanAppend("", cut);
    assert "" + cut == cut;
    if cut != "" {
      TokensOf(cut);
      assert Tokens(cut) == [cut];
      if n == |c.encodeHeader(header)| { assert cut == c.encodeHeader(header); }
    }
  }

  /** Nothing appended to a terminated, rejected file makes it readable. */
  lemma {:induction false} BeyondRepair(c: Codec, text: string, more: string)
    requires Read(c, text).Rejected? && Scan(text).rest == "" && Scan(text).lines != []
    ensures Read(c, text + more).Rejected?
  {
    var lines := Scan(text).lines;
    LinesStay(text, more);
    assert Tokens(text) == lines;
    assert Tokens(text + more)[..|lines|] == lines;
    RejectedStays(c, Tokens(text + more), |lines|);
  }

  lemma {:induction false} LinesStay(text: string, more: string)
    ensures Scan(text).lines <= Scan(text + more).lines
  {
    if more == "" {
      assert text + more == text;
    } else {
      LinesStay(text, more[..|more| - 1]);
      assert (text + more)[..|text + more| - 1] == text + more[..|more| - 1];
    }
  }

  /** Appending all or part of a line keeps every byte prefix safe. */
  lemma {:induction false} AppendSafe(c: Codec, text: string, header: Header, log: seq<SnapshotFile>, e: SnapshotFile,
                                      k: nat)
    requires Lawful(c) && CrashSafe(c, text, header, log) && Settled(c, text, header, log) && k <= |Line(c, e)|
    ensures CrashSafe(c, text + Line(c, e)[..k], header, log + [e])
  {
    var after := text + Line(c, e)[..k];
    forall n | 0 <= n <= |after| ensures CutReads(c, after[..n], header, log + [e]) {
      if n <= |text| {
        assert after[..n] == text[..n];
        assert CutReads(c, text[..n], header, log);
      } else {
        assert after[..n] == text + Line(c, e)[..n - |text|];
        if Read(c, text).Loaded? {
          AppendedRead(c, text, e, n - |text|);
        } else {
          BeyondRepair(c, text, Line(c, e)[..n - |text|]);
        }
      }
    }
  }

  /** An appended line terminates the file. */
  lemma {:induction false} LineEnds(c: Codec, text: string, e: SnapshotFile)
    requires RoundTrips(c)
    ensures Scan(text + Line(c, e)) == Scanned(Scan(text).lines + [Scan(text).rest + c.encodeEntry(e)], "")
  {
    var enc := c.encodeEntry(e);
    ScanAppend(text, enc);
    ScanNewline(text + enc);
    assert text + Line(c, e) == text + enc + "\n";
  }

  /** Behind a terminated line the new one is one more token. */
  lemma {:induction false} SettlesAfterLine(c: Codec, text: string, e: SnapshotFile)
    requires Lawful(c) && Read(c, text).Loaded? && Scan(text).rest == ""
    ensures Settled(c, text + Line(c, e), Read(c, text).header, Read(c, text).entries + [e])
  {
    var lines, enc := Scan(text).lines, c.encodeEntry(e);
    LineEnds(c, text, e);
    assert Scan(text).rest + enc == enc;
    TokensOf(text);
    TokensOf(text + Line(c, e));
    assert (lines + [enc])[..|lines|] == lines;
  }

  /** Glued to an unterminated line it spoils it. */
  lemma {:induction false} SettlesGlued(c: Codec, text: string, header: Header, log: seq<SnapshotFile>, e: SnapshotFile)
    requires Lawful(c) && Read(c, text).Loaded? && Scan(text).rest != ""
    ensures Settled(c, text + Line(c, e), header, log)
  {
    var s, enc := Scan(text), c.encodeEntry(e);
    LineEnds(c, text, e);
    TokensOf(text + Line(c, e));
    assert enc[..|enc|] == enc;
    GluedIsRejected(c, s.lines, s.rest, e, |enc|);
  }

  lemma {:induction false} SettlesRejected(c: Codec, text: string, header: Header, log: seq<SnapshotFile>,
                                           e: SnapshotFile)
    requires Lawful(c) && Read(c, text).Rejected? && Scan(text).rest == "" && Scan(text).lines != []
    ensures Settled(c, text + Line(c, e), header, log)
  {
    LineEnds(c, text, e);
    BeyondRepair(c, text, Line(c, e));
  }

  lemma {:induction false} RecordSettles(c: Codec, text: string, header: Header, log: seq<SnapshotFile>,
                                         e: SnapshotFile)
    requires Lawful(c) && Settled(c, text, header, log)
    ensures Settled(c, text + Line(c, e), header, log + [e])
  {
    if Read(c, text).Rejected? {
      SettlesRejected(c, text, header, log + [e], e);
    } else if Scan(text).rest == "" {
      SettlesAfterLine(c, text, e);
    } else {
      SettlesGlued(c, text, header, log + [e], e);
    }
  }

  /** Non-empty lines delivered by the scanner. */
  function Filled(tokens: seq<string>): nat {
    if tokens == [] then 0
    else Filled(tokens[..|tokens| - 1]) + if tokens[|tokens| - 1] == "" then 0 else 1
  }

  lemma {:induction false} EntriesAreLines(c: Codec, tokens: seq<string>)
    requires Lawful(c) && Load(c, tokens).Loaded?
    ensures |Load(c, tokens).entries| == Filled(tokens) - 1
  {
    if |tokens| > 1 {
      EntriesAreLines(c, tokens[..|tokens| - 1]);
    } else {
      assert tokens[..0] == [];
      EmptyIsNoHeader(c);
    }
  }

  lemma {:induction false} EmptyIsNoHeader(c: Codec)
    requires Lawful(c)
    ensures c.decodeHeader("").None?
  {
    var g, h := Header("x", 0, ""), Header("", 0, "");
    var k := if c.encodeHeader(h) != "" then h else g;
    assert c.decodeHeader(c.encodeHeader(g)) != c.decodeHeader(c.encodeHeader(h));
    assert c.decodeHeader(c.encodeHeader(k)[..0]).None? && c.encodeHeader(k)[..0] == "";
  }

  lemma {:induction false} FilledGrows(text: string, n: nat)
    requires n <= |text|
    ensures Filled(Tokens(text[..n])) <= Filled(Tokens(text))
    decreases |text| - n
  {
    if n == |text| {
      assert text[..n] == text;
    } else {
      FilledGrows(text, n + 1);
      assert text[..n + 1][..n] == text[..n];
      FilledStep(text[..n], text[n]);
      assert text[..n] + [text[n]] == text[..n + 1];
    }
  }

  lemma {:induction false} FilledStep(text: string, ch: char)
    ensures Filled(Tokens(text)) <= Filled(Tokens(text + [ch]))
  {
    var s := Scan(text);
    assert (text + [ch])[..|text|] == text;
    FilledSnoc(s.lines, s.rest);
    FilledSnoc(s.lines, s.rest + [ch]);
    assert Tokens(text) == if s.rest == "" then s.lines else s.lines + [s.rest];
    assert Tokens(text + [ch]) == s.lines + [if ch == '\n' then s.rest else s.rest + [ch]];
  }

  lemma {:induction false} FilledSnoc(lines: seq<string>, x: string)
    ensures Filled(lines + [x]) == Filled(lines) + if x == "" then 0 else 1
  {
    assert (lines + [x])[..|lines|] == lines;
  }

  /** Restarting after a crash keeps the file safe, now for the entries that survived. */
  lemma {:induction false} RestartSafe(c: Codec, text: string, header: Header, log: seq<SnapshotFile>, n: nat)
    requires Lawful(c) && CrashSafe(c, text, header, log) && n <= |text| && Read(c, text[..n]).Loaded?
    ensures CrashSafe(c, text[..n], header, Read(c, text[..n]).entries)
  {
    var cut := text[..n];
    var kept := Read(c, cut).entries;
    assert CutReads(c, cut, header, log);
    forall k | 0 <= k <= |cut| ensures CutReads(c, cut[..k], header, kept) {
      assert cut[..k] == text[..k];
      assert CutReads(c, text[..k], header, log);
      if Read(c, cut[..k]).Loaded? {
        FilledGrows(cut, k);
        EntriesAreLines(c, Tokens(cut));
        EntriesAreLines(c, Tokens(cut[..k]));
      }
    }
  }

  function Lines(c: Codec, entries: seq<SnapshotFile>): string {
    if entries == [] then "" else Lines(c, entries[..|entries| - 1]) + Line(c, entries[|entries| - 1])
  }

  predicate AllFit(c: Codec, entries: seq<SnapshotFile>) {
    forall e :: e in entries ==> |c.encodeEntry(e)| < 1024 * 1024
  }

  /** Round trip: a header and any entries, written line by line, read back as they were, exactly when every
      line fits; otherwise the journal is unreadable. */
  lemma {:induction false} JournalRoundTrip(c: Codec, header: Header, entries: seq<SnapshotFile>)
    requires Lawful(c) && GoodHeader(header)
    ensures var text := c.encodeHeader(header) + "\n" + Lines(c, entries);
            && Scan(text).rest == "" && Scan(text).lines != []
            && Read(c, text) == if |c.encodeHeader(header)| < 1024 * 1024 && AllFit(c, entries)
                                then Loaded(header, entries) else Rejected
  {
    var start := c.encodeHeader(header) + "\n";
    HeaderWhole(c, header);
    if entries == [] {
      assert start + "" == start;
    } else {
      var n := |entries| - 1;
      var before, e := start + Lines(c, entries[..n]), entries[n];
      JournalRoundTrip(c, header, entries[..n]);
      assert start + Lines(c, entries) == before + Line(c, e);
      assert entries == entries[..n] + [e];
      LineEnds(c, before, e);
      if Read(c, before).Loaded? {
        RecordIsDurable(c, before, e);
      } else {
        BeyondRepair(c, before, Line(c, e));
      }
    }
  }

  /** A restart goes on with what can be read of what is left: the header, and a prefix of the entries, in the
      text as it is; only an unreadable rest is replaced. */
  lemma {:induction false} RestartContinues(c: Codec, s: Session, n: nat, next: Header)
    requires SessionOk(c, s) && n <= |s.text|
    ensures var t := Do(c, s, Restart(n, next));
            if Read(c, s.text[..n]).Loaded?
            then t.text == s.text[..n] && t.header == s.header && t.log <= s.log && !t.dead
            else t.text == c.encodeHeader(next) + "\n" && t.header == next && t.log == [] && !t.dead
  {
    assert CutReads(c, s.text[..n], s.header, s.log);
  }

  lemma {:induction false} OpKeeps(c: Codec, s: Session, op: Op)
    requires Lawful(c) && SessionOk(c, s) && (op.Restart? ==> GoodHeader(op.next))
    ensures SessionOk(c, Do(c, s, op))
  {
    match op
    case Record(e) =>
      if !s.dead {
        AppendSafe(c, s.text, s.header, s.log, e, |Line(c, e)|);
        assert Line(c, e)[..|Line(c, e)|] == Line(c, e);
        RecordSettles(c, s.text, s.header, s.log, e);
      }
    case TornRecord(e, n) =>
      if !s.dead && n < |Line(c, e)| { AppendSafe(c, s.text, s.header, s.log, e, n); }
    case Restart(n, next) =>
      StartOk(c, next);
      var k := if n <= |s.text| then n else |s.text|;
      assert s.text[..|s.text|] == s.text;
      if Read(c, s.text[..k]).Loaded? {
        assert CutReads(c, s.text[..k], s.header, s.log);
        RestartSafe(c, s.text, s.header, s.log, k);
      }
  }

  lemma {:induction false} OpsKeep(c: Codec, header: Header, ops: seq<Op>)
    requires Lawful(c) && GoodHeader(header) && GoodOps(ops)
    ensures SessionOk(c, DoAll(c, Start(c, header), ops))
  {
    if ops == [] {
      StartOk(c, header);
    } else {
      OpsKeep(c, header, ops[..|ops| - 1]);
      OpKeeps(c, DoAll(c, Start(c, header), ops[..|ops| - 1]), ops[|ops| - 1]);
    }
  }

  /** Crash safety: after any alternation of records, torn writes, crashes and restarts, cutting the
      file anywhere leaves a file that is rejected, or that reads as the current header and the
      last-entry-wins map of a prefix of the entries recorded since the surviving ones. */
  lemma {:induction false} JournalCrashSafety(c: Codec, header: Header, ops: seq<Op>, n: nat)
    requires Lawful(c) && GoodHeader(header) && GoodOps(ops)
    requires n <= |DoAll(c, Start(c, header), ops).text|
    ensures var s := DoAll(c, Start(c, header), ops);
            var r := Read(c, s.text[..n]);
            r.Loaded? ==> r.header == s.header && exists k :: 0 <= k <= |s.log| && r.entries == s.log[..k]
                                                              && LastWins(r.entries) == LastWins(s.log[..k])
  {
    OpsKeep(c, header, ops);
    var s := DoAll(c, Start(c, header), ops);
    assert CutReads(c, s.text[..n], s.header, s.log);
    var r := Read(c, s.text[..n]);
    if r.Loaded? { assert r.entries == s.log[..|r.entries|]; }
  }

  /** A poisoned (emptied) journal is rejected. */
  lemma {:induction false} PoisonedIsRejected(c: Codec)
    ensures Read(c, "").Rejected?
  {
    assert Tokens("") == [];
  }
}
