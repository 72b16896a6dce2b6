/** The tamper-evident audit log: a hash chain that survives dropped writes and file rotation. */
module Audit {
  import opened Domain
  import opened Text

  const GENESIS := "genesis"
  const BROKEN := "chain-broken"
  const ROTATED := "log_rotated"

  datatype Record = Record(time: string, kind: string, command: string, details: Option<string>, prev: string,
                           hash: string)

  // ------------------------------------------------ what is hashed

  function Encoded(time: string, kind: string, command: string, prev: string, details: Option<string>): string {
    Field(time) + (Field(kind) + (Field(command) + (Field(prev) + if details.Some? then Field(details.value) else "")))
  }

  /** Length prefixes make the hashed text unambiguous: no field can imitate a delimiter. */
  lemma {:induction false} EncodedInjective(a: Record, b: Record)
    requires Encoded(a.time, a.kind, a.command, a.prev, a.details)
             == Encoded(b.time, b.kind, b.command, b.prev, b.details)
    ensures a.time == b.time && a.kind == b.kind && a.command == b.command && a.prev == b.prev && a.details == b.details
  {
    var x4 := if a.details.Some? then Field(a.details.value) else "";
    var y4 := if b.details.Some? then Field(b.details.value) else "";
    var x3, y3 := Field(a.prev) + x4, Field(b.prev) + y4;
    var x2, y2 := Field(a.command) + x3, Field(b.command) + y3;
    FieldDecodes(a.time, b.time, Field(a.kind) + x2, Field(b.kind) + y2);
    FieldDecodes(a.kind, b.kind, x2, y2);
    FieldDecodes(a.command, b.command, x3, y3);
    FieldDecodes(a.prev, b.prev, x4, y4);
    if a.details.Some? && b.details.Some? {
      assert x4 == Field(a.details.value) + "" && y4 == Field(b.details.value) + "";
      FieldDecodes(a.details.value, b.details.value, "", "");
    }
  }

  // ------------------------------------------------ logging

  /** The hash function, the serialised length of a record, the size a log file may reach, and the size of
      the file found when the process starts. */
  datatype Setup = Setup(hash: string -> string, length: Record -> nat, maxSize: nat, found: nat)

  /** No collisions, and no hash that reads like a chain end. */
  ghost predicate GoodHash(x: Setup) {
    (forall a, b :: x.hash(a) == x.hash(b) ==> a == b) && (forall a :: x.hash(a) != GENESIS && x.hash(a) != BROKEN)
  }

  /** A call to log, and what the surroundings do with it. */
  datatype Event = Event(
    time: string, kind: string, command: string, details: Option<string>,
    encodes: bool,              // the entry can be serialised
    reopens: bool,              // the next file can be opened, should a rotation be due
    reopenedSize: nat,          // what that file already holds
    rotatedAt: string,
    oldFile: string,
    sentinelWritten: bool,
    written: bool)

  datatype State = State(records: seq<Record>, prevHash: string, size: nat, dropped: nat)

  /** A new logger appends to the file it finds and starts a chain of its own. */
  function Opened(x: Setup): State {
    State([], GENESIS, x.found, 0)
  }

  function Make(x: Setup, time: string, kind: string, command: string, details: Option<string>, prev: string): Record {
    Record(time, kind, command, details, prev, x.hash(Encoded(time, kind, command, prev, details)))
  }

  function EntryFor(x: Setup, s: State, e: Event): Record {
    Make(x, e.time, e.kind, e.command, e.details, s.prevHash)
  }

  function Sentinel(x: Setup, s: State, e: Event): Record {
    Make(x, e.rotatedAt, ROTATED, "", Some(e.oldFile), s.prevHash)
  }

  predicate DueRotation(x: Setup, s: State, e: Event) {
    e.encodes && s.size + x.length(EntryFor(x, s, e)) > x.maxSize
  }

  function Append(x: Setup, s: State, r: Record): State {
    s.(records := s.records + [r], prevHash := r.hash, size := s.size + x.length(r))
  }

  /** Open the next file and start it with a sentinel linked to the last record. */
  function Rotated(x: Setup, s: State, e: Event): State {
    var next := s.(size := e.reopenedSize);
    if e.sentinelWritten then Append(x, next, Sentinel(x, s, e))
    else next.(prevHash := BROKEN, dropped := next.dropped + 1)
  }

  function Drop(s: State): State {
    s.(dropped := s.dropped + 1)
  }

  /** One call. The entry is linked before a rotation it may trigger, so it bypasses the sentinel. */
  function Log(x: Setup, s: State, e: Event): State {
    if !e.encodes || (DueRotation(x, s, e) && !e.reopens) then Drop(s)
    else
      var r := if DueRotation(x, s, e) then Rotated(x, s, e) else s;
      if e.written then Append(x, r, EntryFor(x, s, e)) else Drop(r)
  }

  function LogAll(x: Setup, events: seq<Event>): State {
    if events == [] then Opened(x) else Log(x, LogAll(x, events[..|events| - 1]), events[|events| - 1])
  }

  class Logger {
    const setup: Setup
    var records: seq<Record>
    var prevHash: string
    var written: nat
    var dropped: nat

    function Now(): State
      reads this
    {
      State(records, prevHash, written, dropped)
    }

    constructor (x: Setup)
      ensures setup == x && Now() == Opened(x)
    {
      setup, records, prevHash, written, dropped := x, [], GENESIS, x.found, 0;
    }

    method LogEvent(e: Event)
      modifies this
      ensures Now() == Log(setup, old(Now()), e)
    {
      var entry := Make(setup, e.time, e.kind, e.command, e.details, prevHash);
      if !e.encodes {
        dropped := dropped + 1;
        return;
      }
      if written + setup.length(entry) > setup.maxSize {
        var ok := Rotate(e);
        if !ok {
          dropped := dropped + 1;
          return;
        }
      }
      if !e.written {
        dropped := dropped + 1;
        return;
      }
      records := records + [entry];
      written := written + setup.length(entry);
      prevHash := entry.hash;
    }

    method Rotate(e: Event) returns (ok: bool)
      modifies this
      ensures ok == e.reopens
      ensures Now() == if ok then Rotated(setup, old(Now()), e) else old(Now())
    {
      if !e.reopens { return false; }
      var before := prevHash;
      written := e.reopenedSize;
      ok := true;
      if !e.sentinelWritten {
        dropped := dropped + 1;
        prevHash := BROKEN;
        return;
      }
      var sentinel := Make(setup, e.rotatedAt, ROTATED, "", Some(e.oldFile), before);
      records := records + [sentinel];
      written := written + setup.length(sentinel);
      prevHash := sentinel.hash;
    }
  }

  // ------------------------------------------------ following the chain

  /** The last record with a given hash. */
  function Find(records: seq<Record>, h: string): (i: Option<nat>)
    ensures i.Some? ==> i.value < |records| && records[i.value].hash == h
  {
    if records == [] then None
    else if records[|records| - 1].hash == h then Some(|records| - 1)
    else Find(records[..|records| - 1], h)
  }

  /** The positions visited from `h` back to the genesis mark; None when a link leads nowhere. */
  function Trail(records: seq<Record>, h: string): Option<seq<nat>>
    decreases |records|
  {
    if h == GENESIS then Some([])
    else
      match Find(records, h)
      case None => None
      case Some(i) =>
        match Trail(records[..i], records[i].prev)
        case None => None
        case Some(t) => Some([i] + t)
  }

  predicate Ordinary(r: Record) {
    r.kind != ROTATED
  }

  /** The positions of all ordinary records, newest first. */
  function Newest(records: seq<Record>): seq<nat> {
    if records == [] then []
    else
      var n := |records| - 1;
      (if Ordinary(records[n]) then [n] else []) + Newest(records[..n])
  }

  function OnlyOrdinary(records: seq<Record>, t: seq<nat>): seq<nat> {
    if t == [] then []
    else (if t[0] < |records| && Ordinary(records[t[0]]) then [t[0]] else []) + OnlyOrdinary(records, t[1..])
  }

  /** The chain from `h` visits every ordinary record once, newest first, and ends at genesis. */
  predicate Complete(records: seq<Record>, h: string) {
    Trail(records, h).Some? && OnlyOrdinary(records, Trail(records, h).value) == Newest(records)
  }

  lemma {:induction false} TrailPush(records: seq<Record>, r: Record)
    requires r.hash != GENESIS
    ensures Trail(records + [r], r.hash)
            == match Trail(records, r.prev) case None => None case Some(t) => Some([|records|] + t)
  {
    assert (records + [r])[..|records|] == records;
  }

  lemma {:induction false} TrailSkips(records: seq<Record>, r: Record, h: string)
    requires r.hash != h
    ensures Trail(records + [r], h) == Trail(records, h)
  {
    var more := records + [r];
    assert more[..|records|] == records;
    if Find(records, h).Some? { assert more[..Find(records, h).value] == records[..Find(records, h).value]; }
  }

  lemma {:induction false} TrailBounded(records: seq<Record>, h: string)
    requires Trail(records, h).Some?
    ensures forall k :: k in Trail(records, h).value ==> k < |records|
    decreases |records|
  {
    if h != GENESIS {
      var i := Find(records, h).value;
      TrailBounded(records[..i], records[i].prev);
    }
  }

  lemma {:induction false} OrdinaryFrame(records: seq<Record>, r: Record, t: seq<nat>)
    requires forall k :: k in t ==> k < |records|
    ensures OnlyOrdinary(records + [r], t) == OnlyOrdinary(records, t)
  {
    if t != [] {
      assert t[0] in t;
      forall k | k in t[1..] ensures k in t {}
      OrdinaryFrame(records, r, t[1..]);
    }
  }

  /** Adding a record linked to the current end keeps the chain complete. */
  lemma {:induction false} PushKeeps(records: seq<Record>, r: Record)
    requires Complete(records, r.prev) && r.hash != GENESIS
    ensures Complete(records + [r], r.hash)
  {
    var t := Trail(records, r.prev).value;
    TrailPush(records, r);
    TrailBounded(records, r.prev);
    OrdinaryFrame(records, r, t);
    assert ([|records|] + t)[1..] == t;
    assert (records + [r])[..|records|] == records;
  }

  /** A sentinel off the chain leaves it complete. */
  lemma {:induction false} SidestepKeeps(records: seq<Record>, r: Record, h: string)
    requires Complete(records, h) && r.hash != h && !Ordinary(r)
    ensures Complete(records + [r], h)
  {
    TrailSkips(records, r, h);
    TrailBounded(records, h);
    OrdinaryFrame(records, r, Trail(records, h).value);
    assert (records + [r])[..|records|] == records;
  }

  // ------------------------------------------------ the invariant of an unbroken log

  predicate KnownLink(records: seq<Record>, h: string) {
    h == GENESIS || exists i :: 0 <= i < |records| && records[i].hash == h
  }

  ghost predicate Genuine(x: Setup, r: Record) {
    r.hash == x.hash(Encoded(r.time, r.kind, r.command, r.prev, r.details))
  }

  /** Every record is genuine, hashes never repeat, links lead backwards, and nothing links to the
      current end yet. */
  ghost predicate WellLinked(x: Setup, records: seq<Record>, end: string) {
    && (forall i :: 0 <= i < |records| ==> Genuine(x, records[i]) && KnownLink(records, records[i].prev))
    && (forall i, k :: 0 <= i < k < |records| ==> records[i].hash != records[k].hash)
    && KnownLink(records, end)
    && (forall i :: 0 <= i < |records| ==> records[i].prev != end)
  }

  lemma {:induction false} FreshHash(x: Setup, records: seq<Record>, r: Record, i: nat)
    requires GoodHash(x) && Genuine(x, r) && i < |records| && Genuine(x, records[i])
    requires records[i].prev != r.prev || records[i].kind != r.kind
    ensures records[i].hash != r.hash
  {
    if records[i].hash == r.hash { EncodedInjective(records[i], r); }
  }

  /** A genuine new record whose hash is new can become the end of the chain. */
  lemma {:induction false} LinkKeeps(x: Setup, records: seq<Record>, r: Record)
    requires GoodHash(x) && Genuine(x, r) && KnownLink(records, r.prev)
    requires forall i :: 0 <= i < |records| ==> Genuine(x, records[i]) && KnownLink(records, records[i].prev)
    requires forall i, k :: 0 <= i < k < |records| ==> records[i].hash != records[k].hash
    requires forall i :: 0 <= i < |records| ==> records[i].hash != r.hash
    ensures WellLinked(x, records + [r], r.hash)
  {
    var more := records + [r];
    forall i | 0 <= i < |more| ensures Genuine(x, more[i]) && KnownLink(more, more[i].prev) && more[i].prev != r.hash {
      var h := more[i].prev;
      assert KnownLink(records, h);
      if h != GENESIS {
        var k :| 0 <= k < |records| && records[k].hash == h;
        assert more[k].hash == h;
      }
    }
    assert more[|records|].hash == r.hash;
  }

  /** The logger's link is the newest record. */
  predicate AtNewest(s: State) {
    s.prevHash == End(s.records)
  }

  function End(records: seq<Record>): string {
    if records == [] then GENESIS else records[|records| - 1].hash
  }

  ghost predicate Unbroken(x: Setup, s: State) {
    WellLinked(x, s.records, s.prevHash) && Complete(s.records, s.prevHash) && AtNewest(s)
  }

  lemma {:induction false} AppendKeeps(x: Setup, s: State, r: Record)
    requires GoodHash(x) && Unbroken(x, s) && Genuine(x, r) && r.prev == s.prevHash
    ensures Unbroken(x, Append(x, s, r))
  {
    forall i | 0 <= i < |s.records| ensures s.records[i].hash != r.hash { FreshHash(x, s.records, r, i); }
    LinkKeeps(x, s.records, r);
    PushKeeps(s.records, r);
  }

  /** A sentinel and the entry that triggered it, both linked to the old end. */
  lemma {:induction false} BypassKeeps(x: Setup, s: State, sentinel: Record, entry: Record)
    requires GoodHash(x) && Unbroken(x, s) && Genuine(x, sentinel) && Genuine(x, entry)
    requires sentinel.prev == s.prevHash && entry.prev == s.prevHash && !Ordinary(sentinel) && Ordinary(entry)
    ensures Unbroken(x, Append(x, Append(x, s, sentinel), entry))
    ensures sentinel.hash != entry.prev
  {
    var records, more := s.records, s.records + [sentinel];
    AppendKeeps(x, s, sentinel);
    forall i | 0 <= i < |more| ensures more[i].hash != entry.hash { FreshHash(x, more, entry, i); }
    assert KnownLink(more, entry.prev) by {
      if entry.prev != GENESIS {
        var k :| 0 <= k < |records| && records[k].hash == entry.prev;
        assert more[k].hash == entry.prev;
      }
    }
    LinkKeeps(x, more, entry);
    EndIsNotNew(x, s, sentinel);
    SidestepKeeps(records, sentinel, s.prevHash);
    PushKeeps(more, entry);
  }

  lemma {:induction false} EndIsNotNew(x: Setup, s: State, r: Record)
    requires GoodHash(x) && Unbroken(x, s) && Genuine(x, r) && r.prev == s.prevHash
    ensures r.hash != s.prevHash
  {
    if s.prevHash != GENESIS {
      var k :| 0 <= k < |s.records| && s.records[k].hash == s.prevHash;
      FreshHash(x, s.records, r, k);
    }
  }

  /** The one thing that breaks the chain: neither the sentinel nor the entry that caused it is written. */
  predicate Breaks(x: Setup, s: State, e: Event) {
    DueRotation(x, s, e) && e.reopens && !e.sentinelWritten && !e.written
  }

  lemma {:induction false} LogKeeps(x: Setup, s: State, e: Event)
    requires GoodHash(x) && Unbroken(x, s) && e.kind != ROTATED && !Breaks(x, s, e)
    ensures Unbroken(x, Log(x, s, e))
  {
    var entry := EntryFor(x, s, e);
    if e.encodes && (DueRotation(x, s, e) ==> e.reopens) {
      if DueRotation(x, s, e) && e.sentinelWritten {
        var next := s.(size := e.reopenedSize);
        assert Unbroken(x, next);
        AppendKeeps(x, next, Sentinel(x, s, e));
        BypassKeeps(x, next, Sentinel(x, s, e), entry);
      } else {
        AppendKeeps(x, s, entry);
      }
    }
  }

  /** The chain leads nowhere from the logger's link. */
  ghost predicate Lost(x: Setup, s: State) {
    && Trail(s.records, s.prevHash).None?
    && forall i :: 0 <= i < |s.records| ==> Genuine(x, s.records[i])
  }

  lemma {:induction false} NotFound(records: seq<Record>, h: string)
    requires h != GENESIS && forall i :: 0 <= i < |records| ==> records[i].hash != h
    ensures Trail(records, h).None?
  {
    var _ := Find(records, h);
  }

  lemma {:induction false} LostPush(records: seq<Record>, r: Record)
    requires Trail(records, r.prev).None? && r.hash != GENESIS
    ensures Trail(records + [r], r.hash).None?
  {
    TrailPush(records, r);
  }

  lemma {:induction false} LostSidestep(records: seq<Record>, r: Record)
    requires Trail(records, r.prev).None? && r.hash != GENESIS
    ensures Trail(records + [r], r.prev).None?
  {
    if r.hash == r.prev { TrailPush(records, r); } else { TrailSkips(records, r, r.prev); }
  }

  /** Once lost, no later record leads back to genesis. */
  lemma {:induction false} LostStays(x: Setup, s: State, e: Event)
    requires GoodHash(x) && Lost(x, s)
    ensures Lost(x, Log(x, s, e))
  {
    var entry, sentinel := EntryFor(x, s, e), Sentinel(x, s, e);
    if e.encodes && (DueRotation(x, s, e) ==> e.reopens) {
      if DueRotation(x, s, e) && e.sentinelWritten {
        if e.written {
          LostSidestep(s.records, sentinel);
          LostPush(s.records + [sentinel], entry);
        } else {
          LostPush(s.records, sentinel);
        }
      } else if e.written {
        LostPush(s.records, entry);
      } else {
        NotFound(s.records, BROKEN);
      }
    }
  }

  ghost predicate BreakAt(x: Setup, events: seq<Event>, k: nat)
    requires k < |events|
  {
    Breaks(x, LogAll(x, events[..k]), events[k])
  }

  ghost predicate NoBreak(x: Setup, events: seq<Event>) {
    forall k :: 0 <= k < |events| ==> !BreakAt(x, events, k)
  }

  predicate OrdinaryEvents(events: seq<Event>) {
    forall k :: 0 <= k < |events| ==> events[k].kind != ROTATED
  }

  lemma {:induction false} NoBreakSnoc(x: Setup, events: seq<Event>)
    requires events != []
    ensures NoBreak(x, events) <==> NoBreak(x, events[..|events| - 1]) && !BreakAt(x, events, |events| - 1)
  {
    var n := |events| - 1;
    forall k | 0 <= k < n ensures BreakAt(x, events, k) == BreakAt(x, events[..n], k) {
      assert events[..n][..k] == events[..k];
    }
  }

  /** The call adds a record: its own, or the sentinel of a rotation it triggered, or both. */
  predicate Writes(x: Setup, s: State, e: Event) {
    && e.encodes && (DueRotation(x, s, e) ==> e.reopens)
    && (e.written || (DueRotation(x, s, e) && e.sentinelWritten))
  }

  lemma {:induction false} WriteIsNewest(x: Setup, s: State, e: Event)
    ensures var t := Log(x, s, e);
            if Writes(x, s, e) then AtNewest(t)
            else t.records == s.records && t.prevHash == if Breaks(x, s, e) then BROKEN else s.prevHash
  {
  }

  ghost predicate WritesAt(x: Setup, events: seq<Event>, k: nat)
    requires k < |events|
  {
    Writes(x, LogAll(x, events[..k]), events[k])
  }

  ghost predicate QuietBetween(x: Setup, events: seq<Event>, i: nat, k: nat)
    requires i < k < |events|
  {
    BreakAt(x, events, i) ==> !WritesAt(x, events, k)
  }

  /** Nothing was written after a break. */
  ghost predicate QuietAfterBreak(x: Setup, events: seq<Event>) {
    forall i, k :: 0 <= i < k < |events| ==> QuietBetween(x, events, i, k)
  }

  lemma {:induction false} QuietSnoc(x: Setup, events: seq<Event>)
    requires events != []
    ensures var n := |events| - 1;
            QuietAfterBreak(x, events) <==>
            QuietAfterBreak(x, events[..n]) && (WritesAt(x, events, n) ==> NoBreak(x, events[..n]))
  {
    var n := |events| - 1;
    forall i | 0 <= i < n ensures BreakAt(x, events, i) == BreakAt(x, events[..n], i) {
      assert events[..n][..i] == events[..i];
    }
    forall i, k | 0 <= i < k < n ensures QuietBetween(x, events, i, k) == QuietBetween(x, events[..n], i, k) {
      assert events[..n][..k] == events[..k];
    }
    if i :| 0 <= i < n && BreakAt(x, events[..n], i) {
      assert QuietBetween(x, events, i, n) == !WritesAt(x, events, n);
    }
    if QuietAfterBreak(x, events[..n]) && (WritesAt(x, events, n) ==> NoBreak(x, events[..n])) {
      forall i, k | 0 <= i < k < |events| ensures QuietBetween(x, events, i, k) {
        if k < n {
          assert QuietBetween(x, events[..n], i, k);
        } else {
          assert BreakAt(x, events, i) == BreakAt(x, events[..n], i);
        }
      }
    }
  }

  /** After a break, before anything more is written: what is on disk is still a complete chain. */
  ghost predicate Pending(x: Setup, s: State) {
    Lost(x, s) && s.prevHash == BROKEN && Complete(s.records, End(s.records))
  }

  /** Something was written after a break: the newest record leads nowhere. */
  ghost predicate Gone(x: Setup, s: State) {
    Lost(x, s) && Trail(s.records, End(s.records)).None?
  }

  lemma {:induction false} BreakPends(x: Setup, s: State, e: Event)
    requires GoodHash(x) && Unbroken(x, s) && Breaks(x, s, e)
    ensures Pending(x, Log(x, s, e)) && !Writes(x, s, e)
  {
    NotFound(s.records, BROKEN);
  }

  lemma {:induction false} PendingStep(x: Setup, s: State, e: Event)
    requires GoodHash(x) && Pending(x, s)
    ensures if Writes(x, s, e) then Gone(x, Log(x, s, e)) else Pending(x, Log(x, s, e))
  {
    LostStays(x, s, e);
    WriteIsNewest(x, s, e);
  }

  lemma {:induction false} GoneStays(x: Setup, s: State, e: Event)
    requires GoodHash(x) && Gone(x, s)
    ensures Gone(x, Log(x, s, e))
  {
    LostStays(x, s, e);
    WriteIsNewest(x, s, e);
  }

  /** The three phases of a log. */
  ghost predicate InPhase(x: Setup, events: seq<Event>, s: State) {
    Phase(x, NoBreak(x, events), QuietAfterBreak(x, events), s)
  }

  ghost predicate Phase(x: Setup, unbroken: bool, quiet: bool, s: State) {
    if unbroken then Unbroken(x, s) else if quiet then Pending(x, s) else Gone(x, s)
  }

  lemma {:induction false} PhaseStep(x: Setup, s: State, e: Event, unbroken: bool, quiet: bool)
    requires GoodHash(x) && e.kind != ROTATED && Phase(x, unbroken, quiet, s) && (unbroken ==> quiet)
    ensures Phase(x, unbroken && !Breaks(x, s, e), quiet && (Writes(x, s, e) ==> unbroken), Log(x, s, e))
  {
    if unbroken {
      if Breaks(x, s, e) { BreakPends(x, s, e); } else { LogKeeps(x, s, e); }
    } else if quiet {
      PendingStep(x, s, e);
    } else {
      GoneStays(x, s, e);
    }
  }

  lemma {:induction false} RunPhase(x: Setup, events: seq<Event>)
    requires GoodHash(x) && OrdinaryEvents(events)
    ensures InPhase(x, events, LogAll(x, events))
    ensures NoBreak(x, events) ==> QuietAfterBreak(x, events)
  {
    if events != [] {
      var n := |events| - 1;
      var s, e := LogAll(x, events[..n]), events[n];
      RunPhase(x, events[..n]);
      NoBreakSnoc(x, events);
      QuietSnoc(x, events);
      PhaseStep(x, s, e, NoBreak(x, events[..n]), QuietAfterBreak(x, events[..n]));
    }
  }

  /** Over any mix of dropped writes and rotations: following the links back from the newest record
      visits every ordinary record once, newest first, and ends at genesis, exactly when nothing was
      written after a rotation that lost both its sentinel and the entry that triggered it. */
  lemma {:induction false} ChainCompleteIff(x: Setup, events: seq<Event>)
    requires GoodHash(x) && OrdinaryEvents(events)
    ensures var records := LogAll(x, events).records;
            Complete(records, End(records)) <==> QuietAfterBreak(x, events)
  {
    RunPhase(x, events);
  }

  /** The link the logger holds for its next record is good exactly when there was no such rotation at
      all; then it is the newest record, and no two records share a hash. */
  lemma {:induction false} LoggerLinkIff(x: Setup, events: seq<Event>)
    requires GoodHash(x) && OrdinaryEvents(events)
    ensures var s := LogAll(x, events);
            && (Complete(s.records, s.prevHash) <==> NoBreak(x, events))
            && (NoBreak(x, events) ==>
                  AtNewest(s) && forall i, k :: 0 <= i < k < |s.records| ==> s.records[i].hash != s.records[k].hash)
  {
    RunPhase(x, events);
  }

  // ------------------------------------------------ strict linking

  /** Every record links to the one written just before it. */
  predicate Strict(records: seq<Record>) {
    records == [] ||
    (records[|records| - 1].prev == End(records[..|records| - 1]) && Strict(records[..|records| - 1]))
  }

  predicate LinksBack(records: seq<Record>, i: nat)
    requires i < |records|
  {
    records[i].prev == if i == 0 then GENESIS else records[i - 1].hash
  }

  lemma {:induction false} StrictMeaning(records: seq<Record>)
    ensures Strict(records) <==> forall i :: 0 <= i < |records| ==> LinksBack(records, i)
  {
    if records != [] {
      var n := |records| - 1;
      StrictMeaning(records[..n]);
      forall i | 0 <= i < n ensures LinksBack(records[..n], i) == LinksBack(records, i) {}
      assert LinksBack(records, n) <==> records[n].prev == End(records[..n]);
    }
  }

  /** A rotation whose triggering entry was written right behind its sentinel. */
  predicate Bypasses(x: Setup, s: State, e: Event) {
    DueRotation(x, s, e) && e.reopens && e.sentinelWritten && e.written
  }

  ghost predicate NoBypass(x: Setup, events: seq<Event>) {
    forall k :: 0 <= k < |events| ==> !BypassAt(x, events, k)
  }

  ghost predicate BypassAt(x: Setup, events: seq<Event>, k: nat)
    requires k < |events|
  {
    Bypasses(x, LogAll(x, events[..k]), events[k])
  }

  lemma {:induction false} NoBypassSnoc(x: Setup, events: seq<Event>)
    requires events != []
    ensures NoBypass(x, events) <==> NoBypass(x, events[..|events| - 1]) && !BypassAt(x, events, |events| - 1)
  {
    var n := |events| - 1;
    forall k | 0 <= k < n ensures BypassAt(x, events, k) == BypassAt(x, events[..n], k) {
      assert events[..n][..k] == events[..k];
    }
  }

  lemma {:induction false} StrictSnoc(records: seq<Record>, r: Record)
    ensures Strict(records + [r]) <==> Strict(records) && r.prev == End(records)
    ensures End(records + [r]) == r.hash
  {
    assert (records + [r])[..|records|] == records;
  }

  /** What the log may look like after a call. */
  lemma {:induction false} Added(x: Setup, s: State, e: Event)
    ensures var t, entry, sentinel := Log(x, s, e).records, EntryFor(x, s, e), Sentinel(x, s, e);
            && (Bypasses(x, s, e) ==> t == s.records + [sentinel] + [entry] && Writes(x, s, e))
            && (!Bypasses(x, s, e) && Writes(x, s, e) ==> t == s.records + [entry] || t == s.records + [sentinel])
            && (!Writes(x, s, e) ==> t == s.records)
  {
  }

  lemma {:induction false} StrictStep(x: Setup, s: State, e: Event)
    requires GoodHash(x) && Unbroken(x, s) && e.kind != ROTATED
    ensures Strict(Log(x, s, e).records) <==> Strict(s.records) && !Bypasses(x, s, e)
  {
    var entry, sentinel := EntryFor(x, s, e), Sentinel(x, s, e);
    EndIsNotNew(x, s, sentinel);
    StrictSnoc(s.records, entry);
    StrictSnoc(s.records, sentinel);
    StrictSnoc(s.records + [sentinel], entry);
    Added(x, s, e);
  }

  /** A record written after a break links to no record. */
  lemma {:induction false} PendingNotStrict(x: Setup, s: State, e: Event)
    requires GoodHash(x) && Pending(x, s)
    ensures Strict(Log(x, s, e).records) <==> Strict(s.records) && !Writes(x, s, e)
  {
    var entry, sentinel := EntryFor(x, s, e), Sentinel(x, s, e);
    StrictSnoc(s.records, entry);
    StrictSnoc(s.records, sentinel);
    StrictSnoc(s.records + [sentinel], entry);
    Added(x, s, e);
  }

  lemma {:induction false} NeverStrictAgain(x: Setup, s: State, e: Event)
    requires !Strict(s.records)
    ensures !Strict(Log(x, s, e).records)
  {
    var entry, sentinel := EntryFor(x, s, e), Sentinel(x, s, e);
    StrictSnoc(s.records, entry);
    StrictSnoc(s.records, sentinel);
    StrictSnoc(s.records + [sentinel], entry);
    Added(x, s, e);
  }

  lemma {:induction false} StrictNext(x: Setup, past: seq<Event>, s: State, e: Event)
    requires GoodHash(x) && InPhase(x, past, s) && e.kind != ROTATED && (Strict(s.records) ==> QuietAfterBreak(x, past))
    ensures Strict(Log(x, s, e).records) <==>
            Strict(s.records) && !Bypasses(x, s, e) && (Writes(x, s, e) ==> NoBreak(x, past))
  {
    Added(x, s, e);
    if NoBreak(x, past) {
      StrictStep(x, s, e);
    } else if QuietAfterBreak(x, past) {
      PendingNotStrict(x, s, e);
    } else {
      NeverStrictAgain(x, s, e);
    }
  }

  lemma {:induction false} StrictRun(x: Setup, events: seq<Event>)
    requires GoodHash(x) && OrdinaryEvents(events)
    ensures Strict(LogAll(x, events).records) <==> NoBypass(x, events) && QuietAfterBreak(x, events)
  {
    if events != [] {
      var n := |events| - 1;
      StrictRun(x, events[..n]);
      RunPhase(x, events[..n]);
      StrictNext(x, events[..n], LogAll(x, events[..n]), events[n]);
      NoBypassSnoc(x, events);
      QuietSnoc(x, events);
    }
  }

  /** Every record links to its immediate predecessor exactly when no rotation was followed by the entry
      that triggered it and nothing was written after a break. */
  lemma {:induction false} StrictIff(x: Setup, events: seq<Event>)
    requires GoodHash(x) && OrdinaryEvents(events)
    ensures var records := LogAll(x, events).records;
            (forall i :: 0 <= i < |records| ==> LinksBack(records, i)) <==>
              NoBypass(x, events) && QuietAfterBreak(x, events)
  {
    StrictMeaning(LogAll(x, events).records);
    StrictRun(x, events);
  }

  // ------------------------------------------------ witnesses

  /** A log limited to 1 MiB in which a record takes at least the room of its details. */
  ghost predicate OneMebibyte(x: Setup) {
    x.maxSize == 1024 * 1024 && forall r: Record :: r.details.Some? ==> x.length(r) >= |r.details.value|
  }

  /** A call with 1,100,000 characters of details, such as captured script output. */
  function LongCall(sentinelWritten: bool, written: bool): Event {
    Event("t", "script_execution", "c", Some(seq(1_100_000, _ => 'x')), true, true, 0, "t", "audit.jsonl.1",
          sentinelWritten, written)
  }

  lemma {:induction false} LongCallRotates(x: Setup, s: State, sentinelWritten: bool, written: bool)
    requires OneMebibyte(x)
    ensures DueRotation(x, s, LongCall(sentinelWritten, written))
  {
    assert |EntryFor(x, s, LongCall(sentinelWritten, written)).details.value| == 1_100_000;
  }

  lemma {:induction false} LogSnoc(x: Setup, events: seq<Event>, e: Event)
    ensures LogAll(x, events + [e]) == Log(x, LogAll(x, events), e)
  {
    assert (events + [e])[..|events|] == events;
  }

  lemma {:induction false} LogThree(x: Setup, a: Event, b: Event, c: Event)
    ensures LogAll(x, [a, b]) == Log(x, Log(x, Opened(x), a), b)
    ensures LogAll(x, [a, b, c]) == Log(x, Log(x, Log(x, Opened(x), a), b), c)
  {
    LogSnoc(x, [], a);
    LogSnoc(x, [a], b);
    LogSnoc(x, [a, b], c);
    assert [] + [a] == [a] && [a] + [b] == [a, b] && [a, b] + [c] == [a, b, c];
  }

  lemma {:induction false} OpenedUnbroken(x: Setup)
    ensures Unbroken(x, Opened(x))
  {
  }

  /** A call that rotates and is written adds its sentinel and itself, both linked to the old end. */
  lemma {:induction false} RotatingCall(x: Setup, s: State, e: Event)
    requires GoodHash(x) && Unbroken(x, s) && Bypasses(x, s, e) && e.kind != ROTATED
    ensures var t, n := Log(x, s, e), |s.records|;
            && Unbroken(x, t) && |t.records| == n + 2 && t.records[..n] == s.records
            && t.records[n].kind == ROTATED && !LinksBack(t.records, n + 1) && t.records[n + 1].prev == s.prevHash
  {
    LogKeeps(x, s, e);
    Added(x, s, e);
    EndIsNotNew(x, s, Sentinel(x, s, e));
    assert (s.records + [Sentinel(x, s, e)] + [EntryFor(x, s, e)])[..|s.records|] == s.records;
  }

  /** A full disk during a rotation loses the sentinel and the entry. What is on disk is still a complete
      chain; the next record breaks it. */
  lemma {:induction false} FullDiskBreaksChain(x: Setup)
    requires GoodHash(x) && OneMebibyte(x)
    ensures var before := LogAll(x, [LongCall(true, true), LongCall(false, false)]).records;
            var after := LogAll(x, [LongCall(true, true), LongCall(false, false), LongCall(true, true)]).records;
            && |before| == 2 && Complete(before, End(before))
            && |after| == 4 && !Complete(after, End(after))
  {
    var e0, e1 := LongCall(true, true), LongCall(false, false);
    LogThree(x, e0, e1, e0);
    OpenedUnbroken(x);
    LongCallRotates(x, Opened(x), true, true);
    RotatingCall(x, Opened(x), e0);
    var s := Log(x, Opened(x), e0);
    LongCallRotates(x, s, false, false);
    BreakPends(x, s, e1);
    WriteIsNewest(x, s, e1);
    var t := Log(x, s, e1);
    LongCallRotates(x, t, true, true);
    PendingStep(x, t, e0);
    Added(x, t, e0);
  }

  /** An ordinary rotation: the entry behind the sentinel links past it, to the last entry before. */
  lemma {:induction false} RotationBypassesSentinel(x: Setup)
    requires GoodHash(x) && OneMebibyte(x)
    ensures var records := LogAll(x, [LongCall(true, true), LongCall(true, true)]).records;
            |records| == 4 && records[2].kind == ROTATED && !LinksBack(records, 3) && records[3].prev == records[1].hash
  {
    var e := LongCall(true, true);
    LogThree(x, e, e, e);
    OpenedUnbroken(x);
    LongCallRotates(x, Opened(x), true, true);
    RotatingCall(x, Opened(x), e);
    var s := Log(x, Opened(x), e);
    LongCallRotates(x, s, true, true);
    RotatingCall(x, s, e);
    assert Log(x, s, e).records[..2][1] == s.records[1];
  }

  // ------------------------------------------------ what a call writes

  /** The call fits the file as it is. */
  predicate FitsFile(x: Setup, s: State, e: Event) {
    s.size + x.length(EntryFor(x, s, e)) <= x.maxSize
  }

  /** The call's record is written. */
  predicate Accepts(x: Setup, s: State, e: Event) {
    e.encodes && (FitsFile(x, s, e) || e.reopens) && e.written
  }

  predicate Says(r: Record, time: string, kind: string, command: string, details: Option<string>) {
    r.time == time && r.kind == kind && r.command == command && r.details == details
  }

  /** What one call adds: before it a sentinel naming the old file, exactly when the call does not fit and
      the next file could be opened; and its own record, with what was passed to the call. */
  lemma {:induction false} CallWrites(x: Setup, s: State, e: Event)
    ensures var t := Log(x, s, e);
            var rotates := e.encodes && !FitsFile(x, s, e) && e.reopens;
            var sentinel := rotates && e.sentinelWritten;
            var k := |s.records| + if sentinel then 1 else 0;
            && |t.records| == k + (if Accepts(x, s, e) then 1 else 0) && t.records[..|s.records|] == s.records
            && (sentinel ==> Says(t.records[|s.records|], e.rotatedAt, ROTATED, "", Some(e.oldFile)))
            && (Accepts(x, s, e) ==> Says(t.records[k], e.time, e.kind, e.command, e.details))
            && t.size == (if rotates then e.reopenedSize else s.size)
                         + (if sentinel then x.length(t.records[|s.records|]) else 0)
                         + (if Accepts(x, s, e) then x.length(t.records[k]) else 0)
  {
  }

  /** A file grows past its limit only where it was opened: by what it held already, a sentinel and one
      record. */
  lemma {:induction false} OverfullOnlyWhenOpened(x: Setup, events: seq<Event>)
    requires events != []
    ensures var n := |events| - 1;
            var s, t := LogAll(x, events[..n]), LogAll(x, events);
            t.size > x.maxSize ==>
              || t == s.(dropped := s.dropped + 1)
              || (events[n].encodes && !FitsFile(x, s, events[n]) && events[n].reopens)
  {
    CallWrites(x, LogAll(x, events[..|events| - 1]), events[|events| - 1]);
  }

  /** The calls whose record is written. */
  function Accepted(x: Setup, events: seq<Event>): seq<Event> {
    if events == [] then []
    else
      var n := |events| - 1;
      Accepted(x, events[..n]) + if Accepts(x, LogAll(x, events[..n]), events[n]) then [events[n]] else []
  }

  function OrdinaryOnes(records: seq<Record>): seq<Record> {
    if records == [] then []
    else
      var n := |records| - 1;
      OrdinaryOnes(records[..n]) + if Ordinary(records[n]) then [records[n]] else []
  }

  lemma {:induction false} OrdinarySnoc(records: seq<Record>, r: Record)
    ensures OrdinaryOnes(records + [r]) == OrdinaryOnes(records) + if Ordinary(r) then [r] else []
  {
    assert (records + [r])[..|records|] == records;
  }

  /** Each record says what its call said. */
  predicate Transcribes(records: seq<Record>, events: seq<Event>) {
    && |records| == |events|
    && forall k :: 0 <= k < |records| ==>
         Says(records[k], events[k].time, events[k].kind, events[k].command, events[k].details)
  }

  lemma {:induction false} OrdinaryAfter(x: Setup, s: State, e: Event)
    requires e.kind != ROTATED
    ensures var t := Log(x, s, e);
            if Accepts(x, s, e)
            then OrdinaryOnes(t.records) == OrdinaryOnes(s.records) + [EntryFor(x, s, e)]
            else OrdinaryOnes(t.records) == OrdinaryOnes(s.records)
  {
    OrdinarySnoc(s.records, EntryFor(x, s, e));
    OrdinarySnoc(s.records, Sentinel(x, s, e));
    OrdinarySnoc(s.records + [Sentinel(x, s, e)], EntryFor(x, s, e));
  }

  /** The log without its sentinels is the list of the calls that got through, in order, each with its time,
      kind, command and details. */
  lemma {:induction false} LogTranscribesCalls(x: Setup, events: seq<Event>)
    requires OrdinaryEvents(events)
    ensures Transcribes(OrdinaryOnes(LogAll(x, events).records), Accepted(x, events))
  {
    if events != [] {
      var n := |events| - 1;
      LogTranscribesCalls(x, events[..n]);
      OrdinaryAfter(x, LogAll(x, events[..n]), events[n]);
    }
  }

  /** A new logger takes the file it finds into account: its first call rotates exactly when the record does
      not fit behind what is there. */
  lemma {:induction false} FirstCallRotatesIff(x: Setup, e: Event)
    requires e.encodes && e.reopens && e.sentinelWritten && e.kind != ROTATED
    ensures var records := LogAll(x, [e]).records;
            (records != [] && records[0].kind == ROTATED) <==>
            x.found + x.length(Make(x, e.time, e.kind, e.command, e.details, GENESIS)) > x.maxSize
  {
    assert [e][..0] == [];
  }

  // ------------------------------------------------ nothing is lost silently

  function FailedSentinels(x: Setup, events: seq<Event>): nat {
    if events == [] then 0
    else
      var n := |events| - 1;
      var s, e := LogAll(x, events[..n]), events[n];
      FailedSentinels(x, events[..n]) + if DueRotation(x, s, e) && e.reopens && !e.sentinelWritten then 1 else 0
  }

  lemma {:induction false} NewestSnoc(records: seq<Record>, r: Record)
    ensures Newest(records + [r]) == (if Ordinary(r) then [|records|] else []) + Newest(records)
  {
    assert (records + [r])[..|records|] == records;
  }

  /** Every call is accounted for: its record is in the log or the drop counter has counted it, along
      with the sentinels that were not written. */
  lemma {:induction false} EveryCallAccounted(x: Setup, events: seq<Event>)
    requires OrdinaryEvents(events)
    ensures |Newest(LogAll(x, events).records)| + LogAll(x, events).dropped == |events| + FailedSentinels(x, events)
  {
    if events != [] {
      var n := |events| - 1;
      var s, e := LogAll(x, events[..n]), events[n];
      EveryCallAccounted(x, events[..n]);
      NewestSnoc(s.records, EntryFor(x, s, e));
      NewestSnoc(s.records, Sentinel(x, s, e));
      NewestSnoc(s.records + [Sentinel(x, s, e)], EntryFor(x, s, e));
    }
  }
}
