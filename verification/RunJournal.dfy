/** What a run leaves in its journal file: the lines of the uploads it recorded, or a file that will be
    rejected. A write that breaks off just before its newline still reads as a recorded line. */
module RunJournal {
  import opened Domain
  import opened Journal
  import opened Engine

  /** The same flags with one of them raised. */
  function Flip(writes: seq<bool>, at: Option<nat>): (r: seq<bool>)
    ensures |r| == |writes|
  {
    if at.Some? && at.value < |writes| then writes[at.value := true] else writes
  }

  predicate ReadsAs(c: Codec, text: string, header: Header, log: seq<SnapshotFile>) {
    Read(c, text).Rejected? || Read(c, text) == Loaded(header, log)
  }

  /** The writer's session after an upload: the whole line, or `torn` characters of it. */
  function AfterUpload(c: Codec, s: Session, e: SnapshotFile, recorded: bool, torn: nat): Session {
    Do(c, s, if recorded then Record(e) else TornRecord(e, if torn < |Line(c, e)| then torn else 0))
  }

  /** No later line is written. */
  predicate Quiet(writes: seq<bool>, n: nat) {
    forall k :: n <= k < |writes| ==> !writes[k]
  }

  /** The journal file after the first `n` files of a run that found `log` in it. `flip` names the upload
      whose write broke off with only its newline missing, if there is one. */
  ghost predicate TextAt(c: Codec, header: Header, log: seq<SnapshotFile>, outs: seq<Outcome>, writes: seq<bool>,
                         n: nat, s: Session, flip: Option<nat>)
    requires n <= |outs| == |writes|
  {
    && s.header == header && (flip.Some? ==> flip.value < n)
    && if s.dead then Quiet(writes, n) && ReadsAs(c, s.text, header, log + LogEntries(outs, Flip(writes, flip), n))
       else flip.None? && Settled(c, s.text, header, s.log) && s.log == log + LogEntries(outs, writes, n)
  }

  lemma {:induction false} LogNext(outs: seq<Outcome>, writes: seq<bool>, n: nat)
    requires n < |outs| == |writes| && !Halted(outs, n)
    ensures LogEntries(outs, writes, n + 1) ==
            if outs[n].Uploaded? && writes[n] then LogEntries(outs, writes, n) + [outs[n].entry]
            else LogEntries(outs, writes, n)
  {
  }

  lemma {:induction false} SameRecorded(outs: seq<Outcome>, a: seq<bool>, b: seq<bool>, n: nat)
    requires n <= |outs| == |a| == |b| && forall k :: 0 <= k < n ==> a[k] == b[k]
    ensures RecordedTo(outs, a, n) == RecordedTo(outs, b, n) && LogEntries(outs, a, n) == LogEntries(outs, b, n)
  {
    if n > 0 { SameRecorded(outs, a, b, n - 1); }
  }

  /** A torn append to a settled file: rejected, as before, or one entry more. */
  lemma {:induction false} TornReads(c: Codec, text: string, header: Header, log: seq<SnapshotFile>, e: SnapshotFile,
                                     n: nat)
    requires Lawful(c) && Settled(c, text, header, log) && n <= |Line(c, e)|
    ensures var after := text + Line(c, e)[..n]; ReadsAs(c, after, header, log) || ReadsAs(c, after, header, log + [e])
  {
    if Read(c, text).Loaded? {
      AppendedRead(c, text, e, n);
    } else {
      BeyondRepair(c, text, Line(c, e)[..n]);
    }
  }

  /** The upload that breaks the journal's writer. */
  lemma {:induction false} TornStep(c: Codec, header: Header, log: seq<SnapshotFile>, outs: seq<Outcome>,
                                    writes: seq<bool>, n: nat, s: Session, torn: nat)
    returns (next: Option<nat>)
    requires Lawful(c) && n < |outs| == |writes| && !Halted(outs, n) && outs[n].Uploaded? && Quiet(writes, n) && !s.dead
    requires TextAt(c, header, log, outs, writes, n, s, None)
    ensures TextAt(c, header, log, outs, writes, n + 1, AfterUpload(c, s, outs[n].entry, false, torn), next)
  {
    var e := outs[n].entry;
    var k := if torn < |Line(c, e)| then torn else 0;
    TornReads(c, s.text, header, s.log, e, k);
    if ReadsAs(c, s.text + Line(c, e)[..k], header, s.log) {
      next := None;
      LogNext(outs, writes, n);
    } else {
      next := Some(n);
      var flipped := Flip(writes, next);
      SameRecorded(outs, writes, flipped, n);
      LogNext(outs, flipped, n);
      assert log + (LogEntries(outs, writes, n) + [e]) == s.log + [e];
    }
  }

  /** Handling file `n` moves the journal file on to position `n + 1`. */
  lemma {:induction false} TextStep(c: Codec, header: Header, log: seq<SnapshotFile>, outs: seq<Outcome>,
                                    writes: seq<bool>, n: nat, s: Session, t: Session, flip: Option<nat>, torn: nat)
    returns (next: Option<nat>)
    requires Lawful(c) && n < |outs| == |writes| && !Halted(outs, n) && (!writes[n] ==> Quiet(writes, n))
    requires TextAt(c, header, log, outs, writes, n, s, flip)
    requires t == if outs[n].Uploaded? then AfterUpload(c, s, outs[n].entry, writes[n], torn) else s
    ensures TextAt(c, header, log, outs, writes, n + 1, t, next)
  {
    next := flip;
    LogNext(outs, writes, n);
    LogNext(outs, Flip(writes, flip), n);
    if !s.dead && outs[n].Uploaded? {
      if writes[n] {
        RecordSettles(c, s.text, header, s.log, outs[n].entry);
        assert log + (LogEntries(outs, writes, n) + [outs[n].entry]) == s.log + [outs[n].entry];
      } else {
        next := TornStep(c, header, log, outs, writes, n, s, torn);
      }
    }
  }

  lemma {:induction false} LogHalted(outs: seq<Outcome>, writes: seq<bool>, n: nat, m: nat)
    requires n <= m <= |outs| == |writes| && Halted(outs, n)
    ensures Halted(outs, m) && LogEntries(outs, writes, m) == LogEntries(outs, writes, n)
  {
    if n < m { LogHalted(outs, writes, n, m - 1); }
  }

  lemma {:induction false} TextEnds(c: Codec, header: Header, log: seq<SnapshotFile>, outs: seq<Outcome>,
                                    writes: seq<bool>, n: nat, s: Session, flip: Option<nat>)
    requires n <= |outs| == |writes| && Halted(outs, n) && TextAt(c, header, log, outs, writes, n, s, flip)
    ensures TextAt(c, header, log, outs, writes, |outs|, s, flip)
  {
    LogHalted(outs, writes, n, |outs|);
    LogHalted(outs, Flip(writes, flip), n, |outs|);
  }

  /** In the end the file is rejected or holds exactly the lines of the recorded uploads. */
  lemma {:induction false} TextFinal(c: Codec, header: Header, log: seq<SnapshotFile>, outs: seq<Outcome>,
                                     writes: seq<bool>, s: Session, flip: Option<nat>)
    requires |outs| == |writes| && TextAt(c, header, log, outs, writes, |outs|, s, flip)
    ensures ReadsAs(c, s.text, header, log + LogEntries(outs, Flip(writes, flip), |outs|))
  {
  }

  // ------------------------------------------------ surviving the loss of any tail

  /** The writer's log after the first `n` files: what it found and what it appended. `tear` names the upload
      whose write broke off, if there is one; part of its line may be in the file. */
  ghost predicate Tracks(log: seq<SnapshotFile>, outs: seq<Outcome>, writes: seq<bool>, n: nat, s: Session,
                         tear: Option<nat>)
    requires n <= |outs| == |writes|
  {
    && s.log == log + LogEntries(outs, Flip(writes, tear), n)
    && if s.dead then Quiet(writes, n) && tear.Some? && tear.value < n else tear.None?
  }

  lemma {:induction false} TrackStep(c: Codec, log: seq<SnapshotFile>, outs: seq<Outcome>, writes: seq<bool>, n: nat,
                                     s: Session, t: Session, tear: Option<nat>, torn: nat)
    returns (next: Option<nat>)
    requires Lawful(c) && n < |outs| == |writes| && !Halted(outs, n) && (!writes[n] ==> Quiet(writes, n))
    requires Tracks(log, outs, writes, n, s, tear) && SessionOk(c, s)
    requires t == if outs[n].Uploaded? then AfterUpload(c, s, outs[n].entry, writes[n], torn) else s
    ensures Tracks(log, outs, writes, n + 1, t, next) && SessionOk(c, t)
  {
    next := tear;
    if outs[n].Uploaded? {
      var e := outs[n].entry;
      OpKeeps(c, s, if writes[n] then Record(e) else TornRecord(e, if torn < |Line(c, e)| then torn else 0));
      if !s.dead && !writes[n] { next := Some(n); }
    }
    TrackLog(log, outs, writes, n, s, tear, next);
  }

  /** The log grows by the entry just written or torn. */
  lemma {:induction false} TrackLog(log: seq<SnapshotFile>, outs: seq<Outcome>, writes: seq<bool>, n: nat, s: Session,
                                    tear: Option<nat>, next: Option<nat>)
    requires n < |outs| == |writes| && !Halted(outs, n) && (!writes[n] ==> Quiet(writes, n))
    requires Tracks(log, outs, writes, n, s, tear)
    requires next == if outs[n].Uploaded? && !s.dead && !writes[n] then Some(n) else tear
    ensures log + LogEntries(outs, Flip(writes, next), n + 1)
            == if outs[n].Uploaded? && !s.dead then s.log + [outs[n].entry] else s.log
  {
    var flipped := Flip(writes, next);
    SameRecorded(outs, Flip(writes, tear), flipped, n);
    LogNext(outs, flipped, n);
    var added := LogEntries(outs, flipped, n);
    if outs[n].Uploaded? && !s.dead { assert log + (added + [outs[n].entry]) == (log + added) + [outs[n].entry]; }
  }

  lemma {:induction false} TrackEnds(log: seq<SnapshotFile>, outs: seq<Outcome>, writes: seq<bool>, n: nat, s: Session,
                                     tear: Option<nat>)
    requires n <= |outs| == |writes| && Halted(outs, n) && Tracks(log, outs, writes, n, s, tear)
    ensures Tracks(log, outs, writes, |outs|, s, tear)
  {
    LogHalted(outs, Flip(writes, tear), n, |outs|);
  }

  /** In the end every tail of the file may be lost: what is left is rejected or holds a prefix of the lines. */
  lemma {:induction false} TrackFinal(c: Codec, log: seq<SnapshotFile>, outs: seq<Outcome>, writes: seq<bool>,
                                      s: Session, tear: Option<nat>)
    requires |outs| == |writes| && Tracks(log, outs, writes, |outs|, s, tear) && SessionOk(c, s)
    ensures CrashSafe(c, s.text, s.header, log + LogEntries(outs, Flip(writes, tear), |outs|))
  {
  }
}
