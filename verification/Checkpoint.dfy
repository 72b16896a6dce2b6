/** The checkpoint journal as an object: opened at the start of a run, appended to after every upload,
    removed or emptied when the snapshot is published. */
module Checkpoint {
  import opened Domain
  import opened Journal
  import Engine
  import History

  /** The journal's path on disk; None when nothing is there. */
  class DiskFile {
    var text: Option<string>

    constructor (initial: Option<string>)
      ensures text == initial
    {
      text := initial;
    }
  }

  /** A journal file as the run protocol sees it. */
  function View(c: Codec, text: Option<string>): Option<History.JournalFile> {
    if text.None? then None
    else
      match Read(c, text.value)
      case Rejected => Some(History.Damaged)
      case Loaded(h, _) => Some(History.Image(h.snapshotID, h.createdAt, h.identity, []))
  }

  class SnapshotJournal {
    const codec: Codec
    const header: Header
    const file: DiskFile
    var entries: map<string, SnapshotFile>
    var dead: bool  // a write failed; the buffered writer refuses every later one
    ghost var session: Session

    ghost predicate Valid()
      reads this, file
    {
      && file.text == Some(session.text)
      && session.header == header && session.dead == dead
      && (!dead ==> entries == LastWins(session.log))
    }

    constructor (c: Codec, h: Header, f: DiskFile, loaded: map<string, SnapshotFile>, ghost s: Session)
      requires f.text == Some(s.text) && s.header == h && !s.dead && loaded == LastWins(s.log)
      ensures Valid() && codec == c && header == h && file == f && entries == loaded && session == s && !dead
    {
      codec, header, file, entries, dead, session := c, h, f, loaded, false, s;
    }

    /** The file is as its writer believes it to be. */
    ghost predicate Legible()
      reads this
    {
      Lawful(codec) && !dead && Settled(codec, session.text, header, session.log)
    }

    /** The file withstands the loss of any tail. */
    ghost predicate CrashProof()
      reads this
    {
      Legible() && CrashSafe(codec, session.text, header, session.log)
    }

    /** Append an uploaded file. The write reaches the disk up to `arrives` characters. */
    method Record(e: SnapshotFile, arrives: nat) returns (ok: bool)
      requires Valid()
      modifies this, file
      ensures Valid()
      ensures ok <==> !old(dead) && arrives >= |Line(codec, e)|
      ensures session == Do(codec, old(session), if ok then Op.Record(e) else TornRecord(e, arrives))
      ensures entries == if ok then old(entries)[EntryKey(e) := e] else old(entries)
    {
      var line := codec.encodeEntry(e) + "\n";
      if dead { return false; }
      if arrives < |line| {
        file.text := Some(file.text.value + line[..arrives]);
        dead := true;
        session := Do(codec, session, TornRecord(e, arrives));
        return false;
      }
      file.text := Some(file.text.value + line);
      LastWinsSnoc(session.log, e);
      entries := entries[EntryKey(e) := e];
      session := Do(codec, session, Op.Record(e));
      ok := true;
    }

    /** A recorded entry is reused only for a file of the same size and modification time. */
    method Lookup(f: BackupFile) returns (found: Option<SnapshotFile>)
      requires Valid()
      ensures found.Some? <==> Engine.LookupHits(entries, f)
      ensures found.Some? ==> found.value == entries[LookupKey(f)]
    {
      var key := LookupKey(f);
      if key !in entries || entries[key].size != f.size || entries[key].modTime != f.modTime { return None; }
      found := Some(entries[key]);
    }

    /** After publishing, the journal is removed, or emptied when it cannot be removed; either way the
        next run starts afresh and reports no stale snapshot. */
    method Complete(removes: bool)
      requires Valid()
      modifies file
      ensures file.text == if removes then None else Some("")
      ensures forall identity, now, env ::
                var next := History.Open(View(codec, file.text), identity, now, env);
                next == History.NoJournal || next == History.Fresh(None)
    {
      PoisonedIsRejected(codec);
      if removes {
        file.text := None;
      } else {
        file.text := Some("");
      }
    }
  }

  /** Open the journal of an identity: continue a readable, young one of the same identity; otherwise
      start a new one under `nextID`, naming the snapshot of a journal discarded as stale. */
  method OpenSnapshotJournal(c: Codec, file: DiskFile, identity: string, now: int, nextID: string, env: History.OpenEnv)
    returns (journal: Option<SnapshotJournal>, resumed: bool, stale: Option<string>)
    requires nextID != ""
    modifies file
    ensures match History.Open(View(c, old(file.text)), identity, now, env)
            case NoJournal => journal.None? && !resumed && stale.None?
            case Fresh(s) =>
              && journal.Some? && !resumed && stale == s
              && journal.value.session == Start(c, Header(nextID, now, identity))
            case Continued(image) =>
              && journal.Some? && resumed && stale.None?
              && journal.value.header.snapshotID == image.id
              && var r := Read(c, old(file.text).value);
                 journal.value.session == Session(old(file.text).value, r.header, r.entries, false)
    ensures journal.Some? ==>
              && fresh(journal.value) && journal.value.Valid() && journal.value.file == file && journal.value.codec == c
              && !journal.value.dead && journal.value.entries == LastWins(journal.value.session.log)
    ensures journal.None? ==>
              file.text == if !env.hasDir || env.otherwise.Kept? then old(file.text)
                           else if env.otherwise.Gone? then None else Some("")
  {
    journal, resumed, stale := None, false, None;
    if !env.hasDir { return; }
    if file.text.Some? {
      var header, entries := ReadJournal(c, file.text.value);
      if header.Some? {
        if header.value.identity == identity && now - header.value.createdAt <= History.MAX_AGE {
          if env.reopens {
            var j := new SnapshotJournal(c, header.value, file, entries,
              Session(file.text.value, header.value, Read(c, file.text.value).entries, false));
            return Some(j), true, None;
          }
        } else {
          stale := Some(header.value.snapshotID);
        }
      }
    }
    if !env.creates {
      stale := None;
      file.text := match env.otherwise case Kept => file.text case Gone => None case Torn => Some("");
      return;
    }
    var header := Header(nextID, now, identity);
    file.text := Some(c.encodeHeader(header) + "\n");
    var j := new SnapshotJournal(c, header, file, map[], Start(c, header));
    journal := Some(j);
  }
}
