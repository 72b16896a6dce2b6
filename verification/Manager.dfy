/** Which managers the backup helper builds, when such a manager prunes, and what its journals are
    told apart by. */
module Manager {
  import opened Domain
  import opened Storage
  import opened Retention
  import opened Text

  datatype BackupConfig = BackupConfig(paths: seq<string>, retention: int, systemState: bool)

  /** The agent's configuration file, as far as managers depend on it. */
  datatype AgentConfig = AgentConfig(enabled: bool, paths: seq<string>, retention: int, systemState: bool)

  /** A backup command sent by the server. */
  datatype Payload = Payload(provider: Option<string>, systemImage: bool, paths: seq<string>)

  function FromConfig(cfg: AgentConfig): Option<BackupConfig> {
    if !cfg.enabled || cfg.paths == [] then None
    else Some(BackupConfig(cfg.paths, if cfg.retention <= 0 then 7 else cfg.retention, cfg.systemState))
  }

  function FromPayload(p: Payload): Option<BackupConfig> {
    if p.provider != Some("s3") && p.provider != Some("local") then None
    else if p.systemImage then Some(BackupConfig([], 0, true))
    else if p.paths == [] then None
    else Some(BackupConfig(p.paths, 0, false))
  }

  /** References are made whenever the run backs up files, and not for a pure system-state run. */
  predicate Dedupes(cfg: BackupConfig) {
    !cfg.systemState || cfg.paths != []
  }

  ghost predicate BuiltByHelper(cfg: BackupConfig) {
    (exists a :: FromConfig(a) == Some(cfg)) || (exists p :: FromPayload(p) == Some(cfg))
  }

  /** Exactly the managers the helper builds: with files and a count, from the configuration file; and without
      a count, for files alone or system state alone, from a command. */
  lemma {:induction false} HelperBuildsExactly(cfg: BackupConfig)
    ensures BuiltByHelper(cfg) <==>
            (cfg.paths != [] && cfg.retention > 0) || (cfg.retention == 0 && (cfg.systemState <==> cfg.paths == []))
  {
    if cfg.paths != [] && cfg.retention > 0 {
      assert FromConfig(AgentConfig(true, cfg.paths, cfg.retention, cfg.systemState)) == Some(cfg);
    } else if cfg.retention == 0 && (cfg.systemState <==> cfg.paths == []) {
      assert FromPayload(Payload(Some("local"), cfg.systemState, cfg.paths)) == Some(cfg);
    }
  }

  /** When there is a manager at all, and what an unset count means. */
  lemma {:induction false} HelperBuildsWhen(a: AgentConfig, p: Payload)
    ensures FromConfig(a).Some? <==> a.enabled && a.paths != []
    ensures a.retention <= 0 ==> FromConfig(a) == FromConfig(a.(retention := 7))
    ensures FromPayload(p).Some? <==> p.provider in {Some("s3"), Some("local")} && (p.systemImage || p.paths != [])
  {
  }

  /** No manager built from the configuration file or from a command reaches reference-blind pruning. */
  lemma {:induction false} HelperNeverPrunes(cfg: BackupConfig)
    requires BuiltByHelper(cfg)
    ensures cfg.retention <= 0 || !cfg.systemState || cfg.paths != []
  {
    if a :| FromConfig(a) == Some(cfg) {
      assert cfg.paths == a.paths;
    } else {
      var p :| FromPayload(p) == Some(cfg);
    }
  }

  /** The tail of a run: prune only if a snapshot came out, a count is set and no references are made. */
  method RetentionStep(p: Provider, cfg: BackupConfig, hasSnapshot: bool, stray: set<string>, unreadable: set<string>,
                       deletable: set<string>)
    returns (ghost snaps: seq<Snapshot>)
    modifies p
    ensures !hasSnapshot || cfg.retention <= 0 || !cfg.systemState || cfg.paths != [] ==> p.objects == old(p.objects)
    ensures hasSnapshot && cfg.retention > 0 && cfg.systemState && cfg.paths == [] ==>
              p.objects == Pruned(old(p.objects), Expired(snaps, cfg.retention), deletable)
    ensures hasSnapshot && cfg.retention > 0 && cfg.systemState && cfg.paths == [] ==>
              Ascending(snaps) && forall s :: s in snaps <==>
                exists k :: Listed(old(p.objects), k, stray) && Fetch(old(p.objects), k, unreadable) == Some(s)
    ensures BuiltByHelper(cfg) ==> p.objects == old(p.objects)
  {
    if BuiltByHelper(cfg) { HelperNeverPrunes(cfg); }
    snaps := [];
    if hasSnapshot && cfg.retention > 0 && !Dedupes(cfg) {
      snaps := DeleteSnapshots(p, cfg.retention, stray, unreadable, deletable);
    }
  }

  // ------------------------------------------------ journal identity

  /** What a journal is matched by: the destination, then the configured paths in order. */
  function Identity(destination: string, paths: seq<string>): string {
    destination + "|" + Join(paths, ',')
  }

  /** Two non-empty path lists get one identity exactly when their comma-separated pieces agree; so
      identity tells comma-free lists apart, order included. */
  lemma {:induction false} IdentitySeparates(destination: string, a: seq<string>, b: seq<string>)
    requires a != [] && b != []
    ensures Identity(destination, a) == Identity(destination, b) <==> Pieces(a, ',') == Pieces(b, ',')
    ensures (forall p :: p in a + b ==> ',' !in p) ==>
              (Identity(destination, a) == Identity(destination, b) <==> a == b)
  {
    var h := destination + "|";
    assert Identity(destination, a)[|h|..] == Join(a, ',') && Identity(destination, b)[|h|..] == Join(b, ',');
    SplitJoin(a, ',');
    SplitJoin(b, ',');
    JoinSplit(Join(a, ','), ',');
    JoinSplit(Join(b, ','), ',');
    if forall p :: p in a + b ==> ',' !in p {
      forall p | p in a ensures ',' !in p { assert p in a + b; }
      forall p | p in b ensures ',' !in p { assert p in a + b; }
      PiecesOfFree(a, ',');
      PiecesOfFree(b, ',');
    }
  }

  /** Two destinations: one identity exactly when what lies between the bars agrees. So destinations with the
      same number of bars are told apart, whatever the paths. */
  lemma {:induction false} DestinationsSeparate(d: string, a: seq<string>, e: string, b: seq<string>)
    requires a != [] && b != []
    ensures Identity(d, a) == Identity(e, b)
            <==> Split(d, '|') + Split(Join(a, ','), '|') == Split(e, '|') + Split(Join(b, ','), '|')
    ensures |Split(d, '|')| == |Split(e, '|')| ==>
              (Identity(d, a) == Identity(e, b) <==> d == e && Pieces(a, ',') == Pieces(b, ','))
  {
    var x, y, k := Join(a, ','), Join(b, ','), |Split(d, '|')|;
    SplitConcat(d, x, '|');
    SplitConcat(e, y, '|');
    JoinSplit(Identity(d, a), '|');
    JoinSplit(Identity(e, b), '|');
    if k == |Split(e, '|')| {
      assert (Split(d, '|') + Split(x, '|'))[..k] == Split(d, '|');
      assert (Split(e, '|') + Split(y, '|'))[..k] == Split(e, '|');
      JoinSplit(d, '|');
      JoinSplit(e, '|');
      IdentitySeparates(d, a, b);
    }
  }

  /** A local destination with a bar in its path can share its identity with another one. */
  lemma {:induction false} BarConfuses()
    ensures Identity("local|/x|/a", ["/b"]) == Identity("local|/x", ["/a|/b"])
  {
    assert Join(["/b"], ',') == "/b" && Join(["/a|/b"], ',') == "/a|/b";
    assert "local|/x|/a" + "|" + "/b" == "local|/x" + "|" + "/a|/b";
  }

  /** A path with a comma can share its identity with two paths. */
  lemma {:induction false} CommaConfuses(destination: string)
    ensures Identity(destination, ["/a,/b"]) == Identity(destination, ["/a", "/b"])
  {
    assert ["/a", "/b"][1..] == ["/b"];
    assert Join(["/a", "/b"], ',') == "/a" + [','] + "/b" == "/a,/b";
  }
}
