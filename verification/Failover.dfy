/** The watchdog's choice of server while heartbeats fail. */
module Failover {
  import opened Domain

  const PROBE := 10

  /** The URLs in the configuration file. */
  datatype Urls = Urls(server: string, backup: string)

  /** Which URL to use after the `failures`-th failure in a row: one newly swapped in on disk first;
      then, every PROBE failures, the other of disk URL and backup. */
  function Decide(current: string, anchor: string, disk: Urls, failures: nat): string {
    if disk.server != "" && disk.server != anchor && disk.server != current then disk.server
    else if failures >= PROBE && disk.backup != "" && failures % PROBE == 0 then
      if current == disk.backup && disk.server != "" then disk.server else disk.backup
    else current
  }

  datatype State = State(url: string, anchor: string, failures: nat)

  /** A heartbeat succeeded, or failed and the configuration was read again, if it could be. */
  datatype Tick = Answered | Failed(disk: Option<Urls>)

  function Next(s: State, t: Tick): State {
    match t
    case Answered => s.(failures := 0)
    case Failed(None) => s.(failures := s.failures + 1)
    case Failed(Some(disk)) => State(Decide(s.url, s.anchor, disk, s.failures + 1), disk.server, s.failures + 1)
  }

  function Run(s: State, ticks: seq<Tick>): State {
    if ticks == [] then s else Next(Run(s, ticks[..|ticks| - 1]), ticks[|ticks| - 1])
  }

  class FailoverClient {
    var baseURL: string
    var lastDiskURL: string
    var failures: nat

    function Now(): State
      reads this
    {
      State(baseURL, lastDiskURL, failures)
    }

    constructor (url: string)
      ensures Now() == State(url, url, 0)
    {
      baseURL, lastDiskURL, failures := url, url, 0;
    }

    method Heartbeat(t: Tick)
      modifies this
      ensures Now() == Next(old(Now()), t)
    {
      if t.Answered? {
        failures := 0;
        return;
      }
      failures := failures + 1;
      NoteFailure(t.disk);
    }

    /** Read the configuration again and retarget the client; an unreadable file changes nothing. A
        server URL newly swapped on disk is in use when this returns. */
    method NoteFailure(disk: Option<Urls>)
      modifies this
      ensures failures == old(failures)
      ensures disk.None? ==> baseURL == old(baseURL) && lastDiskURL == old(lastDiskURL)
      ensures disk.Some? ==> lastDiskURL == disk.value.server
      ensures disk.Some? ==> baseURL == Decide(old(baseURL), old(lastDiskURL), disk.value, failures)
      ensures disk.Some? && disk.value.server !in {"", old(lastDiskURL), old(baseURL)} ==> baseURL == disk.value.server
    {
      if disk.None? { return; }
      var next := Decide(baseURL, lastDiskURL, disk.value, failures);
      if next != baseURL { baseURL := next; }
      lastDiskURL := disk.value.server;
    }
  }

  /** The other of the two URLs. */
  function Other(disk: Urls, url: string): string {
    if url == disk.backup then disk.server else disk.backup
  }

  /** With an unchanged configuration of two different URLs, after n failures in a row the client is on
      the URL it started on exactly when floor(n / 10) is even, and on the other one otherwise. */
  lemma {:induction false} Alternates(s: State, disk: Urls, n: nat)
    requires disk.server != "" && disk.backup != "" && disk.server != disk.backup
    requires s.anchor == disk.server && s.failures == 0 && (s.url == disk.server || s.url == disk.backup)
    ensures var t := Run(s, seq(n, _ => Failed(Some(disk))));
            && t.failures == n && t.anchor == disk.server
            && (t.url == s.url <==> (n / PROBE) % 2 == 0)
            && t.url == if (n / PROBE) % 2 == 0 then s.url else Other(disk, s.url)
  {
    if n > 0 {
      var ticks := seq(n, _ => Failed(Some(disk)));
      assert ticks[..n - 1] == seq(n - 1, _ => Failed(Some(disk)));
      Alternates(s, disk, n - 1);
      TensStep(n);
    }
  }

  lemma {:induction false} TensStep(n: nat)
    requires n > 0
    ensures n / PROBE == (n - 1) / PROBE + if n % PROBE == 0 then 1 else 0
    ensures n % PROBE == 0 ==> n >= PROBE
  {
  }

  /** URLs the client has been told or has read from disk. */
  function Seen(start: string, ticks: seq<Tick>): set<string> {
    if ticks == [] then {start}
    else
      var t := ticks[|ticks| - 1];
      Seen(start, ticks[..|ticks| - 1])
      + if t.Failed? && t.disk.Some? then {t.disk.value.server, t.disk.value.backup} else {}
  }

  /** The server URL in the last configuration that could be read. */
  function LastRead(start: string, ticks: seq<Tick>): string {
    if ticks == [] then start
    else
      var t := ticks[|ticks| - 1];
      if t.Failed? && t.disk.Some? then t.disk.value.server else LastRead(start, ticks[..|ticks| - 1])
  }

  /** Whatever the configuration file does, the client only ever uses URLs it has seen there, never an
      empty one, and its anchor is the last server URL it read. */
  lemma {:induction false} OnlySeenUrls(start: string, ticks: seq<Tick>)
    requires start != ""
    ensures var s := Run(State(start, start, 0), ticks);
            s.url in Seen(start, ticks) && s.url != "" && s.anchor == LastRead(start, ticks)
  {
    if ticks != [] { OnlySeenUrls(start, ticks[..|ticks| - 1]); }
  }

  /** The failure count is that of the failed heartbeats since the last answered one, readable configuration
      or not. An answered heartbeat, and a failed one without a configuration, leave the URL alone. */
  lemma {:induction false} FailuresSinceAnswer(s: State, before: seq<Tick>, failed: seq<Tick>)
    requires forall k :: 0 <= k < |failed| ==> failed[k].Failed?
    ensures Run(s, before + [Answered] + failed).failures == |failed|
    ensures (forall k :: 0 <= k < |failed| ==> failed[k].disk.None?) ==>
              Run(s, before + [Answered] + failed) == Run(s, before).(failures := |failed|)
  {
    var all := before + [Answered] + failed;
    if failed == [] {
      assert all == before + [Answered] && (before + [Answered])[..|before|] == before;
    } else {
      FailuresSinceAnswer(s, before, failed[..|failed| - 1]);
      assert all[..|all| - 1] == before + [Answered] + failed[..|failed| - 1];
    }
  }

  /** A server URL swapped in on disk that is neither the anchor nor the URL in use is adopted on the
      same failed tick, at any failure count. */
  lemma {:induction false} SwapAdopted(start: string, ticks: seq<Tick>, disk: Urls)
    requires var s := Run(State(start, start, 0), ticks); disk.server !in {"", s.anchor, s.url}
    ensures Run(State(start, start, 0), ticks + [Failed(Some(disk))]).url == disk.server
  {
    assert (ticks + [Failed(Some(disk))])[..|ticks|] == ticks;
  }
}
