/** The run/stop protocol of the backup manager: any number of threads calling run and stop, interleaved
    at every lock section, cancellation, channel close and channel wait. */
module RunStop {
  import opened Domain

  /** Where a thread is. `chan` names a run by its done channel; a stop also carries, for the
      statements below, the run that was active when it looked. */
  datatype Thread =
    | Idle
    | Refused                                               // run: another run was active
    | Body(chan: nat)                                       // run: working
    | Unwinding(chan: nat)                                  // run: context cancelled, channel still open
    | Closed(chan: nat)                                     // run: channel closed, fields not yet cleared
    | Finished(chan: nat)                                   // run: returned
    | Observed(cancel: Option<nat>, done: Option<nat>, seen: nat)  // stop: handles copied out
    | Waiting(done: Option<nat>, seen: nat)           // stop: cancelled, about to wait
    | Woken(done: Option<nat>, seen: nat)             // stop: wait over
    | Stopped(running: bool, seen: nat)               // stop: returned

  /** The manager's fields, the channels, and the threads. */
  datatype Manager = Manager(
    jobRunning: bool,
    jobCancel: Option<nat>,
    jobDone: Option<nat>,
    closed: set<nat>,
    cancelled: set<nat>,
    next: nat,
    threads: map<nat, Thread>,
    owner: nat)          // the thread of the active run, while there is one

  datatype Call = Run(thread: nat) | Stop(thread: nat) | Step(thread: nat)

  function At(m: Manager, t: nat): Thread {
    if t in m.threads then m.threads[t] else Idle
  }

  function Put(m: Manager, t: nat, th: Thread): Manager {
    m.(threads := m.threads[t := th])
  }

  predicate Free(th: Thread) {
    th.Idle? || th.Refused? || th.Finished? || th.Stopped?
  }

  /** The first lock section of a run. */
  function BeginRun(m: Manager, t: nat): Manager {
    if m.jobRunning then Put(m, t, Refused)
    else Put(m.(jobRunning := true, jobCancel := Some(m.next), jobDone := Some(m.next), next := m.next + 1, owner := t),
             t, Body(m.next))
  }

  /** The first lock section of a stop. */
  function BeginStop(m: Manager, t: nat): Manager {
    if !m.jobRunning then Put(m, t, Stopped(false, 0))
    else Put(m, t, Observed(m.jobCancel, m.jobDone, ActiveChan(m)))
  }

  function ActiveChan(m: Manager): nat {
    var th := At(m, m.owner);
    if Active(th) then th.chan else 0
  }

  predicate Active(th: Thread) {
    th.Body? || th.Unwinding? || th.Closed?
  }

  /** Clear the handles if they are still the caller's. */
  function ClearIf(m: Manager, done: Option<nat>): Manager {
    if m.jobDone == done then m.(jobCancel := None, jobDone := None) else m
  }

  /** One step of a thread; a wait on an open channel does not move. */
  function Advance(m: Manager, t: nat): Manager {
    match At(m, t)
    case Body(c) => Put(m.(cancelled := m.cancelled + {c}), t, Unwinding(c))
    case Unwinding(c) => Put(m.(closed := m.closed + {c}), t, Closed(c))
    case Closed(c) => Put(ClearIf(m, Some(c)).(jobRunning := false), t, Finished(c))
    case Observed(cancel, done, seen) =>
      Put(if cancel.Some? then m.(cancelled := m.cancelled + {cancel.value}) else m, t, Waiting(done, seen))
    case Waiting(done, seen) =>
      if done.Some? && done.value !in m.closed then m else Put(m, t, Woken(done, seen))
    case Woken(done, seen) => Put(ClearIf(m, done), t, Stopped(true, seen))
    case _ => m
  }

  function Next(m: Manager, c: Call): Manager {
    match c
    case Run(t) => if Free(At(m, t)) then BeginRun(m, t) else m
    case Stop(t) => if Free(At(m, t)) then BeginStop(m, t) else m
    case Step(t) => Advance(m, t)
  }

  const INITIAL := Manager(false, None, None, {}, {}, 1, map[], 0)

  function Exec(calls: seq<Call>): Manager {
    if calls == [] then INITIAL else Next(Exec(calls[..|calls| - 1]), calls[|calls| - 1])
  }

  // ------------------------------------------------ the invariant

  /** What each thread knows. */
  ghost predicate ThreadOk(m: Manager, t: nat) {
    match At(m, t)
    case Body(c) => m.jobRunning && m.owner == t && c < m.next && c !in m.closed
    case Unwinding(c) => m.jobRunning && m.owner == t && c < m.next && c !in m.closed && c in m.cancelled
    case Closed(c) => m.jobRunning && m.owner == t && c < m.next && c in m.closed
    case Observed(cancel, done, seen) => SawRun(m, done, seen) && cancel == done
    case Waiting(done, seen) => SawRun(m, done, seen) && seen in m.cancelled
    case Woken(done, seen) => SawRun(m, done, seen) && seen in m.closed
    case Stopped(running, seen) => running ==> seen in m.closed && m.jobDone != Some(seen) && seen < m.next
    case _ => true
  }

  /** A stop holds the channel of the run it saw, or that run had closed it already. */
  ghost predicate SawRun(m: Manager, done: Option<nat>, seen: nat) {
    && seen < m.next && (done == Some(seen) || (done.None? && seen in m.closed && m.jobDone != Some(seen)))
    && (seen !in m.closed ==> m.jobRunning && Active(At(m, m.owner)) && At(m, m.owner).chan == seen)
  }

  ghost predicate FieldsOk(m: Manager) {
    && m.jobCancel == m.jobDone
    && (m.jobDone.Some? ==> m.jobRunning && Active(At(m, m.owner)) && At(m, m.owner).chan == m.jobDone.value)
    && (m.jobRunning ==> Active(At(m, m.owner)))
    && (m.jobRunning && m.jobDone.None? ==> At(m, m.owner).Closed?)
    && m.closed <= m.cancelled && (forall c :: c in m.cancelled ==> c < m.next)
  }

  ghost predicate Inv(m: Manager) {
    FieldsOk(m) && forall t :: ThreadOk(m, t)
  }

  lemma {:induction false} NextKeeps(m: Manager, c: Call)
    requires Inv(m)
    ensures Inv(Next(m, c))
  {
    var n, t := Next(m, c), c.thread;
    assert ThreadOk(m, t) && ThreadOk(m, m.owner);
    forall u ensures ThreadOk(n, u) {
      assert ThreadOk(m, u);
      OtherThread(m, c, u);
    }
  }

  /** A step of one thread changes nothing another one relies on. */
  lemma {:induction false} OtherThread(m: Manager, c: Call, u: nat)
    requires Inv(m)
    ensures ThreadOk(Next(m, c), u)
  {
    var t := c.thread;
    assert ThreadOk(m, t) && ThreadOk(m, u) && ThreadOk(m, m.owner);
    if u != t { assert At(Next(m, c), u) == At(m, u); }
  }

  lemma {:induction false} Reachable(calls: seq<Call>)
    ensures Inv(Exec(calls))
  {
    if calls != [] {
      Reachable(calls[..|calls| - 1]);
      NextKeeps(Exec(calls[..|calls| - 1]), calls[|calls| - 1]);
    }
  }

  // ------------------------------------------------ what it guarantees

  /** In every reachable state: at most one run is active, a done channel is held only while a job is
      marked as running, and a stop that returned true has seen its run close its channel and the manager
      let go of that run's handles. */
  lemma {:induction false} Guarantees(calls: seq<Call>, t: nat, u: nat)
    ensures var m := Exec(calls);
            && (Active(At(m, t)) && Active(At(m, u)) ==> t == u)
            && (m.jobDone.Some? ==> m.jobRunning)
            && (At(m, t).Stopped? && At(m, t).running ==>
                  At(m, t).seen in m.closed && m.jobDone != Some(At(m, t).seen) && m.jobCancel != Some(At(m, t).seen))
  {
    Reachable(calls);
    assert ThreadOk(Exec(calls), t) && ThreadOk(Exec(calls), u);
  }

  /** A stop that has taken its first step has cancelled the run it saw, or found it cancelled, and so has
      one that returned true; and no run closes its channel without having been cancelled. */
  lemma {:induction false} StopCancelsItsRun(calls: seq<Call>, t: nat)
    ensures var m := Exec(calls);
            var n := Next(m, Step(t));
            && (At(m, t).Observed? ==>
                  At(n, t).Waiting? && At(n, t).seen == At(m, t).seen && At(m, t).seen in n.cancelled)
            && (At(m, t).Waiting? || At(m, t).Woken? ==> At(m, t).seen in m.cancelled)
            && (At(m, t).Stopped? && At(m, t).running ==> At(m, t).seen in m.cancelled)
            && m.closed <= m.cancelled
  {
    Reachable(calls);
    assert ThreadOk(Exec(calls), t);
  }

  /** A run starts exactly when no run is active, on a channel no one has cancelled or closed and under
      handles of its own; otherwise it is refused and changes nothing. */
  lemma {:induction false} RunStartsIffIdle(calls: seq<Call>, t: nat)
    requires Free(At(Exec(calls), t))
    ensures var m := Exec(calls);
            var n := Next(m, Run(t));
            && (At(n, t).Body? <==> forall u :: !Active(At(m, u)))
            && (At(n, t).Body? ==>
                  var c := At(n, t).chan;
                  && c !in n.cancelled && c !in n.closed && n.owner == t
                  && n.jobRunning && n.jobCancel == Some(c) && n.jobDone == Some(c))
            && (!At(n, t).Body? ==> n == Put(m, t, Refused))
  {
    Reachable(calls);
    var m := Exec(calls);
    forall u ensures Active(At(m, u)) ==> m.jobRunning { assert ThreadOk(m, u); }
  }

  /** A stop finds nothing to stop exactly when no run is active. */
  lemma {:induction false} StopFindsNothingIff(calls: seq<Call>, t: nat)
    requires Free(At(Exec(calls), t))
    ensures var m := Exec(calls);
            At(Next(m, Stop(t)), t) == Stopped(false, 0) <==> forall u :: !Active(At(m, u))
  {
    Reachable(calls);
    var m := Exec(calls);
    forall u ensures Active(At(m, u)) ==> m.jobRunning { assert ThreadOk(m, u); }
  }

  /** The last step of a run leaves the manager idle, without handles. */
  lemma {:induction false} RunLeavesIdle(calls: seq<Call>, t: nat)
    requires At(Exec(calls), t).Closed?
    ensures var n := Next(Exec(calls), Step(t));
            !n.jobRunning && n.jobCancel.None? && n.jobDone.None? && forall u :: !Active(At(n, u))
  {
    Reachable(calls);
    var m, n := Exec(calls), Next(Exec(calls), Step(t));
    NextKeeps(m, Step(t));
    forall u ensures !Active(At(n, u)) { assert ThreadOk(n, u); }
    assert ThreadOk(m, t);
  }

  /** The run a stop saw is the one that was active when it looked. */
  lemma {:induction false} StopSeesActiveRun(calls: seq<Call>, t: nat)
    requires Free(At(Exec(calls), t)) && Exec(calls).jobRunning
    ensures var m, n := Exec(calls), Next(Exec(calls), Stop(t));
            Active(At(m, m.owner)) && At(n, t).Observed? && At(n, t).seen == At(m, m.owner).chan
  {
    Reachable(calls);
  }

  /** Only a stop's own run loses its handles to it, and only after closing its channel: handles of any
      later run survive every step a stop takes. */
  lemma {:induction false} StopClearsOnlyItsRun(calls: seq<Call>, t: nat)
    requires var th := At(Exec(calls), t); th.Observed? || th.Waiting? || th.Woken?
    ensures var m, n := Exec(calls), Next(Exec(calls), Step(t));
            && n.jobRunning == m.jobRunning
            && (n.jobDone != m.jobDone || n.jobCancel != m.jobCancel ==>
                  m.jobDone == Some(At(m, t).seen) && At(m, t).seen in m.closed)
            && (forall c :: c in n.cancelled && c !in m.cancelled ==> c == At(m, t).seen)
  {
    Reachable(calls);
    assert ThreadOk(Exec(calls), t);
  }

  /** A waiting stop is never stuck: two steps of the run it saw, at most, let it through, and its next
      two make it return true. */
  lemma {:induction false} StopReturns(calls: seq<Call>, t: nat)
    requires At(Exec(calls), t).Waiting?
    ensures var m := Exec(calls);
            var o := Step(m.owner);
            var open := At(m, t).seen !in m.closed;
            var path := (if !open then [] else if At(m, m.owner).Body? then [o, o] else [o]) + [Step(t), Step(t)];
            At(Exec(calls + path), t) == Stopped(true, At(m, t).seen)
  {
    var m := Exec(calls);
    var o, go := Step(m.owner), [Step(t), Step(t)];
    Reachable(calls);
    assert ThreadOk(m, t) && ThreadOk(m, m.owner);
    if At(m, t).seen in m.closed {
      ClosedLetsThrough(m, t);
      Run2(calls, go);
      assert [] + go == go;
    } else if At(m, m.owner).Body? {
      RunCloses(m, t);
      NextKeeps(m, o);
      RunCloses(Next(m, o), t);
      ClosedLetsThrough(Next(Next(m, o), o), t);
      Run4(calls, [o, o] + go);
    } else {
      RunCloses(m, t);
      ClosedLetsThrough(Next(m, o), t);
      Run3(calls, [o] + go);
    }
  }

  /** Once the channel is closed, the stop's next two steps end it. */
  lemma {:induction false} ClosedLetsThrough(m: Manager, t: nat)
    requires At(m, t).Waiting? && At(m, t).seen in m.closed
    requires At(m, t).done == None || At(m, t).done == Some(At(m, t).seen)
    ensures At(Next(Next(m, Step(t)), Step(t)), t) == Stopped(true, At(m, t).seen)
  {
  }

  /** A step of the run a stop waits for brings it closer to closing its channel. */
  lemma {:induction false} RunCloses(m: Manager, t: nat)
    requires Inv(m) && At(m, t).Waiting? && At(m, t).seen !in m.closed
    ensures ThreadOk(m, t) && ThreadOk(m, m.owner)
    ensures var n := Next(m, Step(m.owner));
            && At(n, t) == At(m, t) && n.owner == m.owner
            && (At(m, m.owner).Body? ==> At(n, m.owner).Unwinding? && At(m, t).seen !in n.closed)
            && (At(m, m.owner).Unwinding? ==> At(m, t).seen in n.closed)
  {
    assert ThreadOk(m, t) && ThreadOk(m, m.owner);
  }

  lemma {:induction false} ExecSnoc(calls: seq<Call>, c: Call)
    ensures Exec(calls + [c]) == Next(Exec(calls), c)
  {
    assert (calls + [c])[..|calls|] == calls;
  }

  lemma {:induction false} Run2(calls: seq<Call>, p: seq<Call>)
    requires |p| == 2
    ensures Exec(calls + p) == Next(Next(Exec(calls), p[0]), p[1])
  {
    ExecSnoc(calls, p[0]);
    ExecSnoc(calls + [p[0]], p[1]);
    assert calls + p == calls + [p[0]] + [p[1]];
  }

  lemma {:induction false} Run3(calls: seq<Call>, p: seq<Call>)
    requires |p| == 3
    ensures Exec(calls + p) == Next(Next(Next(Exec(calls), p[0]), p[1]), p[2])
  {
    Run2(calls, p[..2]);
    ExecSnoc(calls + p[..2], p[2]);
    assert calls + p == calls + p[..2] + [p[2]];
  }

  lemma {:induction false} Run4(calls: seq<Call>, p: seq<Call>)
    requires |p| == 4
    ensures Exec(calls + p) == Next(Next(Next(Next(Exec(calls), p[0]), p[1]), p[2]), p[3])
  {
    Run3(calls, p[..3]);
    ExecSnoc(calls + p[..3], p[3]);
    assert calls + p == calls + p[..3] + [p[3]];
  }
}
