/** The authentication gate: after a run of rejected requests, retries are spaced out by a doubling,
    capped backoff. Times are in seconds. */
module AuthBackoff {
  const INITIAL := 1
  const MAX := 30 * 60

  datatype State = State(consecutive: nat, dead: bool, backoff: nat, lastFailure: real)

  function Doubled(backoff: nat): nat {
    if 2 * backoff > MAX then MAX else 2 * backoff
  }

  /** One rejected request. */
  function Fail(threshold: int, s: State, now: real): State {
    if s.dead then s.(backoff := Doubled(s.backoff), lastFailure := now)
    else if s.consecutive + 1 < threshold then s.(consecutive := s.consecutive + 1, lastFailure := now)
    else State(s.consecutive + 1, true, INITIAL, now)
  }

  function Succeed(s: State): State {
    s.(dead := false, consecutive := 0, backoff := INITIAL)
  }

  predicate Skips(s: State, now: real) {
    s.dead && now - s.lastFailure < s.backoff as real
  }

  class Monitor {
    const threshold: int
    var consecutive: nat
    var dead: bool
    var backoff: nat
    var lastFailure: real

    function Now(): State
      reads this
    {
      State(consecutive, dead, backoff, lastFailure)
    }

    constructor (limit: int)
      ensures threshold == limit && !dead && consecutive == 0 && backoff == INITIAL
    {
      threshold, consecutive, dead, backoff, lastFailure := limit, 0, false, INITIAL, 0.0;
    }

    method RecordAuthFailure(now: real)
      modifies this
      ensures Now() == Fail(threshold, old(Now()), now)
    {
      lastFailure := now;
      if !dead {
        consecutive := consecutive + 1;
        if consecutive < threshold { return; }
        dead := true;
        backoff := INITIAL;
        return;
      }
      backoff := backoff * 2;
      if backoff > MAX { backoff := MAX; }
    }

    method RecordSuccess()
      modifies this
      ensures Now() == Succeed(old(Now()))
    {
      dead, consecutive, backoff := false, 0, INITIAL;
    }

    method ShouldSkip(now: real) returns (skip: bool)
      ensures skip == Skips(Now(), now)
    {
      if !dead { return false; }
      skip := now - lastFailure < backoff as real;
    }
  }

  // ------------------------------------------------ the backoff curve

  function Pow2(k: nat): nat {
    if k == 0 then 1 else 2 * Pow2(k - 1)
  }

  /** The backoff after `k` failures beyond the one that tripped the gate. */
  function Curve(k: nat): nat {
    if Pow2(k) > MAX then MAX else Pow2(k)
  }

  function FailAll(threshold: int, s: State, times: seq<real>): State {
    if times == [] then s else Fail(threshold, FailAll(threshold, s, times[..|times| - 1]), times[|times| - 1])
  }

  lemma {:induction false} CurveDoubles(k: nat)
    ensures Curve(k + 1) == Doubled(Curve(k))
  {
  }

  /** From a closed gate, the k-th failure leaves a backoff of min(2^k s, 30 min). */
  lemma {:induction false} BackoffFollowsCurve(threshold: int, s: State, times: seq<real>)
    requires s.dead && s.backoff == INITIAL
    ensures var t := FailAll(threshold, s, times);
            && t.dead && t.backoff == Curve(|times|)
            && t.lastFailure == if times == [] then s.lastFailure else times[|times| - 1]
  {
    if times != [] {
      BackoffFollowsCurve(threshold, s, times[..|times| - 1]);
      CurveDoubles(|times| - 1);
    }
  }

  /** A new monitor trips at its threshold-th failure in a row (at the first, for a threshold below
      two), with the initial backoff. */
  lemma {:induction false} TripsAtThreshold(threshold: int, s: State, times: seq<real>)
    requires !s.dead && s.consecutive == 0 && 0 < |times| && (|times| <= threshold || |times| == 1)
    ensures var t := FailAll(threshold, s, times);
            && (t.dead <==> |times| >= threshold)
            && (!t.dead ==> t.consecutive == |times|)
            && (t.dead ==> t.backoff == INITIAL)
  {
    if |times| > 1 { TripsAtThreshold(threshold, s, times[..|times| - 1]); }
  }

  const NEW := State(0, false, INITIAL, 0.0)

  /** From a new monitor, after any failures in a row: how many were counted, whether the gate is closed, and
      since when. A success brings the new monitor back, except for the time of the last failure. */
  lemma {:induction false} FailuresInARow(threshold: int, times: seq<real>)
    ensures var t, trip := FailAll(threshold, NEW, times), if threshold < 1 then 1 else threshold;
            && t.consecutive == (if |times| < trip then |times| else trip)
            && (t.dead <==> |times| >= trip)
            && t.backoff == (if t.dead then Curve(|times| - trip) else INITIAL)
            && t.lastFailure == (if times == [] then 0.0 else times[|times| - 1])
            && Succeed(t) == NEW.(lastFailure := t.lastFailure)
  {
    if times != [] {
      var trip := if threshold < 1 then 1 else threshold;
      FailuresInARow(threshold, times[..|times| - 1]);
      if |times| > trip { CurveDoubles(|times| - 1 - trip); }
    }
  }

  // ------------------------------------------------ a caller that obeys the gate and always fails

  /** Each attempt is made only when the gate allows it, and fails. */
  predicate Obeys(threshold: int, s: State, times: seq<real>) {
    times == [] ||
    (Obeys(threshold, s, times[..|times| - 1])
     && !Skips(FailAll(threshold, s, times[..|times| - 1]), times[|times| - 1]))
  }

  /** Time that `n` consecutive gated attempts take at least, measured from the failure before them. */
  function Needed(n: nat): nat {
    if n == 0 then 0 else Needed(n - 1) + Curve(n - 1)
  }

  /** Exponential up to the eleventh attempt, linear after. */
  lemma {:induction false} NeededClosedForm(n: nat)
    ensures Needed(n) == if n <= 11 then Pow2(n) - 1 else 2047 + (n - 11) * MAX
  {
    assert Pow2(10) == 1024 by { assert Pow2(5) == 32; }
    if n > 0 {
      NeededClosedForm(n - 1);
      if n <= 11 { Pow2Grows(n - 1, 10); } else { Pow2Grows(11, n - 1); }
    }
  }

  lemma {:induction false} Pow2Grows(a: nat, b: nat)
    requires a <= b
    ensures Pow2(a) <= Pow2(b)
  {
    if a < b { Pow2Grows(a, b - 1); }
  }

  lemma {:induction false} CurveGrows(a: nat, b: nat)
    requires a <= b
    ensures Curve(a) <= Curve(b)
  {
    Pow2Grows(a, b);
  }

  /** The gate spaces consecutive attempts by the curve. */
  lemma {:induction false} Gap(threshold: int, s: State, times: seq<real>)
    requires s.dead && s.backoff == INITIAL && times != [] && Obeys(threshold, s, times)
    ensures var n := |times| - 1;
            times[n] - (if n == 0 then s.lastFailure else times[n - 1]) >= Curve(n) as real
  {
    BackoffFollowsCurve(threshold, s, times[..|times| - 1]);
  }

  lemma {:induction false} ObeysPrefix(threshold: int, s: State, times: seq<real>, n: nat)
    requires Obeys(threshold, s, times) && n <= |times|
    ensures Obeys(threshold, s, times[..n])
    decreases |times|
  {
    if n == |times| {
      assert times[..n] == times;
    } else {
      ObeysPrefix(threshold, s, times[..|times| - 1], n);
      assert times[..|times| - 1][..n] == times[..n];
    }
  }

  /** Attempts number `a` to `b` after tripping span at least what that many attempts need, less the
      first wait: in any window of length T there are at most n attempts with Needed(n) <= T + 1. */
  lemma {:induction false} AttemptsInWindow(threshold: int, s: State, times: seq<real>, a: nat, b: nat)
    requires s.dead && s.backoff == INITIAL && Obeys(threshold, s, times) && a <= b < |times|
    ensures times[b] - times[a] >= (Needed(b - a + 1) - 1) as real
    decreases b
  {
    if a < b {
      AttemptsInWindow(threshold, s, times, a, b - 1);
      ObeysPrefix(threshold, s, times, b + 1);
      assert times[..b + 1][b] == times[b] && times[..b + 1][b - 1] == times[b - 1];
      Gap(threshold, s, times[..b + 1]);
      CurveGrows(b - a, b);
    }
  }

  /** The largest k with 2^k <= n. */
  function Log2(n: nat): (k: nat)
    requires n > 0
    ensures Pow2(k) <= n < Pow2(k + 1)
  {
    if n == 1 then 0 else 1 + Log2(n / 2)
  }

  /** The most attempts a window of `t` seconds can hold: logarithmic up to an hour or so, then linear. */
  function Bound(t: nat): nat {
    if t + 1 < 3847 then Log2(t + 2) else 11 + (t + 1 - 2047) / MAX
  }

  /** The bound is exact for the time that attempts need: that many fit and one more does not. */
  lemma {:induction false} BoundIsExact(t: nat)
    ensures Needed(Bound(t)) <= t + 1 < Needed(Bound(t) + 1)
  {
    if t + 1 < 3847 { ExactWhenShort(t); } else { ExactWhenLong(t); }
  }

  lemma {:induction false} ExactWhenShort(t: nat)
    requires t + 1 < 3847
    ensures Needed(Log2(t + 2)) <= t + 1 < Needed(Log2(t + 2) + 1)
  {
    var k := Log2(t + 2);
    PowersOfTwo();
    if k >= 12 { Pow2Grows(12, k); }
    NeededClosedForm(k);
    NeededClosedForm(k + 1);
  }

  lemma {:induction false} ExactWhenLong(t: nat)
    requires t + 1 >= 3847
    ensures var k := 11 + (t + 1 - 2047) / MAX; Needed(k) <= t + 1 < Needed(k + 1)
  {
    var q := (t + 1 - 2047) / MAX;
    NeededClosedForm(11 + q);
    NeededClosedForm(12 + q);
    assert q * MAX <= t + 1 - 2047 < (q + 1) * MAX;
  }

  lemma {:induction false} PowersOfTwo()
    ensures Pow2(11) == 2048 && Pow2(12) == 4096
  {
    assert Pow2(4) == 16 && Pow2(8) == 256;
  }

  lemma {:induction false} NeededGrows(a: nat, b: nat)
    requires a <= b
    ensures Needed(a) <= Needed(b)
  {
    if a < b { NeededGrows(a, b - 1); }
  }

  /** In any window of `t` seconds after tripping there are at most Bound(t) attempts. */
  lemma {:induction false} AttemptsBounded(threshold: int, s: State, times: seq<real>, a: nat, b: nat, t: nat)
    requires s.dead && s.backoff == INITIAL && Obeys(threshold, s, times) && a <= b < |times|
    requires times[b] - times[a] <= t as real
    ensures b - a + 1 <= Bound(t)
  {
    AttemptsInWindow(threshold, s, times, a, b);
    BoundIsExact(t);
    if b - a + 1 > Bound(t) { NeededGrows(Bound(t) + 1, b - a + 1); }
  }

  /** Counting from the trip itself, the first wait counts too. */
  lemma {:induction false} AttemptsSinceTrip(threshold: int, s: State, times: seq<real>)
    requires s.dead && s.backoff == INITIAL && times != [] && Obeys(threshold, s, times)
    ensures times[|times| - 1] - s.lastFailure >= Needed(|times|) as real
  {
    var n := |times| - 1;
    Gap(threshold, s, times);
    if n > 0 { AttemptsSinceTrip(threshold, s, times[..n]); }
  }

  /** A retry is always allowed in the end: half an hour after the last failure the gate is open,
      and it is open for good after a success. */
  lemma {:induction false} RetryEventually(threshold: int, s: State, times: seq<real>, now: real)
    requires s.dead && s.backoff == INITIAL
    ensures var t := FailAll(threshold, s, times);
            && (now - t.lastFailure >= MAX as real ==> !Skips(t, now))
            && !Skips(Succeed(t), now)
            && Succeed(t).consecutive == 0
  {
    BackoffFollowsCurve(threshold, s, times);
  }
}
