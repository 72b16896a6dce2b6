/** Unwrapping RTP timestamps: 32-bit ticks of a 90 kHz clock (section 5.1 of RFC 3550) back to elapsed
    media time. */
module RtpClock {
  import opened Domain

  const WRAP := 0x1_0000_0000
  const HALF := 0x8000_0000
  const TICKS_PER_MS := 90.0

  /** The difference of two timestamps, brought into the signed 32-bit range. */
  function SignedDelta(cur: int, prev: int): int {
    var d := cur - prev;
    if d > HALF then d - WRAP else if d < -HALF then d + WRAP else d
  }

  /** For 32-bit timestamps the delta is congruent to their difference and at most 2^31 in magnitude. */
  lemma {:induction false} DeltaIsCongruent(cur: int, prev: int)
    requires 0 <= cur < WRAP && 0 <= prev < WRAP
    ensures (SignedDelta(cur, prev) - (cur - prev)) % WRAP == 0
    ensures -HALF <= SignedDelta(cur, prev) <= HALF
  {
    var k := SignedDelta(cur, prev) - (cur - prev);
    assert k == 0 || k == WRAP || k == -WRAP;
  }

  lemma {:induction false} CongruentAndNear(x: int, y: int)
    requires (x - y) % WRAP == 0 && -WRAP < x - y < WRAP
    ensures x == y
  {
  }

  /** The timestamp a true tick count is sent as. */
  function Stamp(tick: int): int {
    tick % WRAP
  }

  lemma {:induction false} StampDifference(a: int, b: int)
    ensures (Stamp(b) - Stamp(a) - (b - a)) % WRAP == 0
  {
    assert a == WRAP * (a / WRAP) + Stamp(a) && b == WRAP * (b / WRAP) + Stamp(b);
    var q := a / WRAP - b / WRAP;
    assert Stamp(b) - Stamp(a) - (b - a) == WRAP * q;
    MultipleOfWrap(q);
  }

  lemma {:induction false} MultipleOfWrap(q: int)
    ensures (WRAP * q) % WRAP == 0
  {
  }

  lemma {:induction false} AddCongruent(x: int, y: int)
    requires x % WRAP == 0 && y % WRAP == 0
    ensures (x + y) % WRAP == 0
  {
  }

  /** A step between true ticks is recovered exactly when it is shorter than 2^31, or is 2^31 in either
      direction and the timestamps happen not to wrap. */
  lemma {:induction false} DeltaExactIff(a: int, b: int)
    ensures SignedDelta(Stamp(b), Stamp(a)) == b - a <==>
            || -HALF < b - a < HALF
            || (b - a == HALF && Stamp(b) > Stamp(a))
            || (b - a == -HALF && Stamp(b) < Stamp(a))
  {
    var d := SignedDelta(Stamp(b), Stamp(a));
    StampDifference(a, b);
    DeltaIsCongruent(Stamp(b), Stamp(a));
    AddCongruent(d - (Stamp(b) - Stamp(a)), Stamp(b) - Stamp(a) - (b - a));
    assert (d - (b - a)) % WRAP == 0;
    if -HALF < b - a < HALF { CongruentAndNear(d, b - a); }
  }

  datatype Frame = Frame(arrivalMs: real, rtpTs: int)

  function Abs(x: real): real {
    if x < 0.0 then -x else x
  }

  /** Media time from frame to frame, in milliseconds. */
  function MediaDelta(frames: seq<Frame>, i: nat): real
    requires 0 < i < |frames|
  {
    SignedDelta(frames[i].rtpTs, frames[i - 1].rtpTs) as real / TICKS_PER_MS
  }

  function Elapsed(frames: seq<Frame>, n: nat): real
    requires n <= |frames|
  {
    if n < 2 then 0.0 else Elapsed(frames, n - 1) + MediaDelta(frames, n - 1)
  }

  /** Pacing errors of the pairs that are not reordered. */
  function Pacing(frames: seq<Frame>, n: nat): seq<real>
    requires n <= |frames|
  {
    if n < 2 then []
    else
      var d := MediaDelta(frames, n - 1);
      Pacing(frames, n - 1)
      + if d >= 0.0 then [Abs(frames[n - 1].arrivalMs - frames[n - 2].arrivalMs - d)] else []
  }

  /** Wall-clock time minus media time, and the pacing errors, in one pass; there is no drift to speak of
      for fewer than two frames. */
  method MediaClockMetrics(frames: seq<Frame>) returns (drift: Option<real>, pacing: seq<real>)
    ensures drift.Some? <==> |frames| >= 2
    ensures drift.Some? ==>
              drift.value == frames[|frames| - 1].arrivalMs - frames[0].arrivalMs - Elapsed(frames, |frames|)
    ensures pacing == Pacing(frames, |frames|)
    ensures forall ticks: seq<int> :: drift.Some? && Carries(frames, ticks) && SmallSteps(ticks) ==>
              drift.value == frames[|frames| - 1].arrivalMs - frames[0].arrivalMs
                             - (ticks[|ticks| - 1] - ticks[0]) as real / TICKS_PER_MS
  {
    drift, pacing := None, [];
    if |frames| < 2 { return; }
    var elapsed := 0.0;
    for i := 1 to |frames|
      invariant elapsed == Elapsed(frames, i) && pacing == Pacing(frames, i)
    {
      var arrival := frames[i].arrivalMs - frames[i - 1].arrivalMs;
      var d := SignedDelta(frames[i].rtpTs, frames[i - 1].rtpTs) as real / TICKS_PER_MS;
      elapsed := elapsed + d;
      if d >= 0.0 { pacing := pacing + [Abs(arrival - d)]; }
    }
    drift := Some(frames[|frames| - 1].arrivalMs - frames[0].arrivalMs - elapsed);
    forall ticks: seq<int> | Carries(frames, ticks) && SmallSteps(ticks)
      ensures Elapsed(frames, |frames|) == (ticks[|ticks| - 1] - ticks[0]) as real / TICKS_PER_MS
    {
      ElapsedIsTrue(frames, ticks, |frames|);
    }
  }

  /** The frames carry the timestamps of these true ticks. */
  predicate Carries(frames: seq<Frame>, ticks: seq<int>) {
    |ticks| == |frames| && forall i :: 0 <= i < |frames| ==> frames[i].rtpTs == Stamp(ticks[i])
  }

  predicate SmallSteps(ticks: seq<int>) {
    forall i :: 0 < i < |ticks| ==> -HALF < ticks[i] - ticks[i - 1] < HALF
  }

  /** The frames that are not older than the one before them. */
  function InOrder(ticks: seq<int>, n: nat): (at: seq<nat>)
    requires n <= |ticks|
    ensures forall k :: 0 <= k < |at| ==> 0 < at[k] < n && ticks[at[k]] >= ticks[at[k] - 1]
    ensures forall i :: 0 < i < n && ticks[i] >= ticks[i - 1] ==> i in at
  {
    if n < 2 then [] else InOrder(ticks, n - 1) + if ticks[n - 1] >= ticks[n - 2] then [n - 1] else []
  }

  /** By how much a frame's arrival missed its true media time, counted from the frame before. */
  function PacingMiss(frames: seq<Frame>, ticks: seq<int>, i: nat): real
    requires |ticks| == |frames| && 0 < i < |frames|
  {
    var late := frames[i].arrivalMs - frames[i - 1].arrivalMs - (ticks[i] - ticks[i - 1]) as real / TICKS_PER_MS;
    if late >= 0.0 then late else -late
  }

  lemma {:induction false} MediaDeltaIsTrue(frames: seq<Frame>, ticks: seq<int>, i: nat)
    requires Carries(frames, ticks) && SmallSteps(ticks) && 0 < i < |frames|
    ensures MediaDelta(frames, i) == (ticks[i] - ticks[i - 1]) as real / TICKS_PER_MS
    ensures MediaDelta(frames, i) >= 0.0 <==> ticks[i] >= ticks[i - 1]
  {
    DeltaExactIff(ticks[i - 1], ticks[i]);
  }

  /** The measured pacing errors are those of these frames. */
  predicate MissesAt(frames: seq<Frame>, ticks: seq<int>, at: seq<nat>, pacing: seq<real>)
    requires |ticks| == |frames| && forall k :: 0 <= k < |at| ==> 0 < at[k] < |frames|
  {
    |pacing| == |at| && forall k :: 0 <= k < |at| ==> pacing[k] == PacingMiss(frames, ticks, at[k])
  }

  lemma {:induction false} MissesSnoc(frames: seq<Frame>, ticks: seq<int>, at: seq<nat>, pacing: seq<real>, i: nat)
    requires |ticks| == |frames| && 0 < i < |frames| && forall k :: 0 <= k < |at| ==> 0 < at[k] < |frames|
    requires MissesAt(frames, ticks, at, pacing)
    ensures MissesAt(frames, ticks, at + [i], pacing + [PacingMiss(frames, ticks, i)])
  {
  }

  lemma {:induction false} PacingStep(frames: seq<Frame>, ticks: seq<int>, n: nat)
    requires Carries(frames, ticks) && SmallSteps(ticks) && 1 < n <= |frames|
    ensures Pacing(frames, n)
            == Pacing(frames, n - 1) + if ticks[n - 1] >= ticks[n - 2] then [PacingMiss(frames, ticks, n - 1)] else []
  {
    MediaDeltaIsTrue(frames, ticks, n - 1);
  }

  /** There is one pacing error for each frame that is not reordered, in order, and it is the true one. */
  lemma {:induction false} PacingIsTrue(frames: seq<Frame>, ticks: seq<int>, n: nat)
    requires Carries(frames, ticks) && SmallSteps(ticks) && n <= |frames|
    ensures MissesAt(frames, ticks, InOrder(ticks, n), Pacing(frames, n))
  {
    if n > 1 {
      PacingIsTrue(frames, ticks, n - 1);
      PacingStep(frames, ticks, n);
      MissesSnoc(frames, ticks, InOrder(ticks, n - 1), Pacing(frames, n - 1), n - 1);
      var more := if ticks[n - 1] >= ticks[n - 2] then [n - 1] else [];
      assert InOrder(ticks, n) == InOrder(ticks, n - 1) + more;
    }
  }

  /** Whatever wraps and reorderings lie between, the accumulated media time is the true one. */
  lemma {:induction false} ElapsedIsTrue(frames: seq<Frame>, ticks: seq<int>, n: nat)
    requires Carries(frames, ticks) && SmallSteps(ticks) && 0 < n <= |frames|
    ensures Elapsed(frames, n) == (ticks[n - 1] - ticks[0]) as real / TICKS_PER_MS
    ensures Elapsed(frames, n) * 90.0 == (ticks[n - 1] - ticks[0]) as real
  {
    if n > 1 {
      ElapsedIsTrue(frames, ticks, n - 1);
      MediaDeltaIsTrue(frames, ticks, n - 1);
    }
  }
}
