/** The scroll animator of `src/VList/animate.ts`, the canonical copy of the
    easing curve, the interpolation step and the self-rescheduling frame loop
    (the same code appears in three more files, modelled by delegation in
    their own modules).

    JS numbers are abstracted as `real`. The clock (`performance.now()` and
    `requestAnimationFrame`) becomes an explicit sequence of elapsed-time
    samples, one per call of `tick`. */
module Animation {

  import opened Numbers
  import opened Wrappers

  /** `duration = 800`: the default length of an animation in milliseconds. */
  const DefaultDuration: real := 800.0

  /** `x` lies between `a` and `b` inclusive, whichever is larger. */
  predicate Between(x: real, a: real, b: real) {
    (a <= x <= b) || (b <= x <= a)
  }

  /** `x` raised to the natural power `n`. */
  function Pow(x: real, n: nat): real {
    if n == 0 then 1.0 else x * Pow(x, n - 1)
  }

  /** `easing(time) = 1 - --time * time * time * time`. The pre-decrement
      happens before any of the four reads, so every factor is `time - 1`. */
  function Easing(time: real): (e: real)
    ensures time == 0.0 ==> e == 0.0
    ensures time == 1.0 ==> e == 1.0
    ensures 0.0 <= time <= 1.0 ==> 0.0 <= e <= 1.0
  {
    var t := time - 1.0;
    var e := 1.0 - t * t * t * t;
    if 0.0 <= time <= 1.0 then
      SquareMonotone(0.0, 1.0 - time);
      SquareMonotone(1.0 - time, 1.0);
      var u := (1.0 - time) * (1.0 - time);
      SquareMonotone(u, 1.0);
      assert t * t * t * t == u * u;
      e
    else
      e
  }

  lemma SquareMonotone(v: real, u: real)
    requires 0.0 <= v <= u
    ensures 0.0 <= v * v <= u * u
  {
    assert v * v <= u * v;
    assert u * v <= u * u;
  }

  /** The curve is the quartic ease-out `1 - (1 - t)^4`. */
  lemma EasingIsQuarticEaseOut(t: real)
    ensures Easing(t) == 1.0 - Pow(1.0 - t, 4)
  {
    var x := 1.0 - t;
    assert Pow(x, 2) == x * x by {
      assert Pow(x, 1) == x * Pow(x, 0);
    }
    assert Pow(x, 4) == x * (x * (x * x));
  }

  /** The comment "cubic" on three of the copies does not describe the curve:
      at t = 1/2 the curve differs from the cubic ease-out `1 - (1 - t)^3`. */
  lemma EasingIsNotCubic()
    ensures Easing(0.5) == 0.9375
    ensures Easing(0.5) != 1.0 - Pow(1.0 - 0.5, 3)
  {
    assert Pow(0.5, 3) == 0.125;
  }

  /** On `[0, 1]` the curve never decreases. */
  lemma EasingMonotone(a: real, b: real)
    requires 0.0 <= a <= b <= 1.0
    ensures Easing(a) <= Easing(b)
  {
    var u, v := 1.0 - a, 1.0 - b;
    SquareMonotone(v, u);
    SquareMonotone(v * v, u * u);
    assert (a - 1.0) * (a - 1.0) * (a - 1.0) * (a - 1.0) == (u * u) * (u * u);
    assert (b - 1.0) * (b - 1.0) * (b - 1.0) * (b - 1.0) == (v * v) * (v * v);
  }

  /** `start + (end - start) * p` lies between `start` and `end` when
      `0 <= p <= 1`. */
  lemma InterpolationBetween(start: real, end: real, p: real)
    requires 0.0 <= p <= 1.0
    ensures Between(start + (end - start) * p, start, end)
  {
    var d := end - start;
    assert d * (1.0 - p) == d - d * p;
    if start <= end {
      MulNonNegative(d, p);
      MulNonNegative(d, 1.0 - p);
    } else {
      MulNonNegative(-d, p);
      MulNonNegative(-d, 1.0 - p);
    }
  }

  lemma MulNonNegative(a: real, b: real)
    requires a >= 0.0 && b >= 0.0
    ensures a * b >= 0.0
  {
    if a > 0.0 {
      MulLeft(0.0, b, a);
    }
  }

  /** `getValue(start, end, elapsed, duration)`: once `elapsed` passes
      `duration` the value is pinned exactly to `end`; within the animation it
      moves from `start` (at elapsed 0) to `end` (at elapsed `duration`),
      never leaving the range between them. */
  function GetValue(start: real, end: real, elapsed: real, duration: real): (v: real)
    requires duration > 0.0
    ensures elapsed > duration ==> v == end
    ensures elapsed == 0.0 ==> v == start
    ensures elapsed == duration ==> v == end
    ensures 0.0 <= elapsed <= duration ==> Between(v, start, end)
    ensures start == end ==> v == start
  {
    if elapsed > duration then end
    else
      var p := elapsed / duration;
      if 0.0 <= elapsed then
        assert p <= 1.0 by {
          assert p * duration == elapsed;
          if p > 1.0 {
            MulStrict(1.0, p, duration);
          }
        }
        InterpolationBetween(start, end, Easing(p));
        start + (end - start) * Easing(p)
      else
        start + (end - start) * Easing(p)
  }

  /** The fraction of the duration elapsed grows with the elapsed time and
      stays within `[0, 1]` during the animation. */
  lemma ProgressMonotone(e1: real, e2: real, duration: real)
    requires duration > 0.0
    requires 0.0 <= e1 <= e2 <= duration
    ensures 0.0 <= e1 / duration <= e2 / duration <= 1.0
  {
    var p1, p2 := e1 / duration, e2 / duration;
    assert p1 * duration == e1 && p2 * duration == e2;
    MulCancel(0.0, p1, duration);
    MulCancel(p1, p2, duration);
    MulCancel(p2, 1.0, duration);
  }

  /** `start + (end - start) * q` moves towards `end` as `q` grows. */
  lemma InterpolationMonotone(start: real, end: real, q1: real, q2: real)
    requires q1 <= q2
    ensures start <= end ==> start + (end - start) * q1 <= start + (end - start) * q2
    ensures end <= start ==> start + (end - start) * q2 <= start + (end - start) * q1
  {
    var d := end - start;
    assert d * (q2 - q1) == d * q2 - d * q1;
    if start <= end {
      MulNonNegative(d, q2 - q1);
    } else {
      MulNonNegative(-d, q2 - q1);
    }
  }

  lemma GetValueMonotoneWithin(start: real, end: real, e1: real, e2: real, duration: real)
    requires duration > 0.0
    requires 0.0 <= e1 <= e2 <= duration
    ensures start <= end ==> GetValue(start, end, e1, duration) <= GetValue(start, end, e2, duration)
    ensures end <= start ==> GetValue(start, end, e2, duration) <= GetValue(start, end, e1, duration)
  {
    var p1, p2 := e1 / duration, e2 / duration;
    ProgressMonotone(e1, e2, duration);
    EasingMonotone(p1, p2);
    var q1, q2 := Easing(p1), Easing(p2);
    InterpolationMonotone(start, end, q1, q2);
    assert GetValue(start, end, e1, duration) == start + (end - start) * q1;
    assert GetValue(start, end, e2, duration) == start + (end - start) * q2;
  }

  /** Later samples never move the value back towards `start`: the motion is
      monotone from `start` to `end`. */
  lemma GetValueMonotone(start: real, end: real, e1: real, e2: real, duration: real)
    requires duration > 0.0
    requires 0.0 <= e1 <= e2
    ensures start <= end ==> GetValue(start, end, e1, duration) <= GetValue(start, end, e2, duration)
    ensures end <= start ==> GetValue(start, end, e2, duration) <= GetValue(start, end, e1, duration)
  {
    var v1, v2 := GetValue(start, end, e1, duration), GetValue(start, end, e2, duration);
    if e2 <= duration {
      GetValueMonotoneWithin(start, end, e1, e2, duration);
    } else {
      assert v2 == end;
      assert e1 <= duration ==> Between(v1, start, end);
      assert e1 > duration ==> v1 == end;
    }
  }

  /** What a run of the frame loop has done once the clock has produced its
      samples: the values passed to `onUpdate`, in order, and whether another
      frame is still scheduled. */
  datatype Trace = Trace(updates: seq<real>, scheduled: bool)

  /** The `tick` loop driven by the elapsed times `samples`, one per call of
      `tick`: each frame emits `getValue(from, to, elapsed, duration)` and
      reschedules itself only while `elapsed <= duration`. The run stops right
      after the first sample past `duration`, whose update is exactly `to`;
      if every sample is within the duration, another frame is still
      scheduled. */
  function Run(from: real, to: real, duration: real, samples: seq<real>): (t: Trace)
    requires duration > 0.0
    ensures |t.updates| <= |samples|
    ensures |samples| > 0 ==> 1 <= |t.updates|
    ensures forall k :: 0 <= k < |t.updates| - 1 ==> samples[k] <= duration
    ensures t.scheduled <==> forall k :: 0 <= k < |samples| ==> samples[k] <= duration
    ensures t.scheduled ==> |t.updates| == |samples|
    ensures !t.scheduled ==>
      && 1 <= |t.updates|
      && samples[|t.updates| - 1] > duration
      && t.updates[|t.updates| - 1] == to
    decreases |samples|
  {
    if |samples| == 0 then Trace([], true)
    else if samples[0] <= duration then
      var rest := Run(from, to, duration, samples[1..]);
      var u := [GetValue(from, to, samples[0], duration)] + rest.updates;
      assert forall k :: 1 <= k < |samples| ==> samples[k] == samples[1..][k - 1];
      assert !rest.scheduled ==> u[|u| - 1] == rest.updates[|rest.updates| - 1];
      Trace(u, rest.scheduled)
    else
      Trace([GetValue(from, to, samples[0], duration)], false)
  }

  /** Frame `k` of the loop emits `getValue` at the k-th elapsed time. */
  lemma {:induction false} RunUpdates(from: real, to: real, duration: real, samples: seq<real>)
    requires duration > 0.0
    ensures var t := Run(from, to, duration, samples);
      forall k :: 0 <= k < |t.updates| ==> t.updates[k] == GetValue(from, to, samples[k], duration)
    decreases |samples|
  {
    if |samples| > 0 && samples[0] <= duration {
      var t := Run(from, to, duration, samples);
      var rest := Run(from, to, duration, samples[1..]);
      RunUpdates(from, to, duration, samples[1..]);
      forall k | 1 <= k < |t.updates|
        ensures t.updates[k] == GetValue(from, to, samples[k], duration)
      {
        assert t.updates[k] == rest.updates[k - 1];
        assert samples[k] == samples[1..][k - 1];
      }
    }
  }

  /** `animate({from, to, onUpdate, duration = 800})`: the frame loop with the
      duration defaulted to 800 when it is not given. */
  function Animate(from: real, to: real, duration: Option<real>, samples: seq<real>): (t: Trace)
    requires duration.None? || duration.value > 0.0
    ensures duration.None? ==> (t.scheduled <==> forall k :: 0 <= k < |samples| ==> samples[k] <= 800.0)
    ensures |t.updates| <= |samples|
    ensures |samples| > 0 ==> 1 <= |t.updates|
    ensures !t.scheduled ==> 1 <= |t.updates| && t.updates[|t.updates| - 1] == to
    ensures |samples| > 0 && samples[0] == 0.0 ==> 1 <= |t.updates| && t.updates[0] == from
  {
    Run(from, to, duration.GetOr(DefaultDuration), samples)
  }

  /** With the default duration, a frame at exactly 800 ms still reschedules
      and a frame at 801 ms ends the animation. */
  lemma DefaultDurationScenario(from: real, to: real)
    ensures Animate(from, to, None, [0.0, 800.0]).scheduled
    ensures !Animate(from, to, None, [0.0, 801.0]).scheduled
    ensures Animate(from, to, None, [0.0, 801.0]).updates == [from, to]
  {
    var t := Animate(from, to, None, [0.0, 801.0]);
    assert [0.0, 801.0][1] > 800.0;
    RunUpdates(from, to, DefaultDuration, [0.0, 801.0]);
  }

  /** A clock whose samples are strictly increasing. */
  ghost predicate StrictlyIncreasing(samples: seq<real>) {
    forall i, j :: 0 <= i < j < |samples| ==> samples[i] < samples[j]
  }

  /** Under a strictly increasing clock that eventually passes `duration`,
      the loop calls `onUpdate` finitely often (at most once per sample up to
      the first one past `duration`), ends, and its last update is exactly
      `to`. */
  lemma RunEndsAtTarget(from: real, to: real, duration: real, samples: seq<real>, i: int)
    requires duration > 0.0
    requires StrictlyIncreasing(samples)
    requires 0 <= i < |samples| && samples[i] > duration
    ensures var t := Run(from, to, duration, samples);
      && !t.scheduled
      && |t.updates| <= i + 1
      && t.updates[|t.updates| - 1] == to
  {
    var t := Run(from, to, duration, samples);
    assert !t.scheduled;
  }

  /** A clock that never reads before the animation's start keeps every
      update between `from` and `to`. */
  lemma RunStaysBetween(from: real, to: real, duration: real, samples: seq<real>)
    requires duration > 0.0
    requires forall k :: 0 <= k < |samples| ==> samples[k] >= 0.0
    ensures var u := Run(from, to, duration, samples).updates;
      forall k :: 0 <= k < |u| ==> Between(u[k], from, to)
  {
    var u := Run(from, to, duration, samples).updates;
    RunUpdates(from, to, duration, samples);
    forall k | 0 <= k < |u|
      ensures Between(u[k], from, to)
    {
      assert u[k] == GetValue(from, to, samples[k], duration);
    }
  }

  /** Under a strictly increasing clock that starts at or after the
      animation's start, the updates move monotonically from `from` towards
      `to`. */
  lemma RunMonotone(from: real, to: real, duration: real, samples: seq<real>)
    requires duration > 0.0
    requires StrictlyIncreasing(samples)
    requires |samples| > 0 ==> samples[0] >= 0.0
    ensures var u := Run(from, to, duration, samples).updates;
      forall k :: 0 < k < |u| ==>
        && (from <= to ==> u[k - 1] <= u[k])
        && (to <= from ==> u[k] <= u[k - 1])
  {
    var u := Run(from, to, duration, samples).updates;
    RunUpdates(from, to, duration, samples);
    forall k | 0 < k < |u|
      ensures from <= to ==> u[k - 1] <= u[k]
      ensures to <= from ==> u[k] <= u[k - 1]
    {
      if k > 1 {
        assert samples[0] < samples[k - 1];
      }
      assert samples[k - 1] < samples[k];
      GetValueMonotone(from, to, samples[k - 1], samples[k], duration);
    }
  }

  /** A clock that advances by at least `frame` milliseconds per frame,
      starting at or after the animation's start. */
  ghost predicate AdvancingClock(samples: seq<real>, frame: real) {
    && frame > 0.0
    && (|samples| > 0 ==> samples[0] >= 0.0)
    && forall i :: 0 <= i < |samples| - 1 ==> samples[i + 1] - samples[i] >= frame
  }

  lemma {:induction false} AdvancingClockLowerBound(samples: seq<real>, frame: real, i: nat)
    requires AdvancingClock(samples, frame)
    requires i < |samples|
    ensures samples[i] >= i as real * frame
  {
    if i > 0 {
      AdvancingClockLowerBound(samples, frame, i - 1);
      assert samples[i] - samples[i - 1] >= frame;
    }
  }

  /** Termination with a bound: if every frame advances the clock by at least
      `frame` milliseconds, the loop ends after at most
      `floor(duration / frame) + 2` frames with its last update exactly `to`. */
  lemma RunTerminates(from: real, to: real, duration: real, samples: seq<real>, frame: real)
    requires duration > 0.0
    requires AdvancingClock(samples, frame)
    requires |samples| >= FloorDiv(duration, frame) + 2
    ensures var t := Run(from, to, duration, samples);
      && !t.scheduled
      && |t.updates| <= FloorDiv(duration, frame) + 2
      && t.updates[|t.updates| - 1] == to
  {
    var k := FloorDiv(duration, frame);
    var bound := k + 1;
    FloorDivNonNegative(duration, frame);
    assert duration < bound as real * frame;
    AdvancingClockLowerBound(samples, frame, bound);
    assert samples[bound] > duration;
  }
}
