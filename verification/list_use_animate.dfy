/** `src/ListWithActions/use-animate.ts`: the easing curve, `getValue` and
    `animate` of `src/VList/animate.ts` once more, with token-for-token
    identical bodies, and a `useAnimate` hook whose `scrollTop` state is
    written both by the throttled scroll handler and by the frames of
    `smoothScrollTo`. Whatever the order of the writes, the state is the
    most recent one. */
module ListUseAnimate {

  import opened Wrappers
  import Animation
  import opened ScrollTop

  /** The copy's `easing`: maps 0 to 0 and 1 to 1 and stays within `[0, 1]`
      on `[0, 1]`. */
  function Easing(time: real): (e: real)
    ensures time == 0.0 ==> e == 0.0
    ensures time == 1.0 ==> e == 1.0
    ensures 0.0 <= time <= 1.0 ==> 0.0 <= e <= 1.0
  {
    Animation.Easing(time)
  }

  /** The copy's `getValue`: pinned to `end` past the duration, between
      `start` and `end` within it. */
  function GetValue(start: real, end: real, elapsed: real, duration: real): (v: real)
    requires duration > 0.0
    ensures elapsed > duration ==> v == end
    ensures 0.0 <= elapsed <= duration ==> Animation.Between(v, start, end)
  {
    Animation.GetValue(start, end, elapsed, duration)
  }

  /** The copy's `animate` with `duration = 800` by default: it ends exactly
      when a sample passes the duration, with last update `to`; every update
      of a clock starting at 0 lies between `from` and `to`. */
  function Animate(from: real, to: real, duration: Option<real>, samples: seq<real>): (t: Animation.Trace)
    requires duration.None? || duration.value > 0.0
    ensures |t.updates| <= |samples|
    ensures |samples| > 0 ==> 1 <= |t.updates|
    ensures !t.scheduled ==> 1 <= |t.updates| && t.updates[|t.updates| - 1] == to
    ensures duration.None? ==> (t.scheduled <==> forall k :: 0 <= k < |samples| ==> samples[k] <= 800.0)
    ensures (forall k :: 0 <= k < |samples| ==> 0.0 <= samples[k]) ==>
      forall k :: 0 <= k < |t.updates| ==> Animation.Between(t.updates[k], from, to)
  {
    var t := Animation.Animate(from, to, duration, samples);
    var d := duration.GetOr(Animation.DefaultDuration);
    Animation.RunUpdates(from, to, d, samples);
    assert forall k :: 0 <= k < |t.updates| ==> t.updates[k] == Animation.GetValue(from, to, samples[k], d);
    t
  }

  /** `smoothScrollTo(to)` from state `scrollTop`, followed by any scroll
      events: the animation starts from the state it was started in, and the
      frames and the scroll events that come after them leave the state at
      the most recent write. If the animation ended and no scroll event came
      after its last frame, the state is exactly `to`. */
  function SmoothScrollTo(scrollTop: real, to: real, samples: seq<real>, after: seq<Write>): (s: real)
    ensures |after| > 0 ==> s == Value(after[|after| - 1])
    ensures |after| == 0 && !Animate(scrollTop, to, None, samples).scheduled ==> s == to
    ensures |after| == 0 && |samples| == 0 ==> s == scrollTop
    ensures |after| == 0 && |samples| > 0 ==>
      var u := Animate(scrollTop, to, None, samples).updates;
      && 1 <= |u|
      && s == u[|u| - 1]
      && s == Animation.GetValue(scrollTop, to, samples[|u| - 1], Animation.DefaultDuration)
  {
    var t := Animate(scrollTop, to, None, samples);
    Animation.RunUpdates(scrollTop, to, Animation.DefaultDuration, samples);
    assert !t.scheduled ==> 1 <= |t.updates| && t.updates[|t.updates| - 1] == to;
    ApplyFramesThen(scrollTop, t.updates, after)
  }

  /** A scroll event that arrives after an animation's last frame overrides
      the animation's target: last write wins, not the animation. */
  lemma LateScrollEventWins(state: real, to: real, samples: seq<real>, top: real)
    ensures SmoothScrollTo(state, to, samples, [ScrollEvent(top)]) == top
  {
  }

  /** An animation frame that arrives after a scroll event overrides it. */
  lemma LateFrameWins(state: real, before: seq<Write>, top: real, value: real)
    ensures Apply(state, before + [ScrollEvent(top), AnimationFrame(value)]) == value
  {
  }
}
