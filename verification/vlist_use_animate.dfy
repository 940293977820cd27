/** `src/VList/use-animate.ts`: the easing curve, `getValue` and `animate`
    of `src/VList/animate.ts` again, with token-for-token identical bodies (so each
    is the canonical definition instantiated here), plus the `useAnimate`
    hook whose `smoothScrollTo(to)` animates from the current `scrollTop`
    state and writes every frame back into that state. */
module VListUseAnimate {

  import opened Wrappers
  import Animation
  import opened ScrollTop

  /** The copy's `easing`: maps 0 to 0 and 1 to 1 and stays within `[0, 1]`
      on `[0, 1]`. */
  function Easing(time: real): (e: real)
    ensures time == 0.0 ==> e == 0.0
    ensures time == 1.0 ==> e == 1.0
    ensures 0.0 <= time <= 1.0 ==> 0.0 <= e <= 1.0
  {
    Animation.Easing(time)
  }

  /** The copy's `getValue`: pinned to `end` past the duration, between
      `start` and `end` within it. */
  function GetValue(start: real, end: real, elapsed: real, duration: real): (v: real)
    requires duration > 0.0
    ensures elapsed > duration ==> v == end
    ensures 0.0 <= elapsed <= duration ==> Animation.Between(v, start, end)
  {
    Animation.GetValue(start, end, elapsed, duration)
  }

  /** The copy's `animate` with `duration = 800` by default: when it ends,
      its last update is `to`. */
  function Animate(from: real, to: real, duration: Option<real>, samples: seq<real>): (t: Animation.Trace)
    requires duration.None? || duration.value > 0.0
    ensures |t.updates| <= |samples|
    ensures |samples| > 0 ==> 1 <= |t.updates|
    ensures !t.scheduled ==> 1 <= |t.updates| && t.updates[|t.updates| - 1] == to
    ensures duration.None? ==> (t.scheduled <==> forall k :: 0 <= k < |samples| ==> samples[k] <= 800.0)
  {
    Animation.Animate(from, to, duration, samples)
  }

  /** `smoothScrollTo(to)` from state `scrollTop`: the animation starts from
      the current state, and each frame overwrites the state, so afterwards it
      is the most recent frame: `getValue` at the last sample the loop
      consumed. Once the animation has ended the state is exactly `to`; under
      a clock starting at 0 the state stays between the old state and `to`. */
  function SmoothScrollTo(scrollTop: real, to: real, samples: seq<real>): (s: real)
    ensures !Animate(scrollTop, to, None, samples).scheduled ==> s == to
    ensures |samples| == 0 ==> s == scrollTop
    ensures |samples| > 0 ==>
      var u := Animate(scrollTop, to, None, samples).updates;
      && 1 <= |u|
      && s == u[|u| - 1]
      && s == Animation.GetValue(scrollTop, to, samples[|u| - 1], Animation.DefaultDuration)
    ensures (forall k :: 0 <= k < |samples| ==> 0.0 <= samples[k]) ==> Animation.Between(s, scrollTop, to)
  {
    var t := Animate(scrollTop, to, None, samples);
    Animation.RunUpdates(scrollTop, to, Animation.DefaultDuration, samples);
    assert !t.scheduled ==> 1 <= |t.updates| && t.updates[|t.updates| - 1] == to;
    ApplyFramesThen(scrollTop, t.updates, [])
  }
}
