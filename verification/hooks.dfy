/** `src/ListWithActions/hooks.ts`: a third copy of the curve and step (named
    `ease` and `step` here), an `animate` whose `from` and `to` default to 0
    and whose duration is fixed at 800, and a `useAnimate` hook with
    `smoothScrollToStart` (target 0) and `smoothScrollToEnd` (target
    `scrollHeight`), both starting from the element's current `scrollTop`.
    `useForwardRef` and the listener wiring of `useThrottledScrollHandler`
    are React plumbing and are not modelled. */
module ListHooks {

  import opened Wrappers
  import Animation
  import opened ScrollTop

  /** `const duration = 800`. */
  const Duration: real := 800.0

  /** `ease`: maps 0 to 0 and 1 to 1 and stays within `[0, 1]` on `[0, 1]`. */
  function Ease(time: real): (e: real)
    ensures time == 0.0 ==> e == 0.0
    ensures time == 1.0 ==> e == 1.0
    ensures 0.0 <= time <= 1.0 ==> 0.0 <= e <= 1.0
  {
    Animation.Easing(time)
  }

  /** `ease` never decreases on `[0, 1]`. */
  lemma EaseMonotone(a: real, b: real)
    requires 0.0 <= a <= b <= 1.0
    ensures Ease(a) <= Ease(b)
  {
    Animation.EasingMonotone(a, b);
  }

  /** `step`: exactly `end` past the duration, between `start` and `end`
      within it. */
  function Step(start: real, end: real, elapsed: real, duration: real): (v: real)
    requires duration > 0.0
    ensures elapsed > duration ==> v == end
    ensures 0.0 <= elapsed <= duration ==> Animation.Between(v, start, end)
  {
    Animation.GetValue(start, end, elapsed, duration)
  }

  /** `animate({from = 0, to = 0, onTick})`: a missing `from` or `to` is 0,
      the loop reschedules exactly while the samples stay within 800 ms, and
      once it ends its last `onTick` is the (defaulted) target. */
  function Animate(from: Option<real>, to: Option<real>, samples: seq<real>): (t: Animation.Trace)
    ensures t.scheduled <==> forall k :: 0 <= k < |samples| ==> samples[k] <= 800.0
    ensures !t.scheduled ==> 1 <= |t.updates| && t.updates[|t.updates| - 1] == to.GetOr(0.0)
    ensures |samples| > 0 && samples[0] == 0.0 ==> 1 <= |t.updates| && t.updates[0] == from.GetOr(0.0)
  {
    Animation.Run(from.GetOr(0.0), to.GetOr(0.0), Duration, samples)
  }

  /** The scrolled element behind `scrollRef.current`. */
  datatype ScrollElement = ScrollElement(scrollTop: real, scrollHeight: real)

  /** `scrollRef.current?.scrollTop`: undefined while the ref is empty. */
  function CurrentScrollTop(current: Option<ScrollElement>): (v: Option<real>)
    ensures current.Some? <==> v.Some?
    ensures current.Some? ==> v.value == current.value.scrollTop
  {
    match current
    case Some(el) => Some(el.scrollTop)
    case None => None
  }

  /** `scrollRef.current?.scrollHeight`: undefined while the ref is empty. */
  function CurrentScrollHeight(current: Option<ScrollElement>): (v: Option<real>)
    ensures current.Some? <==> v.Some?
    ensures current.Some? ==> v.value == current.value.scrollHeight
  {
    match current
    case Some(el) => Some(el.scrollHeight)
    case None => None
  }

  /** `smoothScrollToStart()`: animates from the element's position (0 with
      no element) to 0. */
  function SmoothScrollToStart(current: Option<ScrollElement>, samples: seq<real>): (t: Animation.Trace)
    ensures !t.scheduled ==> 1 <= |t.updates| && t.updates[|t.updates| - 1] == 0.0
    ensures current.Some? && |samples| > 0 && samples[0] == 0.0 ==>
      1 <= |t.updates| && t.updates[0] == current.value.scrollTop
  {
    Animate(CurrentScrollTop(current), Some(0.0), samples)
  }

  /** `smoothScrollToEnd()`: animates from the element's position to its
      `scrollHeight` (both 0 with no element). */
  function SmoothScrollToEnd(current: Option<ScrollElement>, samples: seq<real>): (t: Animation.Trace)
    ensures current.Some? && !t.scheduled ==>
      1 <= |t.updates| && t.updates[|t.updates| - 1] == current.value.scrollHeight
    ensures current.None? ==> forall k :: 0 <= k < |t.updates| ==> t.updates[k] == 0.0
    ensures current.Some? && |samples| > 0 && samples[0] == 0.0 ==>
      1 <= |t.updates| && t.updates[0] == current.value.scrollTop
  {
    Animation.RunUpdates(CurrentScrollTop(current).GetOr(0.0), CurrentScrollHeight(current).GetOr(0.0), Duration, samples);
    Animate(CurrentScrollTop(current), CurrentScrollHeight(current), samples)
  }

  /** The hook's `scrollTop` state after the frames of an animation, each
      `onTick` overwriting it: once `smoothScrollToStart` has ended the state
      is 0, and once `smoothScrollToEnd` has ended it is `scrollHeight`. */
  lemma SettledState(state: real, el: ScrollElement, samples: seq<real>)
    ensures var t := SmoothScrollToStart(Some(el), samples);
      !t.scheduled ==> Apply(state, Frames(t.updates)) == 0.0
    ensures var t := SmoothScrollToEnd(Some(el), samples);
      !t.scheduled ==> Apply(state, Frames(t.updates)) == el.scrollHeight
  {
  }
}
