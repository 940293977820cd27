/** The `scrollTop` React state of the `useAnimate` hooks, as an explicit
    value. Every write replaces it: animation frames (`onUpdate` / `onTick`)
    and, in `src/ListWithActions/use-animate.ts`, the throttled scroll
    handler. The throttle's timing is not modelled; each event it forwards is
    one write. */
module ScrollTop {

  /** One `setScrollTop` call and where it came from. */
  datatype Write =
    | ScrollEvent(top: real)      // the throttled scroll handler
    | AnimationFrame(value: real) // one `onUpdate` of an animation

  function Value(w: Write): real {
    match w
    case ScrollEvent(top) => top
    case AnimationFrame(value) => value
  }

  /** The state after the writes in order: with no write the state is
      unchanged, otherwise it is the most recent write, whatever its source. */
  function Apply(state: real, writes: seq<Write>): (s: real)
    ensures |writes| == 0 ==> s == state
    ensures |writes| > 0 ==> s == Value(writes[|writes| - 1])
    decreases |writes|
  {
    if |writes| == 0 then state else Apply(Value(writes[0]), writes[1..])
  }

  /** The writes made by an animation's `onUpdate` calls. */
  function Frames(updates: seq<real>): (w: seq<Write>)
    ensures |w| == |updates|
    ensures forall k :: 0 <= k < |w| ==> w[k] == AnimationFrame(updates[k])
  {
    seq(|updates|, k requires 0 <= k < |updates| => AnimationFrame(updates[k]))
  }

  /** An animation's frames followed by other writes: the last write decides,
      the last frame when nothing comes after it, and the old state when
      there is no write at all. */
  function ApplyFramesThen(state: real, updates: seq<real>, after: seq<Write>): (s: real)
    ensures |after| > 0 ==> s == Value(after[|after| - 1])
    ensures |after| == 0 && |updates| > 0 ==> s == updates[|updates| - 1]
    ensures |after| == 0 && |updates| == 0 ==> s == state
  {
    var w := Frames(updates) + after;
    assert |after| > 0 ==> w[|w| - 1] == after[|after| - 1];
    assert |after| == 0 ==> w == Frames(updates);
    Apply(state, w)
  }

  /** Writing a batch after earlier writes: the batch decides the state unless
      it is empty. */
  lemma {:induction false} ApplyConcat(state: real, first: seq<Write>, second: seq<Write>)
    ensures Apply(state, first + second) == Apply(Apply(state, first), second)
    decreases |first|
  {
    if |first| > 0 {
      assert (first + second)[1..] == first[1..] + second;
      ApplyConcat(Value(first[0]), first[1..], second);
    }
  }
}
