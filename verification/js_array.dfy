/** The JavaScript array built-ins the core relies on, on immutable sequences:
    `Array.prototype.slice` (which clamps instead of failing) and
    `new Array(l).fill(v)`. */
module JsArray {

  import opened Numbers

  /** The position `slice` starts or stops at for a relative index `rel`:
      negative indices count back from the end, and the result is clamped to
      `[0, len]`. */
  function RelativeIndex(rel: int, len: nat): (k: nat)
    ensures k <= len
    ensures rel >= 0 ==> k == Min(rel, len)
    ensures rel < 0 ==> k == Max(len + rel, 0)
  {
    if rel < 0 then
      (if len + rel < 0 then 0 else len + rel)
    else if rel < len then rel else len
  }

  /** `s.slice(start, end)`: never fails, whatever the two indices are. The
      result holds the elements from the clamped start up to the clamped end,
      and is empty when the clamped end does not lie beyond the clamped start. */
  function Slice<T>(s: seq<T>, start: int, end: int): (r: seq<T>)
    ensures var lo, hi := RelativeIndex(start, |s|), RelativeIndex(end, |s|);
      && |r| == Max(hi - lo, 0)
      && forall k :: 0 <= k < |r| ==> r[k] == s[lo + k]
  {
    var lo := RelativeIndex(start, |s|);
    var hi := RelativeIndex(end, |s|);
    if lo < hi then s[lo..hi] else []
  }

  /** For the non-negative indices the windowing code produces, `slice`
      returns exactly the rows from `min(start, len)` up to `min(end, len)`;
      an `end` beyond the array simply yields fewer rows. */
  lemma SliceNonNegative<T>(s: seq<T>, start: int, end: int)
    requires 0 <= start <= end
    ensures Slice(s, start, end) == s[Min(start, |s|)..Min(end, |s|)]
    ensures |Slice(s, start, end)| == Min(end, |s|) - Min(start, |s|)
  {
    var r := Slice(s, start, end);
    var lo, hi := Min(start, |s|), Min(end, |s|);
    assert |r| == hi - lo;
    assert forall k :: 0 <= k < |r| ==> r[k] == s[lo..hi][k];
  }

  /** `new Array(l).fill(v)`: an array of length `l` holding `v` everywhere. */
  function Fill<T>(l: nat, v: T): (r: seq<T>)
    ensures |r| == l
    ensures forall k :: 0 <= k < l ==> r[k] == v
  {
    seq(l, _ => v)
  }
}
