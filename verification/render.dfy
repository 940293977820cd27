/** What both list components hand to the row renderer: each row of the
    visible slice paired with its absolute index, numbered by the
    `index++` counter inside `.map(...)`, and the row's vertical offset
    `index * height` from `Row` in `src/ListWithActions/Rows.tsx`. */
module Render {

  import opened Numbers
  import opened JsArray
  import opened Rows

  datatype RenderedRow = RenderedRow(index: int, row: Row) {

    /** The CSS `top` of the rendered row. */
    function Top(rowHeight: real): real {
      TopOf(index, rowHeight)
    }
  }

  /** A half-open range `[lo, hi)` of absolute row indices. */
  datatype Range = Range(lo: int, hi: int)

  /** The ids shown by a render, top to bottom. */
  function ShownIds(r: seq<RenderedRow>): (ids: seq<string>)
    ensures |ids| == |r|
    ensures forall k :: 0 <= k < |r| ==> ids[k] == r[k].row.id
  {
    seq(|r|, k requires 0 <= k < |r| => r[k].row.id)
  }

  /** The CSS `top` of the row at absolute position `index`. */
  function TopOf(index: int, rowHeight: real): real {
    index as real * rowHeight
  }

  /** `slice.map(r => <Row index={i++} .../>)` starting from counter `first`:
      the k-th rendered row carries index `first + k`. */
  function Enumerate(slice: seq<Row>, first: int): (r: seq<RenderedRow>)
    ensures |r| == |slice|
    ensures forall k :: 0 <= k < |r| ==> r[k] == RenderedRow(first + k, slice[k])
    decreases |slice|
  {
    if |slice| == 0 then []
    else [RenderedRow(first, slice[0])] + Enumerate(slice[1..], first + 1)
  }

  /** The absolute indices `rows.slice(start, end)` actually yields from
      `len` rows, after JavaScript's clamping. */
  function ClampedRange(start: int, end: int, len: nat): (g: Range)
    ensures 0 <= g.lo <= g.hi <= len
    ensures 0 <= start <= end ==> g == Range(Min(start, len), Min(end, len))
  {
    var lo := RelativeIndex(start, len);
    var hi := RelativeIndex(end, len);
    Range(lo, Max(lo, hi))
  }

  /** `rows.slice(start, end).map(r => <Row index={start++} .../>)`: the
      rendered rows are exactly those of the clamped range, in order, and
      each carries its own position in `rows`. Both components pass a start
      of at least 0 (`max(0, ...)`); a negative start would number the rows
      from the wrong position, since `slice` counts it back from the end. */
  function RenderSlice(rows: seq<Row>, start: int, end: int): (r: seq<RenderedRow>)
    requires 0 <= start
    ensures var g := ClampedRange(start, end, |rows|);
      && |r| == g.hi - g.lo
      && forall k :: 0 <= k < |r| ==> r[k] == RenderedRow(g.lo + k, rows[g.lo + k])
  {
    var slice := Slice(rows, start, end);
    assert |slice| > 0 ==> start < |rows|;
    Enumerate(slice, start)
  }

  /** Over rows whose ids are sequential, a render shows the ids of its
      clamped range, in order. */
  lemma ShownIdsOfSequential(rows: seq<Row>, start: int, end: int)
    requires 0 <= start
    requires SequentialIds(rows)
    ensures var g := ClampedRange(start, end, |rows|);
      ShownIds(RenderSlice(rows, start, end)) == IdRun(g.lo + 1, g.hi - g.lo)
  {
  }

  /** Rendered rows sit back to back: each one's top is exactly one row
      height below the previous one's. */
  lemma EnumerateStacksRows(slice: seq<Row>, first: int, rowHeight: real, k: int)
    requires 0 < k < |slice|
    ensures var r := Enumerate(slice, first);
      r[k].Top(rowHeight) == r[k - 1].Top(rowHeight) + rowHeight
  {
    var r := Enumerate(slice, first);
    assert r[k].index == r[k - 1].index + 1;
  }

  /** `rowHeight * rows.length`: the height of the scroll track. Every row
      fits above it and the last row ends exactly on it; with no rows it is
      empty. */
  function ContentHeight(rowHeight: real, rowCount: nat): (h: real)
    requires rowHeight >= 0.0
    ensures h >= 0.0
    ensures rowCount == 0 ==> h == 0.0
    ensures forall k :: 0 <= k < rowCount ==> TopOf(k, rowHeight) + rowHeight <= h
    ensures rowCount > 0 ==> TopOf(rowCount - 1, rowHeight) + rowHeight == h
  {
    forall k | 0 <= k < rowCount
      ensures TopOf(k, rowHeight) + rowHeight <= rowHeight * rowCount as real
    {
      assert (rowCount - k - 1) as real * rowHeight >= 0.0;
    }
    rowHeight * rowCount as real
  }
}
