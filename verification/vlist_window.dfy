/** The windowing arithmetic of `src/VList/VList.tsx`.

    The component keeps a scroll state `{start, end}`. Its buffer size
    `numberOfRowsToRender` is twice the number of rows that fit in the
    viewport. A throttled scroll handler sets `start` to the row at the top
    edge and `end` to `start + N`; rendering then moves the lower bound back by
    another `N` rows and slices `rows` between the two bounds. */
module VListWindow {

  import opened Numbers
  import opened Rows
  import opened Render

  /** The component's `ScrollState`. */
  datatype ScrollState = ScrollState(start: int, end: int)

  /** The states the component can reach: `start` is a row index and the
      window always spans exactly `n` rows above the lookbehind. */
  predicate Valid(s: ScrollState, n: nat) {
    0 <= s.start && s.end - s.start == n
  }

  /** `numberOfRowsToRender = ceil(height * 2 / rowHeight)`: the fewest rows
      that cover two viewports. It depends on the two heights only. */
  function RowsToRender(height: real, rowHeight: real): (n: nat)
    requires rowHeight > 0.0 && height >= 0.0
    ensures (n - 1) as real * rowHeight < height * 2.0 <= n as real * rowHeight
  {
    CeilDivNonNegative(height * 2.0, rowHeight);
    CeilDiv(height * 2.0, rowHeight)
  }

  /** The state before any scroll event: `{start: 0, end: N}`. */
  function InitialState(n: nat): (s: ScrollState)
    ensures Valid(s, n)
    ensures s.start == 0
  {
    ScrollState(0, n)
  }

  /** The throttled scroll handler: `start` becomes the row whose band
      `[start·rowHeight, (start+1)·rowHeight)` holds the scroll offset, and the
      state stays valid. */
  function HandleScroll(scrollTop: real, rowHeight: real, n: nat): (s: ScrollState)
    requires rowHeight > 0.0 && scrollTop >= 0.0
    ensures Valid(s, n)
    ensures s.start as real * rowHeight <= scrollTop < (s.start + 1) as real * rowHeight
  {
    var start := FloorDiv(scrollTop, rowHeight);
    FloorDivNonNegative(scrollTop, rowHeight);
    ScrollState(start, start + n)
  }

  /** The absolute indices actually rendered for state `s` over `len` rows:
      the clamped bounds of `rows.slice(max(0, start - N), end)`. */
  function RenderedRange(s: ScrollState, n: nat, len: nat): (g: Range)
    ensures 0 <= g.lo <= g.hi <= len
  {
    ClampedRange(Max(0, s.start - n), s.end, len)
  }

  /** `visibleRows`: slice `rows` from `max(0, start - N)` to `end` and number
      the rows from that lower bound. Every rendered row carries its own
      position in `rows`, and the rendered rows are exactly those of the
      rendered range, in order. */
  function VisibleRows(s: ScrollState, rows: seq<Row>, n: nat): (r: seq<RenderedRow>)
    ensures var g := RenderedRange(s, n, |rows|);
      && |r| == g.hi - g.lo
      && forall k :: 0 <= k < |r| ==> r[k] == RenderedRow(g.lo + k, rows[g.lo + k])
  {
    assert RenderedRange(s, n, |rows|) == ClampedRange(Max(0, s.start - n), s.end, |rows|);
    RenderSlice(rows, Max(0, s.start - n), s.end)
  }

  /** For a reachable state the rendered range is `[max(0, start - N),
      min(end, len))` clamped to the rows, and it holds at most `2N` rows. */
  lemma RenderedRangeOfValid(s: ScrollState, n: nat, len: nat)
    requires Valid(s, n)
    ensures var g := RenderedRange(s, n, len);
      && g.lo == Min(Max(0, s.start - n), len)
      && g.hi == Max(g.lo, Min(s.end, len))
      && g.hi - g.lo <= 2 * n
  {
  }

  /** The first render shows rows `[0, min(N, len))`, numbered from 0. */
  lemma InitialRender(rows: seq<Row>, n: nat)
    ensures VisibleRows(InitialState(n), rows, n) == Enumerate(rows[..Min(n, |rows|)], 0)
  {
    var r := VisibleRows(InitialState(n), rows, n);
    var e := Enumerate(rows[..Min(n, |rows|)], 0);
    assert |r| == |e|;
    assert forall k :: 0 <= k < |r| ==> r[k] == e[k];
  }

  /** Scrolling further down never moves either bound of the rendered range
      up. */
  lemma RenderedRangeMonotone(s1: real, s2: real, rowHeight: real, n: nat, len: nat)
    requires rowHeight > 0.0 && 0.0 <= s1 <= s2
    ensures var g1 := RenderedRange(HandleScroll(s1, rowHeight, n), n, len);
      var g2 := RenderedRange(HandleScroll(s2, rowHeight, n), n, len);
      g1.lo <= g2.lo && g1.hi <= g2.hi
  {
    FloorDivMonotone(s1, s2, rowHeight);
  }

  /** The content height `rowHeight * rows.length` bounds the bottom of every
      rendered row. */
  lemma RenderedRowsInsideContent(s: ScrollState, rows: seq<Row>, n: nat, rowHeight: real, k: int)
    requires rowHeight >= 0.0
    requires 0 <= k < |VisibleRows(s, rows, n)|
    ensures VisibleRows(s, rows, n)[k].Top(rowHeight) + rowHeight <= ContentHeight(rowHeight, |rows|)
  {
    var r := VisibleRows(s, rows, n);
    assert 0 <= r[k].index < |rows|;
  }

  /** Over rows whose ids are sequential, the first render shows ids
      1 .. min(N, len). */
  lemma InitialIdsOfSequential(rows: seq<Row>, n: nat)
    requires SequentialIds(rows)
    ensures n <= |rows| ==> ShownIds(VisibleRows(InitialState(n), rows, n)) == IdRun(1, n)
    ensures n > |rows| ==> ShownIds(VisibleRows(InitialState(n), rows, n)) == IdRun(1, |rows|)
  {
    var s := InitialState(n);
    assert s == ScrollState(0, n);
    assert VisibleRows(s, rows, n) == RenderSlice(rows, 0, n);
    ShownIdsOfSequential(rows, 0, n);
  }

  /** With rowHeight 5 and height 15 the buffer is 6 rows. */
  lemma BufferScenario()
    ensures RowsToRender(15.0, 5.0) == 6
  {
    CeilDivUnique(15.0 * 2.0, 5.0, 6);
  }

  /** The list of 25 generated rows with height 15 and rowHeight 5 first
      shows ids 1..6. */
  lemma InitialScenario(noise: nat -> Detail)
    ensures var n := RowsToRender(15.0, 5.0);
      ShownIds(VisibleRows(InitialState(n), Generate(25, noise), n)) == IdRun(1, 6)
  {
    BufferScenario();
    InitialIdsOfSequential(Generate(25, noise), 6);
  }

  /** Same list: scrolling to row 12 (offset 60) shows ids 7..18. */
  lemma MidListScenario(noise: nat -> Detail)
    ensures var n := RowsToRender(15.0, 5.0);
      ShownIds(VisibleRows(HandleScroll(60.0, 5.0, n), Generate(25, noise), n)) == IdRun(7, 12)
  {
    BufferScenario();
    FloorDivUnique(60.0, 5.0, 12);
    assert HandleScroll(60.0, 5.0, 6) == ScrollState(12, 18);
    var rows := Generate(25, noise);
    ShownIdsOfSequential(rows, 6, 18);
    assert RenderedRange(ScrollState(12, 18), 6, 25) == Range(6, 18);
  }

  /** Same list: scrolling to row 25 (offset 125) shows ids 20..25; the end
      bound 31 lies past the rows and is clamped. */
  lemma EndOfListScenario(noise: nat -> Detail)
    ensures var n := RowsToRender(15.0, 5.0);
      ShownIds(VisibleRows(HandleScroll(125.0, 5.0, n), Generate(25, noise), n)) == IdRun(20, 6)
  {
    BufferScenario();
    FloorDivUnique(125.0, 5.0, 25);
    assert HandleScroll(125.0, 5.0, 6) == ScrollState(25, 31);
    var rows := Generate(25, noise);
    ShownIdsOfSequential(rows, 19, 31);
    assert RenderedRange(ScrollState(25, 31), 6, 25) == Range(19, 25);
  }
}
