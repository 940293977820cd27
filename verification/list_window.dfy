/** The windowing arithmetic of `src/ListWithActions/VList.tsx`.

    This variant keeps only the current row. It renders `fit` rows above the
    current row (where they exist) and `2·fit` rows from it down, where `fit`
    is the number of rows one viewport holds. */
module ListWindow {

  import opened Numbers
  import opened Rows
  import opened Render

  /** `numberOfRowsThatFit = ceil(height / rowHeight)`: the fewest rows that
      cover one viewport. */
  function RowsThatFit(height: real, rowHeight: real): (fit: nat)
    requires rowHeight > 0.0 && height >= 0.0
    ensures (fit - 1) as real * rowHeight < height <= fit as real * rowHeight
  {
    CeilDivNonNegative(height, rowHeight);
    CeilDiv(height, rowHeight)
  }

  /** `useState(0)`: before any scroll event the current row is row 0. */
  const InitialRow: nat := 0

  /** The throttled scroll handler `setCurrentRow(floor(scrollTop / rowHeight))`:
      the current row becomes the one whose band holds the scroll offset. */
  function HandleScroll(scrollTop: real, rowHeight: real): (row: nat)
    requires rowHeight > 0.0 && scrollTop >= 0.0
    ensures row as real * rowHeight <= scrollTop < (row + 1) as real * rowHeight
  {
    FloorDivNonNegative(scrollTop, rowHeight);
    FloorDiv(scrollTop, rowHeight)
  }

  /** `start = max(0, currentRow - fit)` and `end = currentRow + fit * 2`. The
      window is never inverted, reaches `fit` rows above the current row when
      there are that many, and holds `min(currentRow, fit) + 2·fit` rows,
      so never more than `3·fit`. */
  function Window(currentRow: nat, fit: nat): (w: Range)
    ensures 0 <= w.lo <= w.hi
    ensures w.lo == 0 || w.lo == currentRow - fit
    ensures w.hi - currentRow == 2 * fit
    ensures w.hi - w.lo == Min(currentRow, fit) + 2 * fit
    ensures w.hi - w.lo <= 3 * fit
  {
    Range(Max(0, currentRow - fit), currentRow + fit * 2)
  }

  /** `visibleRows`: the rows of the window after clamping to the rows,
      numbered from the window's start, each with its own position in `rows`. */
  function VisibleRows(currentRow: nat, rows: seq<Row>, fit: nat): (r: seq<RenderedRow>)
    ensures var w := Window(currentRow, fit);
      var g := ClampedRange(w.lo, w.hi, |rows|);
      && g == Range(Min(w.lo, |rows|), Min(w.hi, |rows|))
      && |r| == g.hi - g.lo
      && forall k :: 0 <= k < |r| ==> r[k] == RenderedRow(g.lo + k, rows[g.lo + k])
  {
    var w := Window(currentRow, fit);
    RenderSlice(rows, w.lo, w.hi)
  }

  /** The first render shows the first `min(2·fit, len)` rows, numbered from 0. */
  lemma InitialRender(rows: seq<Row>, fit: nat)
    ensures VisibleRows(InitialRow, rows, fit) == Enumerate(rows[..Min(2 * fit, |rows|)], 0)
  {
    var r := VisibleRows(InitialRow, rows, fit);
    var e := Enumerate(rows[..Min(2 * fit, |rows|)], 0);
    assert |r| == |e|;
    assert forall k :: 0 <= k < |r| ==> r[k] == e[k];
  }

  /** Scrolling further down never moves either end of the window up. */
  lemma WindowMonotone(s1: real, s2: real, rowHeight: real, fit: nat)
    requires rowHeight > 0.0 && 0.0 <= s1 <= s2
    ensures var w1 := Window(HandleScroll(s1, rowHeight), fit);
      var w2 := Window(HandleScroll(s2, rowHeight), fit);
      w1.lo <= w2.lo && w1.hi <= w2.hi
  {
    FloorDivMonotone(s1, s2, rowHeight);
  }

  /** With rowHeight 5 and height 15 three rows fit. */
  lemma FitScenario()
    ensures RowsThatFit(15.0, 5.0) == 3
  {
    CeilDivUnique(15.0, 5.0, 3);
  }

  /** 25 generated rows with height 15 and rowHeight 5: the first render
      shows ids 1..6. */
  lemma InitialScenario(noise: nat -> Detail)
    ensures ShownIds(VisibleRows(InitialRow, Generate(25, noise), RowsThatFit(15.0, 5.0))) == IdRun(1, 6)
  {
    FitScenario();
    var rows := Generate(25, noise);
    ShownIdsOfSequential(rows, 0, 6);
  }

  /** Same list, scrolled to row 12 (offset 60): as written, the window is
      `[9, 18)`, so ids 10..18 are shown. */
  lemma MidListScenario(noise: nat -> Detail)
    ensures ShownIds(VisibleRows(HandleScroll(60.0, 5.0), Generate(25, noise), RowsThatFit(15.0, 5.0))) == IdRun(10, 9)
  {
    FitScenario();
    FloorDivUnique(60.0, 5.0, 12);
    var rows := Generate(25, noise);
    ShownIdsOfSequential(rows, 9, 18);
  }

  /** Same list, scrolled to row 25 (offset 125): as written, the window is
      `[22, 31)`, clamped to `[22, 25)`, so ids 23..25 are shown. */
  lemma EndOfListScenario(noise: nat -> Detail)
    ensures ShownIds(VisibleRows(HandleScroll(125.0, 5.0), Generate(25, noise), RowsThatFit(15.0, 5.0))) == IdRun(23, 3)
  {
    FitScenario();
    FloorDivUnique(125.0, 5.0, 25);
    var rows := Generate(25, noise);
    ShownIdsOfSequential(rows, 22, 31);
  }
}
