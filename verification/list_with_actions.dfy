/** `src/ListWithActions/ListWithActions.tsx`: the list controller. It owns
    the row source, appends rows with `addRow`, and passes `rowHeight` and
    `height` (defaulted to 85 and 420) to the windowed list of
    `src/ListWithActions/VList.tsx`. */
module ListWithActions {

  import opened Wrappers
  import opened Numbers
  import opened Rows
  import opened Render
  import ListWindow
  import ListHooks
  import opened ScrollTop

  /** The list's geometry after default props are applied. */
  datatype Config = Config(rowHeight: real, height: real)

  /** `rowHeight = 85, height = 420`: each default applies exactly when the
      prop is missing. */
  function Props(rowHeight: Option<real>, height: Option<real>): (c: Config)
    ensures rowHeight.None? ==> c.rowHeight == 85.0
    ensures height.None? ==> c.height == 420.0
    ensures rowHeight.Some? ==> c.rowHeight == rowHeight.value
    ensures height.Some? ==> c.height == height.value
  {
    Config(rowHeight.GetOr(85.0), height.GetOr(420.0))
  }

  /** With the default geometry five rows fit in the viewport, so the first
      render shows ten rows, or all of them when there are fewer. */
  lemma DefaultGeometry(rows: seq<Row>)
    ensures var c := Props(None, None);
      && ListWindow.RowsThatFit(c.height, c.rowHeight) == 5
      && |ListWindow.VisibleRows(ListWindow.InitialRow, rows, ListWindow.RowsThatFit(c.height, c.rowHeight))| == Min(10, |rows|)
  {
    CeilDivUnique(420.0, 85.0, 5);
    ListWindow.InitialRender(rows, 5);
  }

  /** `addRow`: the collection grows by exactly one row at the tail, every
      existing row stays in place, and the new row's id is the old length
      plus one. */
  function AddRow(rows: seq<Row>, detail: Detail): (r: seq<Row>)
    ensures |r| == |rows| + 1
    ensures r[..|rows|] == rows
    ensures r[|rows|].id == Decimal(|rows| + 1)
    ensures ParseDecimal(r[|rows|].id) == |rows| + 1
  {
    var r := rows + [NewItem(|rows|, detail)];
    assert r[|rows|] == NewItem(|rows|, detail);
    r
  }

  /** Appending keeps ids sequential: ids `1..k` become `1..k+1`, so they stay
      distinct. */
  lemma AddRowKeepsIdsSequential(rows: seq<Row>, detail: Detail)
    requires SequentialIds(rows)
    ensures SequentialIds(AddRow(rows, detail))
  {
    var r := AddRow(rows, detail);
    forall k | 0 <= k < |r|
      ensures r[k].id == Decimal(k + 1)
    {
      if k < |rows| {
        assert r[k] == r[..|rows|][k];
      }
    }
  }

  /** `addRow` applied once per detail, in order. */
  function AddRows(rows: seq<Row>, details: seq<Detail>): (r: seq<Row>)
    ensures |r| == |rows| + |details|
    ensures r[..|rows|] == rows
    decreases |details|
  {
    if |details| == 0 then rows
    else
      var r := AddRows(AddRow(rows, details[0]), details[1..]);
      assert r[..|rows|] == r[..|rows| + 1][..|rows|];
      r
  }

  /** Any number of appends to sequentially numbered rows keeps the ids
      sequential. */
  lemma {:induction false} AddRowsKeepIdsSequential(rows: seq<Row>, details: seq<Detail>)
    requires SequentialIds(rows)
    ensures SequentialIds(AddRows(rows, details))
    decreases |details|
  {
    if |details| > 0 {
      AddRowKeepsIdsSequential(rows, details[0]);
      AddRowsKeepIdsSequential(AddRow(rows, details[0]), details[1..]);
    }
  }

  /** Three appends to two generated rows give five rows with ids 1..5; with
      height 15 and rowHeight 5 (three rows fit) all five are rendered. */
  lemma ThreeAppendsScenario(noise: nat -> Detail, d1: Detail, d2: Detail, d3: Detail)
    ensures var rows := AddRows(Generate(2, noise), [d1, d2, d3]);
      && |rows| == 5
      && SequentialIds(rows)
      && |ListWindow.VisibleRows(ListWindow.InitialRow, rows, ListWindow.RowsThatFit(15.0, 5.0))| == 5
  {
    ListWindow.FitScenario();
    AddRowsKeepIdsSequential(Generate(2, noise), [d1, d2, d3]);
  }

  /** Scrolling to the start settles at the top of the list: once the
      animation of `smoothScrollToStart` has ended, whatever the position it
      started from, the state is 0, the current row is 0 and the window
      starts at row 0. */
  lemma ScrollToStartSettles(state: real, el: ListHooks.ScrollElement, samples: seq<real>, rowHeight: real, fit: nat)
    requires rowHeight > 0.0
    requires !ListHooks.SmoothScrollToStart(Some(el), samples).scheduled
    ensures var s := Apply(state, Frames(ListHooks.SmoothScrollToStart(Some(el), samples).updates));
      && s == 0.0
      && ListWindow.HandleScroll(s, rowHeight) == 0
      && ListWindow.Window(ListWindow.HandleScroll(s, rowHeight), fit).lo == 0
  {
    ListHooks.SettledState(state, el, samples);
    FloorDivUnique(0.0, rowHeight, 0);
  }

  /** A scroll position equal to the content height is read back as the row
      count by the scroll handler. */
  lemma ScrollAtContentEnd(rowHeight: real, count: nat)
    requires rowHeight > 0.0
    ensures ListWindow.HandleScroll(ContentHeight(rowHeight, count), rowHeight) == count
  {
    var h := ContentHeight(rowHeight, count);
    assert h == count as real * rowHeight;
    MulStrict(count as real, (count + 1) as real, rowHeight);
    FloorDivUnique(h, rowHeight, count);
  }

  /** Scrolling to the end lands the current row on the row count: once
      `smoothScrollToEnd` has ended on an element whose `scrollHeight` is the
      content height, the current row is `rows.length` and the window's
      clamped range ends at the last row. */
  lemma ScrollToEndSettles(state: real, scrollTop: real, count: nat, samples: seq<real>, rowHeight: real, fit: nat)
    requires rowHeight > 0.0
    requires !ListHooks.SmoothScrollToEnd(Some(ListHooks.ScrollElement(scrollTop, ContentHeight(rowHeight, count))), samples).scheduled
    ensures var el := ListHooks.ScrollElement(scrollTop, ContentHeight(rowHeight, count));
      var row := ListWindow.HandleScroll(Apply(state, Frames(ListHooks.SmoothScrollToEnd(Some(el), samples).updates)), rowHeight);
      && row == count
      && ClampedRange(ListWindow.Window(row, fit).lo, ListWindow.Window(row, fit).hi, count).hi == count
  {
    var el := ListHooks.ScrollElement(scrollTop, ContentHeight(rowHeight, count));
    ListHooks.SettledState(state, el, samples);
    ScrollAtContentEnd(rowHeight, count);
  }
}
