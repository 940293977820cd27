# the-list: windowing, scroll animation and row ids

A Dafny model of the core of *the-list*, a React demo of a virtualised table.
The table renders only a window of its rows. The window is recomputed from the
scroll offset, and a small animator scrolls the table smoothly to a target.
The model covers three parts:

- **Windowing arithmetic.** There are two variants.
  - `src/VList/VList.tsx` keeps a `{start, end}` scroll state, with a buffer of
    `N = ceil(2·height / rowHeight)` rows. It renders
    `rows.slice(max(0, start - N), end)`. This is module `VListWindow`.
  - `src/ListWithActions/VList.tsx` keeps only the current row, with
    `fit = ceil(height / rowHeight)`. It renders
    `rows.slice(max(0, row - fit), row + 2·fit)`. This is module `ListWindow`.

  Both use JavaScript's clamping `Array.prototype.slice` (`JsArray`). Both
  number the rendered rows from the slice start (`Render`).
- **The scroll animator.**
  - The easing curve `1 - (t - 1)^4`, the step `getValue`, and the
    self-rescheduling frame loop `animate` are modelled once, in module
    `Animation` (from `src/VList/animate.ts`).
  - The three other copies delegate to it. These are `src/VList/use-animate.ts`
    (`VListUseAnimate`), `src/ListWithActions/use-animate.ts`
    (`ListUseAnimate`) and `src/ListWithActions/hooks.ts` (`ListHooks`, which
    calls them `ease` and `step`).
  - The clock is an explicit sequence of elapsed-time samples, one per call of
    `tick`.
  - The hooks' `scrollTop` React state is a fold of its writes (`ScrollTop`).
    The last write wins, whether it came from an animation frame or from the
    throttled scroll handler.
- **Rows and ids.**
  - `newItem(i)` gives the row the id `String(i + 1)` (`Rows`).
  - `fill(n).map((_, i) => newItem(i))` generates a row source whose ids
    are `"1"` to `String(n)`.
  - `addRow` appends a row whose id is the old length plus one
    (`ListWithActions`).

Numbers are modelled as Dafny `real`, which is exact. `Math.floor` and
`Math.ceil` of a quotient are characterised by their bracketing inequalities
(`Numbers`). Ids are the decimal strings of naturals, and `ParseDecimal` reads
them back.

## Model

| member | source | states |
|---|---|---|
| Numbers.FloorDiv | src/VList/VList.tsx:51 | `floor(x / d)` is the integer k with `k·d <= x < (k+1)·d` |
| Numbers.CeilDiv | src/VList/VList.tsx:36 | `ceil(x / d)` is the integer k with `(k-1)·d < x <= k·d` |
| Numbers.FloorDivUnique | src/VList/VList.tsx:51 | any integer satisfying the floor bracket is the floor quotient |
| Numbers.CeilDivUnique | src/ListWithActions/VList.tsx:34 | any integer satisfying the ceiling bracket is the ceiling quotient |
| Numbers.FloorDivMonotone | src/ListWithActions/VList.tsx:31 | a larger scroll offset never gives a smaller row |
| Numbers.FloorDivNonNegative | src/VList/VList.tsx:50-51 | a non-negative offset gives a non-negative row |
| Numbers.CeilDivNonNegative | src/VList/VList.tsx:36 | a non-negative height gives a non-negative row count |
| JsArray.RelativeIndex | src/VList/VList.tsx:70-71 | a `slice` bound counts back from the end when negative, and is clamped to `[0, len]` |
| JsArray.Slice | src/VList/VList.tsx:70-71 | `slice` never fails; it returns the elements between the clamped bounds, or nothing when they cross |
| JsArray.SliceNonNegative | src/ListWithActions/VList.tsx:37-41 | for non-negative bounds, `slice` is the sub-sequence `[min(start, len), min(end, len))` |
| JsArray.Fill | src/utils.ts:5 | `fill(l)` has length `l` and holds the fill value everywhere |
| Rows.Decimal | src/utils.ts:9 | `String(n)` is a non-empty digit string with no leading zero |
| Rows.ParseDecimalOfDecimal | src/utils.ts:9 | round trip: the decimal form of n reads back as n |
| Rows.DecimalInjective | src/utils.ts:9 | distinct numbers have distinct decimal forms |
| Rows.NewItem | src/utils.ts:7-18 | `newItem(i)` has an all-digit id that reads back as `i + 1`, and keeps the supplied description and price |
| Rows.FirstIdIsOne | src/utils.ts:8-9 | ids start from 1: `newItem(0)` has id "1" |
| Rows.NewItemInjective | src/utils.ts:7-9 | different positions never get the same id |
| Rows.SequentialIdsDistinct | src/VList/VList.tsx:72 | the ids of a sequentially numbered row source are pairwise distinct, so they are valid React keys |
| Rows.Generate | src/ListWithActions/ListWithActions.test.tsx:59-60 | `fill(n).map((_, i) => newItem(i))` has n rows, and row k has id k+1 |
| Render.Enumerate | src/VList/VList.tsx:72 | the k-th mapped row carries index `first + k` and the k-th sliced row |
| Render.ClampedRange | src/VList/VList.tsx:70-71 | the absolute range `slice` yields is within `[0, len]`, and equals `[min(start, len), min(end, len))` for ordered non-negative bounds |
| Render.RenderSlice | src/ListWithActions/VList.tsx:40-42 | the rendered rows are exactly those of the clamped range, in order, each numbered with its own position in `rows` |
| Render.ShownIdsOfSequential | src/VList/VList.tsx:70-72 | over sequential ids, a render shows the consecutive ids of its clamped range |
| Render.EnumerateStacksRows | src/ListWithActions/Rows.tsx:11 | each rendered row's CSS top is exactly one row height below the previous row's |
| Render.ContentHeight | src/VList/VList.tsx:75 | the tbody height covers every row, the last row ends exactly on it, and with no rows it is 0 |
| VListWindow.RowsToRender | src/VList/VList.tsx:34-38 | N is the fewest rows covering two viewports |
| VListWindow.InitialState | src/VList/VList.tsx:40-43 | the initial state starts at row 0 and spans N rows |
| VListWindow.HandleScroll | src/VList/VList.tsx:49-56 | after a scroll, `start` is the row whose band holds the offset, and `end - start == N` |
| VListWindow.RenderedRange | src/VList/VList.tsx:64-71 | the rendered index range lies within the rows |
| VListWindow.VisibleRows | src/VList/VList.tsx:64-73 | the rendered rows are exactly the rows of the rendered range, each numbered with its own position |
| VListWindow.RenderedRangeOfValid | src/VList/VList.tsx:64-71 | for a reachable state the rendered range is `[max(0, start - N), end)` clamped, with at most 2N rows |
| VListWindow.InitialRender | src/VList/VList.tsx:40-43 | the first render shows rows `[0, min(N, len))` numbered from 0 |
| VListWindow.RenderedRangeMonotone | src/VList/VList.tsx:49-56 | scrolling further down never moves either bound of the rendered range up |
| VListWindow.RenderedRowsInsideContent | src/VList/VList.tsx:72-75 | every rendered row ends within the tbody height |
| VListWindow.InitialIdsOfSequential | src/VList/VList.tsx:40-73 | over sequential ids, the first render shows ids 1 to `min(N, len)` |
| VListWindow.BufferScenario | src/VList/ListWithActions.test.tsx:16-17 | with rowHeight 5 and height 15, N is 6 |
| VListWindow.InitialScenario | src/VList/ListWithActions.test.tsx:51-63 | with height 15 and rowHeight 5, 25 generated rows first show ids 1..6 |
| VListWindow.MidListScenario | src/VList/ListWithActions.test.tsx:87-107 | with height 15 and rowHeight 5, scrolled to row 12, ids 7..18 are shown |
| VListWindow.EndOfListScenario | src/VList/ListWithActions.test.tsx:110-119 | with height 15 and rowHeight 5, scrolled to row 25, ids 20..25 are shown, with the end bound clamped |
| ListWindow.RowsThatFit | src/ListWithActions/VList.tsx:34 | fit is the fewest rows covering one viewport |
| ListWindow.HandleScroll | src/ListWithActions/VList.tsx:30-32 | the current row is the one whose band holds the scroll offset |
| ListWindow.Window | src/ListWithActions/VList.tsx:37-38 | the window is never inverted, ends 2·fit rows below the current row, starts fit rows above it or at 0, and holds `min(row, fit) + 2·fit <= 3·fit` rows |
| ListWindow.VisibleRows | src/ListWithActions/VList.tsx:36-43 | the rendered rows are the rows of the clamped window, in order, each numbered with its own position |
| ListWindow.InitialRender | src/ListWithActions/VList.tsx:26 | with current row 0, the first `min(2·fit, len)` rows are shown, numbered from 0 |
| ListWindow.WindowMonotone | src/ListWithActions/VList.tsx:30-38 | scrolling further down never moves either end of the window up |
| ListWindow.FitScenario | src/ListWithActions/ListWithActions.test.tsx:37-38 | with rowHeight 5 and height 15, three rows fit |
| ListWindow.InitialScenario | src/ListWithActions/ListWithActions.test.tsx:69-81 | with height 15 and rowHeight 5, 25 generated rows first show ids 1..6 |
| ListWindow.MidListScenario | src/ListWithActions/VList.tsx:37-38 | as written, with height 15 and rowHeight 5, row 12 shows ids 10..18 (see the note below) |
| ListWindow.EndOfListScenario | src/ListWithActions/VList.tsx:37-38 | as written, with height 15 and rowHeight 5, row 25 shows ids 23..25 (see the note below) |
| Animation.Easing | src/VList/animate.ts:11-13 | the curve maps 0 to 0 and 1 to 1, and stays in `[0, 1]` on `[0, 1]` |
| Animation.EasingIsQuarticEaseOut | src/VList/animate.ts:11-13 | the pre-decrement makes every factor `t - 1`, so the curve is `1 - (1 - t)^4` |
| Animation.EasingIsNotCubic | src/ListWithActions/use-animate.ts:20-23 | the "cubic" comment is wrong: at t = 1/2 the curve is 0.9375, not the cubic ease-out value |
| Animation.EasingMonotone | src/VList/animate.ts:11-13 | the curve never decreases on `[0, 1]` |
| Animation.InterpolationBetween | src/VList/animate.ts:8 | `start + (end - start)·p` lies between start and end when p is in `[0, 1]` |
| Animation.GetValue | src/VList/animate.ts:1-9 | past the duration the value is exactly `end`; it is `start` at 0 and `end` at the duration, and between them in the interval |
| Animation.ProgressMonotone | src/VList/animate.ts:8 | `elapsed / duration` grows with elapsed time and stays in `[0, 1]` during the animation |
| Animation.InterpolationMonotone | src/VList/animate.ts:8 | the interpolation moves towards `end` as its parameter grows |
| Animation.GetValueMonotoneWithin | src/VList/animate.ts:8 | within the duration, a later sample is never further from `end` |
| Animation.GetValueMonotone | src/VList/animate.ts:1-9 | for all non-negative samples, a later sample is never further from `end` |
| Animation.Run | src/VList/animate.ts:28-40 | one update per tick; the loop reschedules exactly while every sample is within the duration; when it stops, the last sample is past the duration and the last update is `to` |
| Animation.RunUpdates | src/VList/animate.ts:31-34 | the k-th update is `getValue` at the k-th elapsed time |
| Animation.Animate | src/VList/animate.ts:22-41 | with no duration given, the loop reschedules exactly while samples stay within 800 ms; it ends on `to`, and a clock starting at 0 first emits `from` |
| Animation.DefaultDurationScenario | src/VList/animate.ts:26-36 | with the default duration, a frame at 800 ms still reschedules, and one at 801 ms ends the animation with updates `[from, to]` |
| Animation.RunEndsAtTarget | src/VList/animate.ts:30-40 | a strictly increasing clock that passes the duration at sample i stops the loop after at most i+1 updates, the last being `to` |
| Animation.RunStaysBetween | src/VList/animate.ts:30-37 | for a clock that never reads before the start, every update lies between `from` and `to` |
| Animation.RunMonotone | src/VList/animate.ts:30-37 | under a strictly increasing clock starting at or after 0, the updates move monotonically from `from` towards `to` |
| Animation.AdvancingClockLowerBound | src/VList/animate.ts:31 | a clock advancing at least one frame per tick has reached `i·frame` at sample i |
| Animation.RunTerminates | src/VList/animate.ts:30-40 | if every frame advances the clock by at least `frame` ms, the loop ends within `floor(duration / frame) + 2` updates, on `to` |
| ScrollTop.Apply | src/ListWithActions/use-animate.ts:67-70 | the state after a run of `setScrollTop` calls is the most recent write, or unchanged if there was none |
| ScrollTop.Frames | src/ListWithActions/use-animate.ts:90 | each animation update becomes one state write of that value |
| ScrollTop.ApplyFramesThen | src/ListWithActions/use-animate.ts:86-92 | after an animation's frames and later writes, the last write decides; with no later write it is the last frame, and with no write at all the state is unchanged |
| ScrollTop.ApplyConcat | src/ListWithActions/use-animate.ts:67-70 | writing two batches in turn is the same as writing their concatenation |
| VListUseAnimate.Easing | src/VList/use-animate.ts:13-16 | the copy of the curve keeps its endpoints and `[0, 1]` bounds |
| VListUseAnimate.GetValue | src/VList/use-animate.ts:3-11 | the copy of `getValue` is pinned to `end` past the duration, and lies between `start` and `end` within it |
| VListUseAnimate.Animate | src/VList/use-animate.ts:25-39 | the copy of the loop ends on `to`, reschedules while within 800 ms by default, and emits one update per tick at most |
| VListUseAnimate.SmoothScrollTo | src/VList/use-animate.ts:50-57 | each frame overwrites the state, so after any sample it is the last frame, `getValue` at the last sample consumed; once the animation has ended it is `to`; with no frame it is unchanged; under a clock starting at 0 it stays between the old state and `to` |
| ListUseAnimate.Easing | src/ListWithActions/use-animate.ts:20-23 | the copy of the curve keeps its endpoints and `[0, 1]` bounds |
| ListUseAnimate.GetValue | src/ListWithActions/use-animate.ts:10-18 | the copy of `getValue` is pinned to `end` past the duration, and lies between `start` and `end` within it |
| ListUseAnimate.Animate | src/ListWithActions/use-animate.ts:32-46 | the copy of the loop ends on `to`, reschedules while within 800 ms by default, and keeps every update between `from` and `to` for a clock starting at 0 or later |
| ListUseAnimate.SmoothScrollTo | src/ListWithActions/use-animate.ts:67-92 | the animation's frames followed by later writes leave the state at the most recent write; with nothing after the frames it is the last frame, `getValue` at the last sample consumed, and `to` once the animation has ended; with no write it is unchanged |
| ListUseAnimate.LateScrollEventWins | src/ListWithActions/use-animate.ts:67-70 | a scroll event after the last frame overrides the animation's target |
| ListUseAnimate.LateFrameWins | src/ListWithActions/use-animate.ts:90 | an animation frame after a scroll event overrides it |
| ListHooks.Ease | src/ListWithActions/hooks.ts:12-15 | `ease` keeps the curve's endpoints and `[0, 1]` bounds |
| ListHooks.EaseMonotone | src/ListWithActions/hooks.ts:12-15 | `ease` never decreases on `[0, 1]` |
| ListHooks.Step | src/ListWithActions/hooks.ts:17-20 | `step` is pinned to `end` past the duration, and lies between `start` and `end` within it |
| ListHooks.Animate | src/ListWithActions/hooks.ts:28-44 | a missing `from` or `to` counts as 0; the loop reschedules exactly while samples stay within 800 ms, and ends on the defaulted target |
| ListHooks.CurrentScrollTop | src/ListWithActions/hooks.ts:98 | `scrollRef.current?.scrollTop` is defined exactly when the element is present |
| ListHooks.CurrentScrollHeight | src/ListWithActions/hooks.ts:105 | `scrollRef.current?.scrollHeight` is defined exactly when the element is present |
| ListHooks.SmoothScrollToStart | src/ListWithActions/hooks.ts:96-101 | the animation starts from the element's position and ends on 0 |
| ListHooks.SmoothScrollToEnd | src/ListWithActions/hooks.ts:102-107 | the animation starts from the element's position and ends on its `scrollHeight`; with no element, every update is 0 |
| ListHooks.SettledState | src/ListWithActions/hooks.ts:90-107 | once the animation has ended, the hook's state is 0 after scrolling to the start, or `scrollHeight` after scrolling to the end |
| ListWithActions.Props | src/ListWithActions/ListWithActions.tsx:20-24 | `rowHeight` defaults to 85 and `height` to 420, each exactly when the prop is missing |
| ListWithActions.DefaultGeometry | src/ListWithActions/ListWithActions.tsx:22-23 | with the default props, five rows fit, so the first render shows `min(10, len)` rows |
| ListWithActions.AddRow | src/ListWithActions/ListWithActions.tsx:9-12 | the collection grows by one at the tail, the existing rows stay, and the new id reads back as the old length plus one |
| ListWithActions.AddRowKeepsIdsSequential | src/ListWithActions/ListWithActions.tsx:9-12 | appending to rows with ids 1..k gives ids 1..k+1 |
| ListWithActions.AddRows | src/ListWithActions/ListWithActions.tsx:37 | repeated appends add one row each and keep the existing prefix |
| ListWithActions.AddRowsKeepIdsSequential | src/ListWithActions/ListWithActions.tsx:37 | any number of appends keeps the ids sequential |
| ListWithActions.ThreeAppendsScenario | src/ListWithActions/ListWithActions.test.tsx:84-94 | two generated rows plus three appends give five rows with sequential ids, and with height 15 and rowHeight 5 all five are rendered |
| ListWithActions.ScrollToStartSettles | src/ListWithActions/hooks.ts:96-101 | after scrolling to the start has ended, the state is 0, the current row is 0, and the window starts at row 0 |
| ListWithActions.ScrollAtContentEnd | src/ListWithActions/VList.tsx:31 | an offset equal to the content height maps to the row count |
| ListWithActions.ScrollToEndSettles | src/ListWithActions/hooks.ts:102-107 | after scrolling to the end has ended, and with the scroll offset read back as the last value written, the current row is the row count and the clamped window ends at the last row |

### Notes on the source

- **`ListWithActions/VList.tsx` disagrees with its test.** Its window formula
  (`src/ListWithActions/VList.tsx:37-38`) gives different results from what
  `src/ListWithActions/ListWithActions.test.tsx:105-139` expects. With
  rowHeight 5, height 15 and 25 rows, scrolling to row 12 shows ids 10..18,
  while the test expects 7..18. Scrolling to row 25 shows ids 23..25, while
  the test expects 20..25. The values the test expects are what the
  `src/VList/VList.tsx` formula gives, and `VListWindow.MidListScenario` and
  `VListWindow.EndOfListScenario` prove them. The model follows the code as
  written (`ListWindow.MidListScenario`, `ListWindow.EndOfListScenario`). This
  is not listed as a finding, because it is unclear whether the test or the
  formula is the intended behaviour.
- **The "cubic" comment is wrong.** Three copies of the easing curve are
  commented "cubic": `src/VList/use-animate.ts:13`,
  `src/ListWithActions/use-animate.ts:20` and
  `src/ListWithActions/hooks.ts:12`. The curve is the quartic ease-out
  (`Animation.EasingIsQuarticEaseOut`, `Animation.EasingIsNotCubic`).

## Left out

- React plumbing is not modelled: `useState`, `useMemo`, `useCallback`, `forwardRef`, `useForwardRef` (`src/ListWithActions/hooks.ts:46-60`), and the effects that add and remove listeners. State is passed explicitly instead.
- Timing is not modelled. This covers lodash `throttle` (25 ms, trailing edge), `performance.now` and `requestAnimationFrame`. Each forwarded scroll event is one state write, and the clock is a parameter: a sequence of elapsed times.
- `scrollTo` and the layout effect that writes `scrollTop` back to the DOM are left out. They are DOM side effects.
- Overlapping animations are left out. The source does not cancel a running animation when a new one starts; the model covers one animation at a time, followed by other writes.
- Animation.GetValue: requires `duration > 0`. A zero duration gives `0 / 0 = NaN` in JavaScript, and `real` has no NaN. IEEE rounding is not modelled either.
- VListWindow.HandleScroll: requires `scrollTop >= 0`, since a DOM scroll offset is never negative, and `rowHeight > 0`, as `VListWindow.RowsToRender` does (with 0 the source's `floor(scrollTop / 0)` is `Infinity` or `NaN`).
- VListWindow.RowsToRender: requires `rowHeight > 0` and `height >= 0`. The source has no guard: with `rowHeight` 0 the buffer `ceil(2·height/0)` is `Infinity` and `rows.slice(0, Infinity)` renders every row (`src/VList/VList.tsx:36,68-71`); a negative height gives a negative buffer. Every caller passes a positive row height (85, or 5 in the tests).
- ListWindow.RowsThatFit: requires `rowHeight > 0` and `height >= 0`. The source has no guard: with `rowHeight` 0 `ceil(height/0)` is `Infinity`, so the window ends at `Infinity` and every row from `max(0, currentRow - Infinity) = 0` on is rendered (`src/ListWithActions/VList.tsx:34,37-41`). Every caller passes a positive row height.
- VListWindow.HandleScroll: takes the current `rowHeight` and buffer size N (`numberOfRowsToRender`) as parameters. The source's `useCallback(throttle(…), [])` (`src/VList/VList.tsx:47-62`) keeps the values of the first render, while `visibleRows` uses the current ones; after a change of `rowHeight` or `height` the source's handler still uses the old values, which the model does not reproduce.
- Rows.Decimal: covers every natural number. JavaScript's `String(i + 1)` switches to exponent notation from 1e21, and integers above 2^53 lose precision, so the round trip holds in the source only for ids below 2^53.
- ListWithActions.ScrollToEndSettles: assumes the DOM `scrollTop` that the scroll handler reads back equals the last value written by `scrollTo`, unclamped, as the test's mock of `scrollTo` does (`src/ListWithActions/ListWithActions.test.tsx:8-17`). A browser clamps the offset to `scrollHeight - clientHeight`, so there the current row ends short of the row count. Nothing in the source calls `smoothScrollToEnd` of `hooks.ts`.
- ListWindow.HandleScroll: requires `scrollTop >= 0` and `rowHeight > 0`, for the same reasons.
- Render.RenderSlice: requires `start >= 0`. Both components pass `max(0, …)`; a negative start would make `slice` count back from the end.
- The random `description` and `price` of `newItem` (`Math.random`, `toString(20)`, `toFixed(2)`) are left out. They are supplied as a `Detail`.
- Markup and styling are left out: `Rows.tsx` apart from the row offset, and the CSS variables.
- `src/ListWithActions/Actions.tsx` and `src/App/App.tsx` (the buttons and the page) are not part of this model. The append operation (`addRow`) is modelled; the buttons' `smoothScrollTo(height)` is not, because `ListWithActions.tsx:36-39` never passes `height`, so its target is `undefined`: every frame within the duration is `NaN` and the last one, past the duration, is `undefined` itself (`src/ListWithActions/use-animate.ts:16`), neither of which `real` can express. `ListUseAnimate.SmoothScrollTo` covers numeric targets only, such as the ⬆️ button's `smoothScrollTo(0)`.
- `src/VList/ListWithActions.tsx` is an older copy of the list controller and is not part of this model.
