# beautiful-tabs: the folding tab strip, in Dafny

This project models the core of the `BeautifulTabs` React component. It is a
horizontal strip of equally wide tabs that scrolls by an offset. Instead of
clipping the tabs that scroll out of the container, it *folds* them: they are
squeezed into narrow slivers stacked against the container's left and right
edges. The model covers:

- **the layout** (`useMemo` in `src/BeautifulTabs/BeautifulTabs.tsx`). This
  covers:
  - the four boundary indices (`beforeEnd`, `beforeStart`, `afterEnd`,
    `afterStart`);
  - the default placement of every tab;
  - the left folding pass and the right folding pass, which rewrite tabs
    in place.

  It lives in module `TabLayout` (`Layout.dfy`). The passes are specified by
  the recursive functions `LeftFold` and `RightFold`. The imperative method
  `ComputeLayout` fills an array and runs the two passes over it in place
  (`FoldLeftInPlace`, `FoldRightInPlace`), and is proved equal to the
  function `Layout`.
- **the scroll arithmetic** (module `Scroll`):
  - the clamp `setOffsetSafely`;
  - the wheel axis choice `deltaX || deltaY`;
  - the two tests of the click handler;
  - the re-clamp effect run when the strip or the container changes width.
- **the wheel-event coalescer** `mergeWheelEvents` (module `WheelMerge`). It
  is a class holding the closure's state: the frame request and the two
  running sums. A ghost sequence, `pending`, holds the events ingested since
  the last frame. The animation-frame callback is the explicit step `Fire`.
- **the component's state and handlers** (module `Host`). This is a class
  with the list length, tab width, container width, current index and
  offset. Its methods are the handlers and effects. `TabStyle` renders the
  layout with the component's own constants: a fold width of a tenth of the
  tab width and four fold steps.

Pixel values are JavaScript numbers. They are modelled as exact `real`s, and
`Math.floor(x / w)` becomes `(x / w).Floor`. `RealMath.dfy` holds `Max`/`Min`
and a few lemmas about products and floors.

Some behaviours of the code worth knowing, each stated by the model as the
code has it:

- Scrolled 250 px over ten 100 px tabs in a 500 px container, tab 2 is
  squeezed to width 30 at left 20 (`ScrolledExample`).
- At rest at offset 0, ten 100 px tabs overflowing a 500 px container are
  still folded on the right. Tabs 5-8 become 10 px slivers at 460-490. Tab
  4, wholly in view, is squeezed to width 60 at 400. Tab 9 stays a sliver at
  500, the container's right edge (`AtRestExample`).
- No parameter is validated. The layout's precondition only asks for a
  positive tab width.
- The layout does not clamp the offset. It lays out whatever offset the
  state holds, and only the handlers and the re-clamp effect clamp.
- The left pass gives every tab before `beforeEnd` exactly the fold width
  (`LeftFoldPacks`). At an offset that has not been clamped yet, the right
  pass can widen such a tab again. For example, after a list of 13 tabs of
  100 px in a 100 px container at offset 1200 shrinks to 10 tabs, tab 9 is
  painted at width 90 (`UnclampedPaintExample`).

## Model

| member | source | states |
|---|---|---|
| TabLayout.ComputeBounds | src/BeautifulTabs/BeautifulTabs.tsx:32-42 | the left fold window starts at index 0 or later and at most `maxFoldNum` tabs before `beforeEnd`; the right one ends at the last tab or earlier and at most `maxFoldNum` tabs after `afterEnd` |
| TabLayout.BoundsMeaning | src/BeautifulTabs/BeautifulTabs.tsx:32-42 | `beforeEnd` is the tab under the view's left edge and `afterEnd` the tab under its right edge (each brackets the edge between consecutive multiples of the tab width); `beforeStart` is never below 0 and `afterStart` never past the last tab, each at most `maxFoldNum` tabs beyond `beforeEnd`/`afterEnd` |
| TabLayout.DefaultRect | src/BeautifulTabs/BeautifulTabs.tsx:45-60 | the default rectangle of one tab; a tab before `beforeStart` is a sliver that ends exactly at the container's left edge |
| TabLayout.DefaultLayout | src/BeautifulTabs/BeautifulTabs.tsx:44-61 | one rectangle per tab: tabs before `beforeStart` are fold-width slivers just left of the container, tabs after `afterStart` slivers at its right edge, all others full width at `index * tabWidth - offset` |
| TabLayout.DefaultBandContiguous | src/BeautifulTabs/BeautifulTabs.tsx:57-60 | in the default placement, consecutive tabs of the unfolded band touch: each ends where the next begins |
| TabLayout.LeftWidth | src/BeautifulTabs/BeautifulTabs.tsx:65-68 | the left pass's width for one tab is never below the fold width, and is exactly the fold width for tabs before `beforeEnd` |
| TabLayout.RightWidth | src/BeautifulTabs/BeautifulTabs.tsx:83-89 | the right pass's width for one tab is never below the fold width, and is exactly the fold width for tabs after `afterEnd` |
| TabLayout.LeftFold | src/BeautifulTabs/BeautifulTabs.tsx:63-79 | the left pass itself, as a recursive function: it keeps one rectangle per tab and stops between its start index and the list's end; its other properties are the `LeftFold*` lemmas below |
| TabLayout.RightFold | src/BeautifulTabs/BeautifulTabs.tsx:81-100 | the right pass itself, as a recursive function: it keeps one rectangle per tab; its stop range and other properties are the `RightFold*` lemmas below |
| TabLayout.Layout | src/BeautifulTabs/BeautifulTabs.tsx:31-103 | the computed styles have one entry per tab |
| TabLayout.ComputeLayout | src/BeautifulTabs/BeautifulTabs.tsx:31-103 | building the array and running both passes in place yields exactly `Layout(p)` |
| TabLayout.FoldLeftInPlace | src/BeautifulTabs/BeautifulTabs.tsx:63-79 | the in-place left loop (with its break) leaves the array equal to `LeftFold` of its old contents from `beforeStart` with cursor 0 |
| TabLayout.FoldRightInPlace | src/BeautifulTabs/BeautifulTabs.tsx:81-100 | the in-place right loop (with its break) leaves the array equal to `RightFold` of its old contents from `afterStart` with an empty stack |
| TabLayout.LeftFoldFrame | src/BeautifulTabs/BeautifulTabs.tsx:63-79 | the left pass stops between its start index and the list's end and changes no tab outside `[start, stop)` |
| TabLayout.LeftFoldSteps | src/BeautifulTabs/BeautifulTabs.tsx:63-79 | the tabs the left pass rewrites form a gapless stack starting at the cursor, and the returned cursor is the stack's end |
| TabLayout.LeftFoldWidths | src/BeautifulTabs/BeautifulTabs.tsx:65-70 | each rewritten tab's width is the loop's width formula at its own left edge and below the tab width; the pass stops exactly where that formula reaches the tab width |
| TabLayout.LeftCursorGrows | src/BeautifulTabs/BeautifulTabs.tsx:63-79 | with a non-negative fold width the left cursor never moves back |
| TabLayout.LeftFoldPacks | src/BeautifulTabs/BeautifulTabs.tsx:63-79 | summary of the left pass: packing, widths in `[foldWidth, tabWidth)`, exactly the fold width before `beforeEnd`, incoming right edge kept otherwise (unless too narrow), and the stack never reaches past the first tab left alone |
| TabLayout.RightFoldFrame | src/BeautifulTabs/BeautifulTabs.tsx:81-100 | the right pass stops between -1 and its start index and changes no tab outside `(stop, start]` |
| TabLayout.RightFoldSteps | src/BeautifulTabs/BeautifulTabs.tsx:81-100 | the tabs the right pass rewrites form a gapless stack ending at `containerWidth - right` and growing leftward; the returned value is the stack's width |
| TabLayout.RightFoldWidths | src/BeautifulTabs/BeautifulTabs.tsx:83-91 | each rewritten tab's width is the loop's width formula for the stack to its right and below the tab width; the pass stops exactly where that formula reaches the tab width |
| TabLayout.RightCursorGrows | src/BeautifulTabs/BeautifulTabs.tsx:81-100 | with a non-negative fold width the right stack never shrinks |
| TabLayout.RightFoldPacks | src/BeautifulTabs/BeautifulTabs.tsx:81-100 | summary of the right pass, mirroring the left: packing, width bounds, fold width after `afterEnd`, incoming left edge kept otherwise, and no overlap with the first tab left alone |
| TabLayout.LayoutWidthBounds | src/BeautifulTabs/BeautifulTabs.tsx:44-100 | every tab of the final layout is between the fold width and the tab width wide |
| TabLayout.NoFoldingWhenFits | src/BeautifulTabs/BeautifulTabs.tsx:32-91 | when the strip fits in the container and nothing is scrolled, both passes stop at once and every tab is full width at `index * tabWidth` |
| TabLayout.ScrolledExample | src/BeautifulTabs/BeautifulTabs.tsx:31-103 | the full layout for ten 100 px tabs, offset 250, container 500: slivers of 10 at 0 and 10, tab 2 squeezed to 30, tabs 3-6 full, tab 7 squeezed to 30, slivers at 480 and 490 |
| TabLayout.ScrolledExampleDefaults | src/BeautifulTabs/BeautifulTabs.tsx:32-61 | in that example `beforeEnd` is 2, `beforeStart` 0, `afterEnd` 7 and `afterStart` 9, and every tab starts at full width at `index * 100 - 250` |
| TabLayout.ScrolledExampleLeftPass | src/BeautifulTabs/BeautifulTabs.tsx:63-79 | in that example the left pass folds tabs 0 and 1 to 10, squeezes tab 2 to 30 at 20, and leaves the rest alone |
| TabLayout.ScrolledExampleRightPass | src/BeautifulTabs/BeautifulTabs.tsx:81-100 | in that example the right pass folds tabs 9 and 8 to 10 at 490 and 480, squeezes tab 7 to 30 at 450, and leaves the rest alone |
| TabLayout.UnclampedPaintExample | src/BeautifulTabs/BeautifulTabs.tsx:63-100 | ten 100 px tabs in a 100 px container at offset 1200 (in range for thirteen tabs, before the re-clamp): `beforeEnd` is 12, yet tab 9, folded by the left pass, is widened by the right pass to width 90 at left 10 |
| TabLayout.AtRestExample | src/BeautifulTabs/BeautifulTabs.tsx:31-103 | the full layout for ten 100 px tabs, offset 0, container 500: tabs 0-3 full, tab 4 squeezed to 60 at 400, slivers of 10 at 460, 470, 480, 490 and 500 |
| TabLayout.AtRestExampleDefaults | src/BeautifulTabs/BeautifulTabs.tsx:32-61 | in that example `beforeEnd` and `beforeStart` are 0, `afterEnd` 4 and `afterStart` 8, every tab starts at full width at `index * 100`, and tab 9 at the view's right edge, 500, with the fold width |
| TabLayout.AtRestExampleRightPass | src/BeautifulTabs/BeautifulTabs.tsx:81-100 | in that example the right pass folds tabs 8 to 5 to 10 at 490 down to 460, squeezes tab 4 to 60 at 400, and leaves tabs 0-3 and tab 9 (already a sliver at 500) alone |
| RealMath.FloorDivBrackets | src/BeautifulTabs/BeautifulTabs.tsx:32 | `Math.floor(x / d)` for positive `d` is the index of the multiple of `d` just at or below `x` |
| Scroll.ClampOffset | src/BeautifulTabs/BeautifulTabs.tsx:105-107 | the stored offset is in `[0, max(0, total - container)]`, an in-range request is kept, a negative one becomes 0, one at or past the overflow becomes the largest offset |
| Scroll.ClampIdempotent | src/BeautifulTabs/BeautifulTabs.tsx:105-107 | clamping an already clamped offset changes nothing |
| Scroll.WheelDelta | src/BeautifulTabs/BeautifulTabs.tsx:111 | the wheel scrolls by the horizontal delta when it is non-zero, else by the vertical one |
| Scroll.ScrollIntoView | src/BeautifulTabs/BeautifulTabs.tsx:119-124 | a span already in view keeps the offset; an in-range offset stays in range |
| Scroll.ScrollIntoViewShows | src/BeautifulTabs/BeautifulTabs.tsx:119-124 | a span inside the strip and no wider than the container is wholly in view after the two tests |
| Scroll.ClickOffset | src/BeautifulTabs/BeautifulTabs.tsx:119-124 | a click on a visible tab leaves the offset alone, and the offset stays in range |
| Scroll.ClickScrollsIntoView | src/BeautifulTabs/BeautifulTabs.tsx:116-127 | after a click, the clicked tab is wholly visible, provided a tab fits in the container and the offset was in range |
| Scroll.ReclampOffset | src/BeautifulTabs/BeautifulTabs.tsx:129-133 | the effect's guard skips only offsets the clamp would keep, so the effect always leaves the clamped offset |
| WheelMerge.SumX | src/BeautifulTabs/BeautifulTabs.tsx:185 | the running horizontal sum over a run of events; it is never negative when no delta is |
| WheelMerge.SumY | src/BeautifulTabs/BeautifulTabs.tsx:186 | the running vertical sum over a run of events; it is never negative when no delta is |
| WheelMerge.SumsSplit | src/BeautifulTabs/BeautifulTabs.tsx:185-186 | summing the deltas over two consecutive windows of events equals summing over both: no delta is lost or counted twice between frames |
| WheelMerge.WheelMerger.constructor | src/BeautifulTabs/BeautifulTabs.tsx:179-181 | a fresh coalescer has no frame requested and zero sums |
| WheelMerge.WheelMerger.Ingest | src/BeautifulTabs/BeautifulTabs.tsx:183-196 | an event adds its deltas to the sums and requests a frame exactly when none was requested |
| WheelMerge.WheelMerger.Fire | src/BeautifulTabs/BeautifulTabs.tsx:189-194 | the frame delivers the first pending event and the sums of all pending deltas, then clears sums and request |
| WheelMerge.Burst | src/BeautifulTabs/BeautifulTabs.tsx:183-196 | a burst of events between frames requests exactly one frame, which delivers the first event and the exact sums |
| Host.FoldWidth | src/BeautifulTabs/BeautifulTabs.tsx:28 | for a positive tab width the fold width is positive and narrower than a tab |
| Host.FitsMeansUnfolded | src/BeautifulTabs/BeautifulTabs.tsx:27-61 | when the strip fits, the only in-range offset is 0 and the rendered layout folds nothing |
| Host.BeautifulTabs.constructor | src/BeautifulTabs/BeautifulTabs.tsx:16-18 | the first render has container width 0, the first tab current and offset 0, which is in range |
| Host.BeautifulTabs.SetOffsetSafely | src/BeautifulTabs/BeautifulTabs.tsx:105-107 | the offset becomes the clamped request and is in range |
| Host.BeautifulTabs.HandleWheel | src/BeautifulTabs/BeautifulTabs.tsx:109-114 | the offset moves by the chosen wheel delta, clamped; it stays in range |
| Host.BeautifulTabs.HandleClickTab | src/BeautifulTabs/BeautifulTabs.tsx:116-127 | the clicked tab becomes current and the offset becomes `ClickOffset` of the old one, in range |
| Host.BeautifulTabs.Reclamp | src/BeautifulTabs/BeautifulTabs.tsx:129-133 | the effect leaves the offset the reclamp of the old offset, in range |
| Host.BeautifulTabs.Resize | src/BeautifulTabs/BeautifulTabs.tsx:136-138 | the observer's width is stored and nothing else changes; the offset may now be out of range |
| Host.BeautifulTabs.SetList | src/BeautifulTabs/BeautifulTabs.tsx:27 | a list of another length changes the strip's total width and nothing else; the offset may now be out of range |
| Host.BeautifulTabs.TabStyle | src/BeautifulTabs/BeautifulTabs.tsx:31-103 | the rendered styles are `Layout` of the current state, whether or not the offset is in range: one per tab, each between the fold width and the tab width |
| Host.BeautifulTabs.ResizeCycle | src/BeautifulTabs/BeautifulTabs.tsx:129-138 | a resize paints the layout for the new width with the old, unclamped offset; the effect then clamps the offset to the new width |
| Host.BeautifulTabs.ListCycle | src/BeautifulTabs/BeautifulTabs.tsx:129-133 | a list change paints the layout for the new length with the old, unclamped offset; the effect then clamps the offset to the new total width |
| Host.WheelFrame | src/BeautifulTabs/BeautifulTabs.tsx:109-114 | one frame of the wheel pipeline moves the offset once, by the chosen axis of the summed deltas of every event since the last frame, clamped |

## Left out

- Parsing a string `tabWidth` (such as `"6rem"`) with `parseInt` and the root font size is not modelled. It needs the DOM. The tab width is a positive number given to the constructor.
- A change of the `tabWidth` prop after the first render is not modelled: `tabWidth` is a constant of the class.
- The `ResizeObserver` wiring is not modelled. Its callback becomes the `Resize` method.
- Resize, SetList, TabStyle: React's scheduling is not modelled. The order it gives is written out instead: `ResizeCycle` and `ListCycle` store the change, paint `TabStyle` with the old offset, then run `Reclamp`. When the container grows or the list shrinks, that painted offset can be past the new largest offset. The model does not say when the browser paints.
- The timing of `requestAnimationFrame` is not modelled. The frame callback is the explicit step `Fire`, and `WheelFrame` pairs it with the handler.
- `handleWheel` is rebuilt, with fresh sums and no pending frame, on every render. Its closure also captures the offset of that render. The model keeps one coalescer and applies the sums to the current offset, so events that straddle a re-render are merged as if by one closure. In the code, an event arriving after a frame has fired but before React re-renders goes to the old closure, whose next frame scrolls from that closure's stale offset and so overwrites the earlier frame's delta; the model applies every delta.
- JSX rendering, CSS class names, `itemRefs` and the optional `onClickTab` callback are not modelled. None of them affects the state.
- Floating-point rounding is not modelled. Numbers are exact reals, so `0.1 * tabWidth` and every sum are exact, and NaN and infinities do not arise.
- Host.BeautifulTabs.HandleClickTab: its contract gives the new offset as `ClickOffset` of the old one. That the clicked tab is then visible is stated by `Scroll.ClickScrollsIntoView` about that same function, not in the method's own `ensures`.
- `src/App.tsx` is a demo page and is not part of this model.
