/** The tab strip component's own state and event handlers: the list length,
    the tab width in pixels, the observed container width, the current tab and
    the scroll offset. Every offset change goes through the clamp of `Scroll`,
    so the offset stays in range across wheel frames and clicks. A resize or a
    list change can leave it out of range for one render, until the re-clamp
    effect runs. The rendered styles are the `Layout` of the current state,
    with a fold width of a tenth of the tab width and four fold steps. */
module Host {
  import opened TabLayout
  import opened Scroll
  import opened WheelMerge

  /** How many tabs beyond each view edge take part in the gradual fold. */
  const MaxFoldNum: nat := 4

  /** The fold width of a strip: a tenth of the tab width. */
  function FoldWidth(tabWidth: real): (w: real)
    ensures tabWidth > 0.0 ==> 0.0 < w < tabWidth
  {
    0.1 * tabWidth
  }

  /** When the strip fits in the container, the only offset in range is 0, and
      the rendered layout then folds nothing: every tab has the full width at
      its unscrolled position. */
  lemma FitsMeansUnfolded(count: nat, tabWidth: real, containerWidth: real, offset: real)
    requires tabWidth > 0.0
    requires count as real * tabWidth <= containerWidth
    requires InRange(offset, count as real * tabWidth, containerWidth)
    ensures offset == 0.0
    ensures var style := Layout(Params(count, tabWidth, FoldWidth(tabWidth), MaxFoldNum, offset, containerWidth));
      forall j :: 0 <= j < count ==> style[j] == Rect(j as real * tabWidth, tabWidth)
  {
    NoFoldingWhenFits(Params(count, tabWidth, FoldWidth(tabWidth), MaxFoldNum, offset, containerWidth));
  }

  class BeautifulTabs {
    var count: nat
    const tabWidth: real
    var containerWidth: real
    var currIndex: int
    var offset: real

    /** The width of the strip laid out without folding, the same value as
        `CurrentParams().TotalWidth()`. It is kept as its own function
        because it reads only `count`, so the handlers that change only the
        offset or the container width need not prove it unchanged. */
    function TotalWidth(): real
      reads this`count
    {
      count as real * tabWidth
    }

    /** The inputs the rendered layout is computed from. */
    function CurrentParams(): Params
      reads this
    {
      Params(count, tabWidth, FoldWidth(tabWidth), MaxFoldNum, offset, containerWidth)
    }

    /** What holds between events: positive tab width, non-negative
        container width (what a resize observer reports). */
    ghost predicate WellFormed()
      reads this`containerWidth
    {
      tabWidth > 0.0 && containerWidth >= 0.0
    }

    /** ... and, once every effect has run, an offset in range. */
    ghost predicate Valid()
      reads this`count, this`containerWidth, this`offset
    {
      WellFormed() && InRange(offset, TotalWidth(), containerWidth)
    }

    /** The first render: no container width observed yet, the first tab
        current, nothing scrolled. */
    constructor (count: nat, tabWidth: real)
      requires tabWidth > 0.0
      ensures Valid()
      ensures this.count == count && this.tabWidth == tabWidth
      ensures containerWidth == 0.0 && currIndex == 0 && offset == 0.0
    {
      this.count := count;
      this.tabWidth := tabWidth;
      containerWidth := 0.0;
      currIndex := 0;
      offset := 0.0;
    }

    /** `setOffsetSafely`: store the requested offset, clamped into range. */
    method SetOffsetSafely(requested: real)
      requires WellFormed()
      modifies this`offset
      ensures Valid()
      ensures offset == ClampOffset(requested, TotalWidth(), containerWidth)
    {
      offset := ClampOffset(requested, TotalWidth(), containerWidth);
    }

    /** The wheel handler, called with the merged deltas of one frame: scroll
        by the horizontal delta, or by the vertical one when the horizontal is
        zero, and clamp. */
    method HandleWheel(deltaX: real, deltaY: real)
      requires Valid()
      modifies this`offset
      ensures Valid()
      ensures offset == ClampOffset(old(offset) + WheelDelta(deltaX, deltaY), TotalWidth(), containerWidth)
    {
      var delta := WheelDelta(deltaX, deltaY);
      SetOffsetSafely(offset + delta);
    }

    /** A click on tab `index`: make it current and scroll it into view
        (`ClickScrollsIntoView` says the tab is then wholly visible). Both
        tests read the offset the handler was rendered with, so the second
        request wins when both pass. */
    method HandleClickTab(index: int)
      requires Valid() && 0 <= index < count
      modifies this`currIndex, this`offset
      ensures Valid() && currIndex == index
      ensures offset == ClickOffset(old(offset), index, tabWidth, TotalWidth(), containerWidth)
    {
      currIndex := index;
      var seen := offset;
      var left := index as real * tabWidth;
      var right := (index + 1) as real * tabWidth;
      if left - seen < 0.0 {
        SetOffsetSafely(left);
      }
      if right - seen > containerWidth {
        SetOffsetSafely(right - containerWidth);
      }
    }

    /** The effect that runs after the strip's or the container's width
        changed: re-clamp an offset that no longer fits. */
    method Reclamp()
      requires WellFormed()
      modifies this`offset
      ensures Valid()
      ensures offset == ReclampOffset(old(offset), TotalWidth(), containerWidth)
    {
      if offset + containerWidth > TotalWidth() || offset < 0.0 {
        SetOffsetSafely(offset);
      }
    }

    /** The resize observer reports a new container width. The offset is
        left as it was: until the re-clamp effect runs it may be past the new
        largest offset. */
    method Resize(width: real)
      requires WellFormed() && width >= 0.0
      modifies this`containerWidth
      ensures WellFormed() && containerWidth == width
    {
      containerWidth := width;
    }

    /** The host passes a list of another length. The offset is left as it
        was: until the re-clamp effect runs it may be past the new largest
        offset. */
    method SetList(newCount: nat)
      requires WellFormed()
      modifies this`count
      ensures WellFormed() && count == newCount
    {
      count := newCount;
    }

    /** The styles rendered for the current state, whether or not the offset
        has been clamped yet: one rectangle per tab, each between the fold
        width and the tab width wide. */
    method TabStyle() returns (style: seq<Rect>)
      requires WellFormed()
      ensures style == Layout(CurrentParams())
      ensures |style| == count
      ensures forall j :: 0 <= j < count ==> FoldWidth(tabWidth) <= style[j].width <= tabWidth
    {
      style := ComputeLayout(CurrentParams());
      LayoutWidthBounds(CurrentParams());
    }

    /** A resize as React runs it: the new width is stored, the render paints
        the layout for the new width and the offset as it was, and only then
        does the effect re-clamp the offset. */
    method ResizeCycle(width: real) returns (painted: seq<Rect>)
      requires Valid() && width >= 0.0
      modifies this`containerWidth, this`offset
      ensures painted == Layout(Params(count, tabWidth, FoldWidth(tabWidth), MaxFoldNum, old(offset), width))
      ensures Valid() && containerWidth == width
      ensures offset == ClampOffset(old(offset), TotalWidth(), width)
    {
      Resize(width);
      assert CurrentParams() == Params(count, tabWidth, FoldWidth(tabWidth), MaxFoldNum, old(offset), width);
      painted := TabStyle();
      Reclamp();
    }

    /** A list change as React runs it: the new length is stored, the render
        paints the layout for the new list and the offset as it was, and only
        then does the effect re-clamp the offset. */
    method ListCycle(newCount: nat) returns (painted: seq<Rect>)
      requires Valid()
      modifies this`count, this`offset
      ensures painted == Layout(Params(newCount, tabWidth, FoldWidth(tabWidth), MaxFoldNum, old(offset), containerWidth))
      ensures Valid() && count == newCount
      ensures offset == ClampOffset(old(offset), TotalWidth(), containerWidth)
    {
      SetList(newCount);
      assert CurrentParams() == Params(newCount, tabWidth, FoldWidth(tabWidth), MaxFoldNum, old(offset), containerWidth);
      painted := TabStyle();
      Reclamp();
    }
  }

  /** One animation frame of the wheel pipeline: the coalescer hands its
      merged deltas to the wheel handler, which scrolls by them once. */
  method WheelFrame(merger: WheelMerger, tabs: BeautifulTabs)
    requires merger.Valid() && merger.scheduled && tabs.Valid()
    modifies merger, tabs`offset
    ensures merger.Valid() && !merger.scheduled && merger.pending == []
    ensures tabs.Valid()
    ensures tabs.offset == ClampOffset(
      old(tabs.offset) + WheelDelta(SumX(old(merger.pending)), SumY(old(merger.pending))),
      tabs.TotalWidth(), tabs.containerWidth)
  {
    var event, deltaX, deltaY := merger.Fire();
    tabs.HandleWheel(deltaX, deltaY);
  }
}
