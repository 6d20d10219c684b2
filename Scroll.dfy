/** The scroll arithmetic of the tab strip's host component: the clamp every
    offset change goes through, the choice of wheel axis, the offset a click
    scrolls to, and the re-clamp run when the strip or the container changes
    width. All of it is pure; `Host` applies it to the component's state. */
module Scroll {
  import opened RealMath

  /** How far the strip can scroll: the amount by which it overflows the
      container, or 0 when it fits. */
  function MaxOffset(totalWidth: real, containerWidth: real): real
  {
    Max(0.0, totalWidth - containerWidth)
  }

  /** The offsets the host may hold. */
  predicate InRange(offset: real, totalWidth: real, containerWidth: real)
  {
    0.0 <= offset <= MaxOffset(totalWidth, containerWidth)
  }

  /** `setOffsetSafely`: the requested offset brought into range. An offset
      already in range is kept, a negative one becomes 0, and one at or past
      the overflow becomes the largest offset. */
  function ClampOffset(requested: real, totalWidth: real, containerWidth: real): (r: real)
    ensures InRange(r, totalWidth, containerWidth)
    ensures InRange(requested, totalWidth, containerWidth) ==> r == requested
    ensures requested < 0.0 ==> r == 0.0
    ensures totalWidth - containerWidth <= requested ==> r == MaxOffset(totalWidth, containerWidth)
  {
    Max(0.0, Min(requested, totalWidth - containerWidth))
  }

  /** Clamping twice is clamping once. */
  lemma ClampIdempotent(requested: real, totalWidth: real, containerWidth: real)
    ensures var once := ClampOffset(requested, totalWidth, containerWidth);
      ClampOffset(once, totalWidth, containerWidth) == once
  {
  }

  /** The wheel handler scrolls by `deltaX || deltaY`: the horizontal delta
      when it is non-zero, the vertical one otherwise. */
  function WheelDelta(deltaX: real, deltaY: real): (d: real)
    ensures deltaX != 0.0 ==> d == deltaX
    ensures deltaX == 0.0 ==> d == deltaY
  {
    if deltaX != 0.0 then deltaX else deltaY
  }

  /** Tab `index` lies wholly inside the view at scroll offset `offset`. */
  predicate TabVisible(offset: real, index: int, tabWidth: real, containerWidth: real)
  {
    0.0 <= index as real * tabWidth - offset
    && (index + 1) as real * tabWidth - offset <= containerWidth
  }

  /** The offset a click handler requests for a tab spanning `[left, right)`
      in strip coordinates, from the offset the handler saw. Both tests read
      that same old offset: a tab cut off on the left is scrolled to the left
      edge, one cut off on the right is scrolled to the right edge, and when
      both tests pass the second request wins. A tab already in view keeps the
      offset, and an offset in range stays in range. */
  function ScrollIntoView(offset: real, left: real, right: real, totalWidth: real, containerWidth: real): (r: real)
    ensures 0.0 <= left - offset && right - offset <= containerWidth ==> r == offset
    ensures InRange(offset, totalWidth, containerWidth) ==> InRange(r, totalWidth, containerWidth)
  {
    var afterLeftTest :=
      if left - offset < 0.0 then ClampOffset(left, totalWidth, containerWidth) else offset;
    if right - offset > containerWidth
    then ClampOffset(right - containerWidth, totalWidth, containerWidth)
    else afterLeftTest
  }

  /** A span within the strip and no wider than the container is wholly in
      view at the offset `ScrollIntoView` chooses, when the offset it started
      from was in range. */
  lemma ScrollIntoViewShows(offset: real, left: real, right: real, totalWidth: real, containerWidth: real)
    requires 0.0 <= left <= right <= totalWidth && right - left <= containerWidth
    requires InRange(offset, totalWidth, containerWidth)
    ensures var r := ScrollIntoView(offset, left, right, totalWidth, containerWidth);
      0.0 <= left - r && right - r <= containerWidth
  {
    var r := ScrollIntoView(offset, left, right, totalWidth, containerWidth);
    if right - offset > containerWidth {
      ClampKeepsRightEdge(right, offset, totalWidth, containerWidth);
      assert r == right - containerWidth;
    } else if left - offset < 0.0 {
      ClampKeepsLeftEdge(left, offset, totalWidth, containerWidth);
      assert r == left;
    }
  }

  /** A right edge beyond the view of an in-range offset, and within the
      strip, can be brought to the view's right edge without clamping. */
  lemma ClampKeepsRightEdge(right: real, offset: real, totalWidth: real, containerWidth: real)
    requires InRange(offset, totalWidth, containerWidth)
    requires right - offset > containerWidth && right <= totalWidth
    ensures ClampOffset(right - containerWidth, totalWidth, containerWidth) == right - containerWidth
  {
    assert InRange(right - containerWidth, totalWidth, containerWidth);
  }

  /** A left edge before the view of an in-range offset, and not negative,
      can be brought to the view's left edge without clamping. */
  lemma ClampKeepsLeftEdge(left: real, offset: real, totalWidth: real, containerWidth: real)
    requires InRange(offset, totalWidth, containerWidth)
    requires 0.0 <= left < offset
    ensures ClampOffset(left, totalWidth, containerWidth) == left
  {
    assert InRange(left, totalWidth, containerWidth);
  }

  /** The offset after a click on tab `index`: the tab's span is
      `[index * tabWidth, (index + 1) * tabWidth)`. */
  function ClickOffset(offset: real, index: int, tabWidth: real, totalWidth: real, containerWidth: real): (r: real)
    ensures TabVisible(offset, index, tabWidth, containerWidth) ==> r == offset
    ensures InRange(offset, totalWidth, containerWidth) ==> InRange(r, totalWidth, containerWidth)
  {
    ScrollIntoView(offset, index as real * tabWidth, (index + 1) as real * tabWidth, totalWidth, containerWidth)
  }

  /** A click scrolls the clicked tab into view: when a tab fits in the
      container and the offset was in range, the clicked tab is wholly visible
      afterwards. */
  lemma ClickScrollsIntoView(offset: real, index: int, count: nat, tabWidth: real, containerWidth: real)
    requires 0 <= index < count
    requires 0.0 < tabWidth <= containerWidth
    requires InRange(offset, count as real * tabWidth, containerWidth)
    ensures TabVisible(ClickOffset(offset, index, tabWidth, count as real * tabWidth, containerWidth),
                       index, tabWidth, containerWidth)
  {
    var left, right, total := index as real * tabWidth, (index + 1) as real * tabWidth, count as real * tabWidth;
    TabEdges(index, count, tabWidth);
    assert 0.0 <= left <= right <= total;
    assert right - left <= containerWidth;
    ScrollIntoViewShows(offset, left, right, total, containerWidth);
  }

  /** The edges of tab `index` of a strip of `count` tabs lie within the
      strip, one tab width apart. */
  lemma TabEdges(index: int, count: nat, tabWidth: real)
    requires 0 <= index < count && tabWidth > 0.0
    ensures 0.0 <= index as real * tabWidth
    ensures (index + 1) as real * tabWidth == index as real * tabWidth + tabWidth
    ensures (index + 1) as real * tabWidth <= count as real * tabWidth
  {
    MulSucc(index, tabWidth);
    MulMonotone(index + 1, count, tabWidth);
    MulMonotone(0, index, tabWidth);
  }

  /** The effect run when the strip's or the container's width changes: an
      offset that no longer fits (or is negative) is clamped again. Its guard
      only skips offsets the clamp would keep, so the effect always leaves the
      clamped offset. */
  function ReclampOffset(offset: real, totalWidth: real, containerWidth: real): (r: real)
    ensures r == ClampOffset(offset, totalWidth, containerWidth)
  {
    if offset + containerWidth > totalWidth || offset < 0.0
    then ClampOffset(offset, totalWidth, containerWidth)
    else offset
  }
}
