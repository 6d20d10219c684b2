/** The folding layout of the tab strip: the computation that, from the tab
    count, the tab width, the fold width, the number of fold steps, the scroll
    offset and the container width, gives every tab a `{left, width}`
    rectangle. Tabs scrolled out of view are squeezed into a stack at the edge
    they left by, instead of being placed out of sight.

    The computation runs in three steps: four boundary indices, a default
    placement of every tab, and two fold passes that rewrite the default
    placement in place, the left pass from the left edge inward and the right
    pass from the right edge inward. `Layout` states the result as a function;
    `ComputeLayout` is the imperative computation over an array, proved equal
    to it. */
module TabLayout {
  import opened RealMath

  /** The style given to one tab: its left edge and its width, in pixels,
      relative to the container. */
  datatype Rect = Rect(left: real, width: real)

  /** The inputs of one layout computation. `count` is the length of the tab
      list; `offset` is the scroll offset. */
  datatype Params = Params(
    count: nat,
    tabWidth: real,
    foldWidth: real,
    maxFoldNum: nat,
    offset: real,
    containerWidth: real)
  {
    /** The width of the strip laid out without folding. */
    function TotalWidth(): real { count as real * tabWidth }
  }

  /** The four boundary indices of the first step. `beforeEnd` is the tab
      under the left edge of the view and `afterEnd` the tab under its right
      edge; folding is confined to `maxFoldNum` tabs beyond each of them, and
      every tab before `beforeStart` or after `afterStart` is fully folded. */
  datatype Bounds = Bounds(beforeEnd: int, beforeStart: int, afterEnd: int, afterStart: int)

  function ComputeBounds(p: Params): (b: Bounds)
    requires p.tabWidth > 0.0
    ensures 0 <= b.beforeStart && b.beforeEnd - p.maxFoldNum <= b.beforeStart
    ensures b.afterStart <= p.count - 1 && b.afterStart <= b.afterEnd + p.maxFoldNum
  {
    var beforeEnd := (p.offset / p.tabWidth).Floor;
    var afterEnd :=
      p.count - 1 - ((p.TotalWidth() - p.containerWidth - p.offset) / p.tabWidth).Floor;
    Bounds(
      beforeEnd,
      MaxInt(0, beforeEnd - p.maxFoldNum),
      afterEnd,
      MinInt(afterEnd + p.maxFoldNum, p.count - 1))
  }

  /** The boundary indices mean what their names say: the tab `beforeEnd`
      holds the left edge of the view (`offset`), the tab `afterEnd` holds its
      right edge (`offset + containerWidth`), `beforeStart` is never below 0
      and `afterStart` never past the last tab, each at most `maxFoldNum`
      tabs beyond `beforeEnd`/`afterEnd`. */
  lemma BoundsMeaning(p: Params)
    requires p.tabWidth > 0.0
    ensures var b := ComputeBounds(p);
      && (b.beforeEnd as real) * p.tabWidth <= p.offset
      && p.offset < (b.beforeEnd as real + 1.0) * p.tabWidth
      && (b.afterEnd as real) * p.tabWidth < p.offset + p.containerWidth
      && p.offset + p.containerWidth <= (b.afterEnd as real + 1.0) * p.tabWidth
      && 0 <= b.beforeStart && b.afterStart <= p.count - 1
      && b.beforeEnd - p.maxFoldNum <= b.beforeStart
      && b.afterStart <= b.afterEnd + p.maxFoldNum
  {
    var b := ComputeBounds(p);
    var tw := p.tabWidth;
    FloorDivBrackets(p.offset, tw);
    var hidden := p.TotalWidth() - p.containerWidth - p.offset;
    var k := (hidden / tw).Floor;
    FloorDivBrackets(hidden, tw);
    assert b.afterEnd == p.count - 1 - k;
    assert (b.afterEnd as real) * tw == p.TotalWidth() - (k as real + 1.0) * tw;
    assert (b.afterEnd as real + 1.0) * tw == p.TotalWidth() - (k as real) * tw;
  }

  /** Step 2, for one tab: fully folded off the left edge, fully folded off
      the right edge, or at its scrolled position with the full width. */
  function DefaultRect(p: Params, b: Bounds, i: int): (r: Rect)
    ensures i < b.beforeStart ==> r.left + r.width == 0.0
  {
    if i < b.beforeStart then Rect(-p.foldWidth, p.foldWidth)
    else if i > b.afterStart then Rect(p.containerWidth, p.foldWidth)
    else Rect(i as real * p.tabWidth - p.offset, p.tabWidth)
  }

  /** Step 2: one rectangle per tab, in index order. Between the two fully
      folded ends the tabs sit side by side at full width, shifted left by the
      scroll offset. */
  function DefaultLayout(p: Params, b: Bounds): (r: seq<Rect>)
    ensures |r| == p.count
    ensures forall i :: 0 <= i < |r| && i < b.beforeStart ==>
      r[i] == Rect(-p.foldWidth, p.foldWidth)
    ensures forall i :: 0 <= i < |r| && b.beforeStart <= i && b.afterStart < i ==>
      r[i] == Rect(p.containerWidth, p.foldWidth)
    ensures forall i :: 0 <= i < |r| && b.beforeStart <= i <= b.afterStart ==>
      r[i].width == p.tabWidth && r[i].left + p.offset == i as real * p.tabWidth
  {
    seq(p.count, i => DefaultRect(p, b, i))
  }

  /** In the default placement the full-width band is contiguous: each tab of
      the band starts where the previous one ends. */
  lemma DefaultBandContiguous(p: Params, b: Bounds)
    ensures var r := DefaultLayout(p, b);
      forall i :: 0 <= i && i + 1 < |r| && b.beforeStart <= i && i + 1 <= b.afterStart ==>
        r[i + 1].left == r[i].left + r[i].width
  {
    var r := DefaultLayout(p, b);
    forall i | 0 <= i && i + 1 < |r| && b.beforeStart <= i && i + 1 <= b.afterStart
      ensures r[i + 1].left == r[i].left + r[i].width
    {
      MulSucc(i, p.tabWidth);
    }
  }

  /** The width the left pass gives tab `i` when its running cursor stands at
      `cursor` and the tab's current rectangle is `r`: the fold width for tabs
      left of the view, otherwise just enough to reach the tab's current right
      edge from the cursor, and never less than the fold width. */
  function LeftWidth(p: Params, b: Bounds, i: int, cursor: real, r: Rect): (w: real)
    ensures p.foldWidth <= w
    ensures i < b.beforeEnd ==> w == p.foldWidth
  {
    if i < b.beforeEnd then p.foldWidth
    else Max(p.foldWidth, -cursor + r.left + p.tabWidth)
  }

  /** The width the right pass gives tab `i` when `right` pixels of the right
      edge are already taken by folded tabs: the fold width for tabs right of
      the view, otherwise just enough to reach the stack from the tab's
      current left edge, and never less than the fold width. */
  function RightWidth(p: Params, b: Bounds, i: int, right: real, r: Rect): (w: real)
    ensures p.foldWidth <= w
    ensures b.afterEnd < i ==> w == p.foldWidth
  {
    if i > b.afterEnd then p.foldWidth
    else Max(p.foldWidth, -right - (r.left + p.tabWidth - p.containerWidth) + p.tabWidth)
  }

  /** Where a fold pass ended: the rewritten rectangles, the index at which it
      stopped (the first tab it left alone, or one past the list) and its
      final running cursor. */
  datatype Pass = Pass(rects: seq<Rect>, stop: int, cursor: real)

  /** The left fold pass from index `i` on, with the cursor at `cursor`. Each
      tab is given the cursor as its left edge and `LeftWidth` as its width,
      and the cursor advances past it; the pass stops at the first tab whose
      width would be the full tab width. */
  function LeftFold(p: Params, b: Bounds, s: seq<Rect>, i: int, cursor: real): (f: Pass)
    requires 0 <= i
    ensures |f.rects| == |s|
    ensures i <= f.stop <= MaxInt(i, |s|)
    decreases |s| - i
  {
    if i >= |s| then Pass(s, i, cursor)
    else
      var width := LeftWidth(p, b, i, cursor, s[i]);
      if width >= p.tabWidth then Pass(s, i, cursor)
      else LeftFold(p, b, s[i := Rect(cursor, width)], i + 1, cursor + width)
  }

  /** The right fold pass from index `i` down, with `right` pixels of the
      right edge already taken. Each tab is placed so that it ends where the
      stack begins, and the stack grows by its width; the pass stops at the
      first tab whose width would be the full tab width. */
  function RightFold(p: Params, b: Bounds, s: seq<Rect>, i: int, right: real): (f: Pass)
    requires i < |s|
    ensures |f.rects| == |s|
    decreases i + 1
  {
    if i < 0 then Pass(s, i, right)
    else
      var width := RightWidth(p, b, i, right, s[i]);
      if width >= p.tabWidth then Pass(s, i, right)
      else RightFold(p, b, s[i := Rect(p.containerWidth - right - width, width)], i - 1, right + width)
  }

  /** The whole layout: the default placement, rewritten by the left pass
      from `beforeStart` with the cursor at 0, then by the right pass from
      `afterStart` with nothing taken yet. The right pass reads and may
      overwrite what the left pass wrote. */
  function Layout(p: Params): (r: seq<Rect>)
    requires p.tabWidth > 0.0
    ensures |r| == p.count
  {
    var b := ComputeBounds(p);
    var folded := LeftFold(p, b, DefaultLayout(p, b), b.beforeStart, 0.0).rects;
    RightFold(p, b, folded, b.afterStart, 0.0).rects
  }

  /** The layout computed as the component does it: build the default
      rectangles, then rewrite them in place with the left and the right
      fold pass. */
  method ComputeLayout(p: Params) returns (res: seq<Rect>)
    requires p.tabWidth > 0.0
    ensures res == Layout(p)
  {
    var b := ComputeBounds(p);
    var rects := new Rect[p.count](i => DefaultRect(p, b, i));
    assert rects[..] == DefaultLayout(p, b);
    FoldLeftInPlace(p, b, rects);
    FoldRightInPlace(p, b, rects);
    res := rects[..];
  }

  /** The left fold pass over the rectangles in place, with a running cursor
      starting at 0. Every index read or written lies in `[0, rects.Length)`. */
  method FoldLeftInPlace(p: Params, b: Bounds, rects: array<Rect>)
    requires 0 <= b.beforeStart
    modifies rects
    ensures rects[..] == LeftFold(p, b, old(rects[..]), b.beforeStart, 0.0).rects
  {
    ghost var folded := LeftFold(p, b, rects[..], b.beforeStart, 0.0).rects;
    var left := 0.0;
    var i := b.beforeStart;
    while i < rects.Length
      invariant b.beforeStart <= i
      invariant LeftFold(p, b, rects[..], i, left).rects == folded
    {
      var width := LeftWidth(p, b, i, left, rects[i]);
      if width >= p.tabWidth {
        assert LeftFold(p, b, rects[..], i, left).rects == rects[..];
        break;
      }
      ghost var before := rects[..];
      rects[i] := Rect(left, width);
      assert rects[..] == before[i := Rect(left, width)];
      left := left + width;
      i := i + 1;
    }
  }

  /** The right fold pass over the rectangles in place, with a running cursor
      measuring the stack from the right edge, starting at 0. Every index read
      or written lies in `[0, rects.Length)`. */
  method FoldRightInPlace(p: Params, b: Bounds, rects: array<Rect>)
    requires b.afterStart < rects.Length
    modifies rects
    ensures rects[..] == RightFold(p, b, old(rects[..]), b.afterStart, 0.0).rects
  {
    ghost var folded := RightFold(p, b, rects[..], b.afterStart, 0.0).rects;
    var right := 0.0;
    var i := b.afterStart;
    while i >= 0
      invariant i <= b.afterStart
      invariant RightFold(p, b, rects[..], i, right).rects == folded
      decreases i
    {
      var width := RightWidth(p, b, i, right, rects[i]);
      if width >= p.tabWidth {
        assert RightFold(p, b, rects[..], i, right).rects == rects[..];
        break;
      }
      ghost var before := rects[..];
      rects[i] := Rect(p.containerWidth - right - width, width);
      assert rects[..] == before[i := Rect(p.containerWidth - right - width, width)];
      right := right + width;
      i := i - 1;
    }
  }

  /** The left pass from index `i` changes only the tabs from `i` up to just
      before its stop index, which lies between `i` and the end of the list. */
  lemma {:induction false} LeftFoldFrame(p: Params, b: Bounds, s: seq<Rect>, i: int, cursor: real)
    requires 0 <= i
    ensures var f := LeftFold(p, b, s, i, cursor);
      && i <= f.stop <= MaxInt(i, |s|)
      && (forall j :: 0 <= j < |s| && (j < i || f.stop <= j) ==> f.rects[j] == s[j])
    decreases |s| - i
  {
    if i < |s| {
      var width := LeftWidth(p, b, i, cursor, s[i]);
      if width < p.tabWidth {
        LeftFoldFrame(p, b, s[i := Rect(cursor, width)], i + 1, cursor + width);
      }
    }
  }

  /** The geometry of one run of the left pass: the tabs it rewrites form a
      gapless stack that starts at the cursor, and the cursor it returns is
      the end of that stack. */
  lemma {:induction false} LeftFoldSteps(p: Params, b: Bounds, s: seq<Rect>, i: int, cursor: real)
    requires 0 <= i
    ensures var f := LeftFold(p, b, s, i, cursor);
      && i <= f.stop <= MaxInt(i, |s|)
      && (i < f.stop ==> f.rects[i].left == cursor)
      && (forall j :: i <= j && j + 1 < f.stop ==>
            f.rects[j + 1].left == f.rects[j].left + f.rects[j].width)
      && f.cursor == (if i < f.stop then f.rects[f.stop - 1].left + f.rects[f.stop - 1].width else cursor)
    decreases |s| - i
  {
    LeftFoldFrame(p, b, s, i, cursor);
    var f := LeftFold(p, b, s, i, cursor);
    if i < |s| {
      var width := LeftWidth(p, b, i, cursor, s[i]);
      if width < p.tabWidth {
        var s' := s[i := Rect(cursor, width)];
        assert f == LeftFold(p, b, s', i + 1, cursor + width);
        LeftFoldFrame(p, b, s', i + 1, cursor + width);
        LeftFoldSteps(p, b, s', i + 1, cursor + width);
        assert f.rects[i] == s'[i];
      }
    }
  }

  /** The widths of one run of the left pass: each tab it rewrites gets
      `LeftWidth` at its own left edge, below the full width, and the pass
      stops at the end of the list or at the first tab whose width at the
      returned cursor would be the full width. */
  lemma {:induction false} LeftFoldWidths(p: Params, b: Bounds, s: seq<Rect>, i: int, cursor: real)
    requires 0 <= i
    ensures var f := LeftFold(p, b, s, i, cursor);
      && i <= f.stop <= MaxInt(i, |s|)
      && (forall j :: i <= j < f.stop ==>
            f.rects[j].width == LeftWidth(p, b, j, f.rects[j].left, s[j]) < p.tabWidth)
      && (f.stop < |s| ==> LeftWidth(p, b, f.stop, f.cursor, s[f.stop]) >= p.tabWidth)
    decreases |s| - i
  {
    LeftFoldFrame(p, b, s, i, cursor);
    var f := LeftFold(p, b, s, i, cursor);
    if i < |s| {
      var width := LeftWidth(p, b, i, cursor, s[i]);
      if width < p.tabWidth {
        var s' := s[i := Rect(cursor, width)];
        assert f == LeftFold(p, b, s', i + 1, cursor + width);
        LeftFoldFrame(p, b, s', i + 1, cursor + width);
        LeftFoldWidths(p, b, s', i + 1, cursor + width);
        assert f.rects[i] == s'[i];
      }
    }
  }

  /** With a non-negative fold width the left pass's cursor never moves
      back. */
  lemma {:induction false} LeftCursorGrows(p: Params, b: Bounds, s: seq<Rect>, i: int, cursor: real)
    requires 0 <= i && p.foldWidth >= 0.0
    ensures cursor <= LeftFold(p, b, s, i, cursor).cursor
    decreases |s| - i
  {
    if i < |s| {
      var width := LeftWidth(p, b, i, cursor, s[i]);
      if width < p.tabWidth {
        LeftCursorGrows(p, b, s[i := Rect(cursor, width)], i + 1, cursor + width);
      }
    }
  }

  /** The left pass packs the tabs it rewrites into a gapless stack from the
      cursor: the first rewritten tab starts at the cursor and each next one
      starts where the previous ends, so the cursor never moves back when the
      fold width is not negative. Every rewritten width lies in
      `[foldWidth, tabWidth)`; tabs left of the view get exactly the fold
      width, the others keep their incoming right edge unless that would make
      them narrower than the fold width. When `foldWidth < tabWidth`, the tab
      the pass stopped at is at or past `beforeEnd` and starts no earlier than
      the end of the stack, so the stack never overlaps the tabs left alone. */
  lemma LeftFoldPacks(p: Params, b: Bounds, s: seq<Rect>, i: int, cursor: real)
    requires 0 <= i
    ensures var f := LeftFold(p, b, s, i, cursor);
      && i <= f.stop <= MaxInt(i, |s|)
      && (forall j :: 0 <= j < |s| && (j < i || f.stop <= j) ==> f.rects[j] == s[j])
      && (i < f.stop ==> f.rects[i].left == cursor)
      && (forall j :: i <= j && j + 1 < f.stop ==>
            f.rects[j + 1].left == f.rects[j].left + f.rects[j].width)
      && (p.foldWidth >= 0.0 ==> cursor <= f.cursor)
      && (forall j :: i <= j < f.stop ==> p.foldWidth <= f.rects[j].width < p.tabWidth)
      && (forall j :: i <= j < f.stop && j < b.beforeEnd ==> f.rects[j].width == p.foldWidth)
      && (forall j :: i <= j < f.stop && b.beforeEnd <= j ==>
            f.rects[j].left + f.rects[j].width
            == Max(f.rects[j].left + p.foldWidth, s[j].left + p.tabWidth))
      && (p.foldWidth < p.tabWidth && f.stop < |s| ==>
            b.beforeEnd <= f.stop && f.cursor <= s[f.stop].left)
  {
    LeftFoldFrame(p, b, s, i, cursor);
    LeftFoldSteps(p, b, s, i, cursor);
    LeftFoldWidths(p, b, s, i, cursor);
    if p.foldWidth >= 0.0 {
      LeftCursorGrows(p, b, s, i, cursor);
    }
  }

  /** The right pass from index `i` changes only the tabs from `i` down to
      just above its stop index, which lies between -1 and `i`. */
  lemma {:induction false} RightFoldFrame(p: Params, b: Bounds, s: seq<Rect>, i: int, right: real)
    requires i < |s|
    ensures var f := RightFold(p, b, s, i, right);
      && MinInt(i, -1) <= f.stop <= i
      && (forall j :: 0 <= j < |s| && (j <= f.stop || i < j) ==> f.rects[j] == s[j])
    decreases i + 1
  {
    if 0 <= i {
      var width := RightWidth(p, b, i, right, s[i]);
      if width < p.tabWidth {
        RightFoldFrame(p, b, s[i := Rect(p.containerWidth - right - width, width)], i - 1, right + width);
      }
    }
  }

  /** The geometry of one run of the right pass: the tabs it rewrites form
      a gapless stack that ends at `containerWidth - right` and grows
      leftward, and the cursor it returns is the stack's total width. */
  lemma {:induction false} RightFoldSteps(p: Params, b: Bounds, s: seq<Rect>, i: int, right: real)
    requires i < |s|
    ensures var f := RightFold(p, b, s, i, right);
      && MinInt(i, -1) <= f.stop <= i
      && (f.stop < i ==> f.rects[i].left + f.rects[i].width == p.containerWidth - right)
      && (forall j :: f.stop < j && j + 1 <= i ==>
            f.rects[j].left + f.rects[j].width == f.rects[j + 1].left)
      && p.containerWidth - f.cursor
         == (if f.stop < i then f.rects[f.stop + 1].left else p.containerWidth - right)
    decreases i + 1
  {
    RightFoldFrame(p, b, s, i, right);
    var f := RightFold(p, b, s, i, right);
    if 0 <= i {
      var width := RightWidth(p, b, i, right, s[i]);
      if width < p.tabWidth {
        var s' := s[i := Rect(p.containerWidth - right - width, width)];
        assert f == RightFold(p, b, s', i - 1, right + width);
        RightFoldFrame(p, b, s', i - 1, right + width);
        RightFoldSteps(p, b, s', i - 1, right + width);
        assert f.rects[i] == s'[i];
      }
    }
  }

  /** The widths of one run of the right pass: each tab it rewrites gets
      `RightWidth` for the stack to its right, below the full width, and the
      pass stops below index 0 or at the first tab whose width for the
      returned stack would be the full width. */
  lemma {:induction false} RightFoldWidths(p: Params, b: Bounds, s: seq<Rect>, i: int, right: real)
    requires i < |s|
    ensures var f := RightFold(p, b, s, i, right);
      && MinInt(i, -1) <= f.stop <= i
      && (forall j :: f.stop < j <= i ==>
            f.rects[j].width
            == RightWidth(p, b, j, p.containerWidth - f.rects[j].left - f.rects[j].width, s[j])
            < p.tabWidth)
      && (0 <= f.stop ==> RightWidth(p, b, f.stop, f.cursor, s[f.stop]) >= p.tabWidth)
    decreases i + 1
  {
    RightFoldFrame(p, b, s, i, right);
    var f := RightFold(p, b, s, i, right);
    if 0 <= i {
      var width := RightWidth(p, b, i, right, s[i]);
      if width < p.tabWidth {
        var s' := s[i := Rect(p.containerWidth - right - width, width)];
        assert f == RightFold(p, b, s', i - 1, right + width);
        RightFoldFrame(p, b, s', i - 1, right + width);
        RightFoldWidths(p, b, s', i - 1, right + width);
        assert f.rects[i] == s'[i];
      }
    }
  }

  /** With a non-negative fold width the right pass's stack never shrinks. */
  lemma {:induction false} RightCursorGrows(p: Params, b: Bounds, s: seq<Rect>, i: int, right: real)
    requires i < |s| && p.foldWidth >= 0.0
    ensures right <= RightFold(p, b, s, i, right).cursor
    decreases i + 1
  {
    if 0 <= i {
      var width := RightWidth(p, b, i, right, s[i]);
      if width < p.tabWidth {
        RightCursorGrows(p, b, s[i := Rect(p.containerWidth - right - width, width)], i - 1, right + width);
      }
    }
  }

  /** The right pass packs the tabs it rewrites into a gapless stack that
      grows leftward from `containerWidth - right`: the first rewritten tab
      ends there and each next lower one ends where the previous begins.
      Every rewritten width lies in `[foldWidth, tabWidth)`; tabs right of
      the view get exactly the fold width, the others keep their incoming left
      edge unless that would make them narrower than the fold width. When
      `foldWidth < tabWidth`, the tab the pass stopped at is at or before
      `afterEnd` and ends no later than the start of the stack, so the stack
      never overlaps the tabs left alone. */
  lemma RightFoldPacks(p: Params, b: Bounds, s: seq<Rect>, i: int, right: real)
    requires i < |s|
    ensures var f := RightFold(p, b, s, i, right);
      && MinInt(i, -1) <= f.stop <= i
      && (forall j :: 0 <= j < |s| && (j <= f.stop || i < j) ==> f.rects[j] == s[j])
      && (f.stop < i ==> f.rects[i].left + f.rects[i].width == p.containerWidth - right)
      && (forall j :: f.stop < j && j + 1 <= i ==>
            f.rects[j].left + f.rects[j].width == f.rects[j + 1].left)
      && (p.foldWidth >= 0.0 ==> right <= f.cursor)
      && (forall j :: f.stop < j <= i ==> p.foldWidth <= f.rects[j].width < p.tabWidth)
      && (forall j :: f.stop < j <= i && b.afterEnd < j ==> f.rects[j].width == p.foldWidth)
      && (forall j :: f.stop < j <= i && j <= b.afterEnd ==>
            f.rects[j].left == Min(f.rects[j].left + f.rects[j].width - p.foldWidth, s[j].left))
      && (p.foldWidth < p.tabWidth && 0 <= f.stop ==>
            f.stop <= b.afterEnd && s[f.stop].left + p.tabWidth <= p.containerWidth - f.cursor)
  {
    RightFoldFrame(p, b, s, i, right);
    RightFoldSteps(p, b, s, i, right);
    RightFoldWidths(p, b, s, i, right);
    if p.foldWidth >= 0.0 {
      RightCursorGrows(p, b, s, i, right);
    }
  }

  /** With the fold width no larger than the tab width, every tab of the
      final layout is at least the fold width and at most the tab width wide:
      the default placement gives only these two widths, and each pass writes
      widths in `[foldWidth, tabWidth)`. */
  lemma LayoutWidthBounds(p: Params)
    requires p.tabWidth > 0.0 && p.foldWidth <= p.tabWidth
    ensures forall j :: 0 <= j < p.count ==>
      p.foldWidth <= Layout(p)[j].width <= p.tabWidth
  {
    var b := ComputeBounds(p);
    var d := DefaultLayout(p, b);
    LeftFoldPacks(p, b, d, b.beforeStart, 0.0);
    var folded := LeftFold(p, b, d, b.beforeStart, 0.0).rects;
    RightFoldPacks(p, b, folded, b.afterStart, 0.0);
  }

  /** When the whole strip fits in the container and nothing is scrolled, no
      tab is folded: both passes stop at their first tab and every tab keeps
      the full width at its unscrolled position. */
  lemma NoFoldingWhenFits(p: Params)
    requires p.tabWidth > 0.0 && p.offset == 0.0 && p.TotalWidth() <= p.containerWidth
    ensures forall j :: 0 <= j < p.count ==>
      Layout(p)[j] == Rect(j as real * p.tabWidth, p.tabWidth)
  {
    var b := ComputeBounds(p);
    var tw := p.tabWidth;
    var hidden := p.TotalWidth() - p.containerWidth - p.offset;
    var k := (hidden / tw).Floor;
    FloorDivBrackets(hidden, tw);
    if k >= 1 {
      MulMonotone(1, k, tw);
    }
    assert b.beforeEnd == 0 && b.beforeStart == 0;
    assert b.afterEnd >= p.count - 1 && b.afterStart == p.count - 1;
    var d := DefaultLayout(p, b);
    var folded := LeftFold(p, b, d, 0, 0.0);
    if p.count > 0 {
      assert LeftWidth(p, b, 0, 0.0, d[0]) >= tw;
      assert folded.rects == d;
      MulSucc(p.count - 1, tw);
      assert RightWidth(p, b, p.count - 1, 0.0, d[p.count - 1]) >= tw;
    }
  }

  /** A concrete run with the strip scrolled by two and a half tabs: ten
      tabs of 100 pixels, fold width 10, four fold steps, offset 250, a
      500-pixel container. Tabs 0 and 1 fold to the fold width; tab 2, half
      scrolled out, is squeezed to 30 pixels so that it still ends at its
      scrolled right edge; tabs 3 to 6 keep their scrolled positions; on the
      right, tabs 9 and 8 fold and tab 7 is squeezed to 30 pixels. */
  lemma ScrolledExample()
    ensures Layout(Params(10, 100.0, 10.0, 4, 250.0, 500.0)) == [
      Rect(0.0, 10.0), Rect(10.0, 10.0), Rect(20.0, 30.0), Rect(50.0, 100.0), Rect(150.0, 100.0),
      Rect(250.0, 100.0), Rect(350.0, 100.0), Rect(450.0, 30.0), Rect(480.0, 10.0), Rect(490.0, 10.0)]
  {
    ScrolledExampleDefaults();
    ScrolledExampleLeftPass();
    ScrolledExampleRightPass();
  }

  /** The example's inputs. */
  function ExampleParams(): Params
  {
    Params(10, 100.0, 10.0, 4, 250.0, 500.0)
  }

  /** The example's boundary indices and default placement: tab 2 holds the
      view's left edge and tab 7 its right edge, and every tab lies in the
      full-width band. */
  lemma ScrolledExampleDefaults()
    ensures ComputeBounds(ExampleParams()) == Bounds(2, 0, 7, 9)
    ensures DefaultLayout(ExampleParams(), Bounds(2, 0, 7, 9)) == [
      Rect(-250.0, 100.0), Rect(-150.0, 100.0), Rect(-50.0, 100.0), Rect(50.0, 100.0), Rect(150.0, 100.0),
      Rect(250.0, 100.0), Rect(350.0, 100.0), Rect(450.0, 100.0), Rect(550.0, 100.0), Rect(650.0, 100.0)]
  {
    assert (250.0 / 100.0).Floor == 2;
    assert ((1000.0 - 500.0 - 250.0) / 100.0).Floor == 2;
  }

  /** The example's left pass folds tabs 0 and 1 and squeezes tab 2, then
      stops at tab 3. */
  lemma ScrolledExampleLeftPass()
    ensures LeftFold(ExampleParams(), Bounds(2, 0, 7, 9), [
      Rect(-250.0, 100.0), Rect(-150.0, 100.0), Rect(-50.0, 100.0), Rect(50.0, 100.0), Rect(150.0, 100.0),
      Rect(250.0, 100.0), Rect(350.0, 100.0), Rect(450.0, 100.0), Rect(550.0, 100.0), Rect(650.0, 100.0)],
      0, 0.0).rects == [
      Rect(0.0, 10.0), Rect(10.0, 10.0), Rect(20.0, 30.0), Rect(50.0, 100.0), Rect(150.0, 100.0),
      Rect(250.0, 100.0), Rect(350.0, 100.0), Rect(450.0, 100.0), Rect(550.0, 100.0), Rect(650.0, 100.0)]
  {
    var p := ExampleParams();
    var b := Bounds(2, 0, 7, 9);
    var d := [
      Rect(-250.0, 100.0), Rect(-150.0, 100.0), Rect(-50.0, 100.0), Rect(50.0, 100.0), Rect(150.0, 100.0),
      Rect(250.0, 100.0), Rect(350.0, 100.0), Rect(450.0, 100.0), Rect(550.0, 100.0), Rect(650.0, 100.0)];
    var l1 := d[0 := Rect(0.0, 10.0)];
    var l2 := l1[1 := Rect(10.0, 10.0)];
    var l3 := l2[2 := Rect(20.0, 30.0)];
    assert LeftFold(p, b, d, 0, 0.0) == LeftFold(p, b, l1, 1, 10.0);
    assert LeftFold(p, b, l1, 1, 10.0) == LeftFold(p, b, l2, 2, 20.0);
    assert LeftFold(p, b, l2, 2, 20.0) == LeftFold(p, b, l3, 3, 50.0);
    assert LeftFold(p, b, l3, 3, 50.0) == Pass(l3, 3, 50.0);
  }

  /** The example's right pass folds tabs 9 and 8 and squeezes tab 7, then
      stops at tab 6. */
  lemma ScrolledExampleRightPass()
    ensures RightFold(ExampleParams(), Bounds(2, 0, 7, 9), [
      Rect(0.0, 10.0), Rect(10.0, 10.0), Rect(20.0, 30.0), Rect(50.0, 100.0), Rect(150.0, 100.0),
      Rect(250.0, 100.0), Rect(350.0, 100.0), Rect(450.0, 100.0), Rect(550.0, 100.0), Rect(650.0, 100.0)],
      9, 0.0).rects == [
      Rect(0.0, 10.0), Rect(10.0, 10.0), Rect(20.0, 30.0), Rect(50.0, 100.0), Rect(150.0, 100.0),
      Rect(250.0, 100.0), Rect(350.0, 100.0), Rect(450.0, 30.0), Rect(480.0, 10.0), Rect(490.0, 10.0)]
  {
    var p := ExampleParams();
    var b := Bounds(2, 0, 7, 9);
    var l3 := [
      Rect(0.0, 10.0), Rect(10.0, 10.0), Rect(20.0, 30.0), Rect(50.0, 100.0), Rect(150.0, 100.0),
      Rect(250.0, 100.0), Rect(350.0, 100.0), Rect(450.0, 100.0), Rect(550.0, 100.0), Rect(650.0, 100.0)];
    var r1 := l3[9 := Rect(490.0, 10.0)];
    var r2 := r1[8 := Rect(480.0, 10.0)];
    var r3 := r2[7 := Rect(450.0, 30.0)];
    assert RightFold(p, b, l3, 9, 0.0) == RightFold(p, b, r1, 8, 10.0);
    assert RightFold(p, b, r1, 8, 10.0) == RightFold(p, b, r2, 7, 20.0);
    assert RightFold(p, b, r2, 7, 20.0) == RightFold(p, b, r3, 6, 50.0);
    assert RightFold(p, b, r3, 6, 50.0) == Pass(r3, 6, 50.0);
  }

  /** A layout painted before the re-clamp effect has run: ten 100-pixel
      tabs in a 100-pixel container at offset 1200, which was in range for
      thirteen tabs. Tab 9 lies before `beforeEnd`, and the left pass folds
      it to the fold width, but the right pass widens it again to 90 pixels. */
  lemma UnclampedPaintExample()
    ensures ComputeBounds(Params(10, 100.0, 10.0, 4, 1200.0, 100.0)).beforeEnd == 12
    ensures Layout(Params(10, 100.0, 10.0, 4, 1200.0, 100.0))[9] == Rect(10.0, 90.0)
  {
    var p := Params(10, 100.0, 10.0, 4, 1200.0, 100.0);
    assert (1200.0 / 100.0).Floor == 12;
    assert ((1000.0 - 100.0 - 1200.0) / 100.0).Floor == -3;
    var b := ComputeBounds(p);
    assert b == Bounds(12, 8, 12, 9);
    var d := DefaultLayout(p, b);
    assert d[8] == Rect(-400.0, 100.0) && d[9] == Rect(-300.0, 100.0);
    var l1 := d[8 := Rect(0.0, 10.0)];
    var l2 := l1[9 := Rect(10.0, 10.0)];
    assert LeftFold(p, b, d, 8, 0.0) == LeftFold(p, b, l1, 9, 10.0);
    assert LeftFold(p, b, l1, 9, 10.0) == Pass(l2, 10, 20.0);
    var r1 := l2[9 := Rect(10.0, 90.0)];
    assert RightFold(p, b, l2, 9, 0.0) == RightFold(p, b, r1, 8, 90.0);
    RightFoldFrame(p, b, r1, 8, 90.0);
  }

  /** The strip at rest when it overflows: ten 100-pixel tabs in a 500-pixel
      container at offset 0. Tabs 0 to 3 keep their full width, but the
      right pass still folds tabs 5 to 8 into slivers at 460 to 490 and
      squeezes tab 4, which is wholly in view, to 60 pixels; tab 9 stays a
      sliver at the container's right edge. */
  lemma AtRestExample()
    ensures Layout(Params(10, 100.0, 10.0, 4, 0.0, 500.0)) == [
      Rect(0.0, 100.0), Rect(100.0, 100.0), Rect(200.0, 100.0), Rect(300.0, 100.0), Rect(400.0, 60.0),
      Rect(460.0, 10.0), Rect(470.0, 10.0), Rect(480.0, 10.0), Rect(490.0, 10.0), Rect(500.0, 10.0)]
  {
    AtRestExampleDefaults();
    var p := Params(10, 100.0, 10.0, 4, 0.0, 500.0);
    var b := Bounds(0, 0, 4, 8);
    var d := [
      Rect(0.0, 100.0), Rect(100.0, 100.0), Rect(200.0, 100.0), Rect(300.0, 100.0), Rect(400.0, 100.0),
      Rect(500.0, 100.0), Rect(600.0, 100.0), Rect(700.0, 100.0), Rect(800.0, 100.0), Rect(500.0, 10.0)];
    assert LeftFold(p, b, d, 0, 0.0) == Pass(d, 0, 0.0);
    AtRestExampleRightPass();
  }

  /** The at-rest example's boundary indices and default placement: tab 0
      holds the view's left edge and tab 4 its right edge, and only tab 9
      lies beyond the right fold window. */
  lemma AtRestExampleDefaults()
    ensures ComputeBounds(Params(10, 100.0, 10.0, 4, 0.0, 500.0)) == Bounds(0, 0, 4, 8)
    ensures DefaultLayout(Params(10, 100.0, 10.0, 4, 0.0, 500.0), Bounds(0, 0, 4, 8)) == [
      Rect(0.0, 100.0), Rect(100.0, 100.0), Rect(200.0, 100.0), Rect(300.0, 100.0), Rect(400.0, 100.0),
      Rect(500.0, 100.0), Rect(600.0, 100.0), Rect(700.0, 100.0), Rect(800.0, 100.0), Rect(500.0, 10.0)]
  {
    assert (0.0 / 100.0).Floor == 0;
    assert ((1000.0 - 500.0 - 0.0) / 100.0).Floor == 5;
  }

  /** The at-rest example's right pass folds tabs 8 to 5 to the fold width,
      squeezes tab 4 to 60 pixels, then stops at tab 3. */
  lemma AtRestExampleRightPass()
    ensures RightFold(Params(10, 100.0, 10.0, 4, 0.0, 500.0), Bounds(0, 0, 4, 8), [
      Rect(0.0, 100.0), Rect(100.0, 100.0), Rect(200.0, 100.0), Rect(300.0, 100.0), Rect(400.0, 100.0),
      Rect(500.0, 100.0), Rect(600.0, 100.0), Rect(700.0, 100.0), Rect(800.0, 100.0), Rect(500.0, 10.0)],
      8, 0.0).rects == [
      Rect(0.0, 100.0), Rect(100.0, 100.0), Rect(200.0, 100.0), Rect(300.0, 100.0), Rect(400.0, 60.0),
      Rect(460.0, 10.0), Rect(470.0, 10.0), Rect(480.0, 10.0), Rect(490.0, 10.0), Rect(500.0, 10.0)]
  {
    var p := Params(10, 100.0, 10.0, 4, 0.0, 500.0);
    var b := Bounds(0, 0, 4, 8);
    var d := [
      Rect(0.0, 100.0), Rect(100.0, 100.0), Rect(200.0, 100.0), Rect(300.0, 100.0), Rect(400.0, 100.0),
      Rect(500.0, 100.0), Rect(600.0, 100.0), Rect(700.0, 100.0), Rect(800.0, 100.0), Rect(500.0, 10.0)];
    var r1 := d[8 := Rect(490.0, 10.0)];
    var r2 := r1[7 := Rect(480.0, 10.0)];
    var r3 := r2[6 := Rect(470.0, 10.0)];
    var r4 := r3[5 := Rect(460.0, 10.0)];
    var r5 := r4[4 := Rect(400.0, 60.0)];
    assert RightFold(p, b, d, 8, 0.0) == RightFold(p, b, r1, 7, 10.0);
    assert RightFold(p, b, r1, 7, 10.0) == RightFold(p, b, r2, 6, 20.0);
    assert RightFold(p, b, r2, 6, 20.0) == RightFold(p, b, r3, 5, 30.0);
    assert RightFold(p, b, r3, 5, 30.0) == RightFold(p, b, r4, 4, 40.0);
    assert RightFold(p, b, r4, 4, 40.0) == RightFold(p, b, r5, 3, 100.0);
    assert RightFold(p, b, r5, 3, 100.0) == Pass(r5, 3, 100.0);
  }
}
