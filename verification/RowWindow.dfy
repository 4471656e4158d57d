/**
 Row virtualisation of apps/admin/src/components/DataTable.jsx: the rendered window, the
 spacers, and what focusing a row scrolls to.

 Lengths are exact reals. Scroll positions count from the top of the scrolled content; the
 header is `sticky`, so at scroll position s the rows show through between the header's lower
 edge and the end of the container.
 */
module RowWindow {
  import opened Prelude

  /** The fixed part of the layout; a row is at least as tall as the compact density (25 pixels). */
  datatype Layout = Layout(totalRows: nat, rowHeight: real, headerHeight: real, containerHeight: real, overscan: nat)

  datatype ScrollAnchor = ScrollAnchor(offset: real, atEnd: bool)

  /** The rendered rows are `start` to `end`, inclusive. */
  datatype Window = Window(start: int, end: int, topPadding: real, bottomPadding: real)

  ghost predicate Valid(l: Layout) {
    l.totalRows >= 1 && l.rowHeight >= 25.0 && l.headerHeight >= 0.0 && l.containerHeight > 0.0
  }

  function Min(a: int, b: int): int {
    if a <= b then a else b
  }

  function Max(a: int, b: int): int {
    if a >= b then a else b
  }

  function Ceil(x: real): int {
    -(-x).Floor
  }

  /** The height of `n` rows of height `h`. */
  function Height(n: real, h: real): real {
    n * h
  }

  /** A length in rows of height `h`. */
  function InRows(x: real, h: real): real
    requires h > 0.0
  {
    x / h
  }

  function MaxScrollTop(l: Layout): real {
    var overflow := l.headerHeight + Height(l.totalRows as real, l.rowHeight) - l.containerHeight;
    if overflow > 0.0 then overflow else 0.0
  }

  function ScrollTop(l: Layout, a: ScrollAnchor): real {
    if a.atEnd then MaxScrollTop(l)
    else if Height(a.offset, l.rowHeight) <= MaxScrollTop(l) then Height(a.offset, l.rowHeight) else MaxScrollTop(l)
  }

  /** The first and last rendered row, for `s` rows scrolled away in a container `c` rows tall. */
  function Bounds(l: Layout, s: real, c: real): (int, int) {
    var calculatedStart := Min(l.totalRows - 1, Max(0, s.Floor - l.overscan));
    var visibleCount := Ceil(c);
    var calculatedEnd := Min(l.totalRows - 1, calculatedStart + visibleCount + l.overscan * 2);
    (Max(0, calculatedStart), Min(l.totalRows - 1, calculatedEnd))
  }

  function RowWindow(l: Layout, scrollTop: real): Window
    requires Valid(l)
  {
    var (start, end) := Bounds(l, InRows(scrollTop, l.rowHeight), InRows(l.containerHeight, l.rowHeight));
    var below := Height((l.totalRows - 1 - end) as real, l.rowHeight);
    Window(start, end, Height(start as real, l.rowHeight), if below > 0.0 then below else 0.0)
  }

  predicate Rendered(w: Window, i: int) {
    w.start <= i <= w.end
  }

  // ----- Row heights

  /** More rows are taller, and conversely. */
  lemma Taller(a: real, b: real, h: real)
    requires h > 0.0
    ensures a < b <==> Height(a, h) < Height(b, h)
    ensures a <= b <==> Height(a, h) <= Height(b, h)
  {
    assert (b - a) * h == b * h - a * h;
    if a < b {
      Positive(b - a, h);
    } else if b < a {
      Positive(a - b, h);
      assert (a - b) * h == a * h - b * h;
    }
  }

  lemma Positive(d: real, h: real)
    requires d > 0.0 && h > 0.0
    ensures d * h > 0.0
  {
  }

  lemma HeightsAdd(a: real, b: real, h: real)
    ensures Height(a + b, h) == Height(a, h) + Height(b, h)
    ensures Height(1.0, h) == h && Height(0.0, h) == 0.0
  {
  }

  /** `n` rows end before `x` exactly when `n` is less than `x` in rows. */
  lemma Compare(n: real, x: real, h: real)
    requires h > 0.0
    ensures Height(n, h) < x <==> n < InRows(x, h)
    ensures Height(n, h) <= x <==> n <= InRows(x, h)
    ensures Height(InRows(x, h), h) == x
  {
    assert x / h * h == x;
    Taller(n, x / h, h);
  }

  lemma LengthsAdd(x: real, y: real, h: real)
    requires h > 0.0
    ensures InRows(x + y, h) == InRows(x, h) + InRows(y, h)
    ensures x >= 0.0 ==> InRows(x, h) >= 0.0
    ensures y > 0.0 ==> InRows(y, h) > 0.0
  {
  }

  // ----- What is rendered

  /** Row `i` shows through between the sticky header and the end of the container. */
  predicate MeetsViewport(l: Layout, scrollTop: real, i: int) {
    && Height((i + 1) as real, l.rowHeight) > scrollTop
    && l.headerHeight + Height(i as real, l.rowHeight) < scrollTop + l.containerHeight
  }

  lemma BoundsInRange(l: Layout, s: real, c: real)
    requires Valid(l) && s >= 0.0 && c > 0.0
    ensures var (start, end) := Bounds(l, s, c); 0 <= start <= end <= l.totalRows - 1
  {
    assert Ceil(c) as real >= c;
  }

  /** A row not below the container is rendered exactly when it is the last one or less than `overscan` rows away. */
  lemma BoundsExactly(l: Layout, s: real, c: real, i: int)
    requires Valid(l) && s >= 0.0 && c > 0.0 && 0 <= i < l.totalRows && i as real < s + c
    ensures var (start, end) := Bounds(l, s, c);
            start <= i <= end <==> i == l.totalRows - 1 || s < (i + 1 + l.overscan) as real
  {
    var first := s.Floor;
    assert first as real <= s < first as real + 1.0;
    assert Ceil(c) as real >= c;
    assert i <= first + Ceil(c);
  }

  /** Exactly which of the rows not below the container are rendered: the window reaches back `overscan` rows. */
  lemma RenderedExactly(l: Layout, scrollTop: real, i: int)
    requires Valid(l) && scrollTop >= 0.0 && 0 <= i < l.totalRows
    requires Height(i as real, l.rowHeight) < scrollTop + l.containerHeight
    ensures Rendered(RowWindow(l, scrollTop), i)
            <==> i == l.totalRows - 1 || scrollTop < Height((i + 1 + l.overscan) as real, l.rowHeight)
  {
    hide Height, InRows, Bounds;
    var h := l.rowHeight;
    Compare(i as real, scrollTop + l.containerHeight, h);
    Compare((i + 1 + l.overscan) as real, scrollTop, h);
    LengthsAdd(scrollTop, l.containerHeight, h);
    BoundsExactly(l, InRows(scrollTop, h), InRows(l.containerHeight, h), i);
  }

  /** Below the container, the next `overscan` rows are rendered, and none that is more than twice that and one row away. */
  lemma RenderedBelow(l: Layout, scrollTop: real, i: int)
    requires Valid(l) && scrollTop >= 0.0 && 0 <= i < l.totalRows
    ensures scrollTop + l.containerHeight <= Height(i as real, l.rowHeight) <= scrollTop + l.containerHeight + Height(l.overscan as real - 1.0, l.rowHeight)
            ==> Rendered(RowWindow(l, scrollTop), i)
    ensures Rendered(RowWindow(l, scrollTop), i)
            ==> Height(i as real, l.rowHeight) < scrollTop + l.containerHeight + Height((2 * l.overscan + 1) as real, l.rowHeight)
  {
    hide Height, InRows;
    var (h, s, c, o) := (l.rowHeight, InRows(scrollTop, l.rowHeight), InRows(l.containerHeight, l.rowHeight), l.overscan as real);
    LengthsAdd(scrollTop, l.containerHeight, h);
    Compare(i as real, scrollTop + l.containerHeight, h);
    Compare(i as real - (o - 1.0), scrollTop + l.containerHeight, h);
    HeightsAdd(i as real - (o - 1.0), o - 1.0, h);
    Compare(i as real - (2.0 * o + 1.0), scrollTop + l.containerHeight, h);
    HeightsAdd(i as real - (2.0 * o + 1.0), 2.0 * o + 1.0, h);
    assert (2 * l.overscan + 1) as real == 2.0 * o + 1.0;
    BoundsBelow(l, s, c, i);
  }

  lemma BoundsBelow(l: Layout, s: real, c: real, i: int)
    requires Valid(l) && s >= 0.0 && c > 0.0 && 0 <= i < l.totalRows
    ensures var (start, end) := Bounds(l, s, c);
            && (s + c <= i as real <= s + c + l.overscan as real - 1.0 ==> start <= i <= end)
            && (start <= i <= end ==> (i as real) < s + c + 2.0 * l.overscan as real + 1.0)
  {
    var first := s.Floor;
    assert first as real <= s < first as real + 1.0;
    assert Ceil(c) as real - 1.0 < c <= Ceil(c) as real;
  }

  /** For all positions, heights and overscans, every row that meets the viewport is rendered. */
  lemma VisibleRowsAreRendered(l: Layout, scrollTop: real, i: int)
    requires Valid(l) && scrollTop >= 0.0 && 0 <= i < l.totalRows && MeetsViewport(l, scrollTop, i)
    ensures Rendered(RowWindow(l, scrollTop), i)
  {
    hide Height, InRows, Bounds, RowWindow, Rendered;
    RenderedExactly(l, scrollTop, i);
    Taller((i + 1) as real, (i + 1 + l.overscan) as real, l.rowHeight);
  }

  /** The spacers and the rendered rows are together as tall as all rows. */
  lemma HeightIsConserved(l: Layout, scrollTop: real)
    requires Valid(l) && scrollTop >= 0.0
    ensures var w := RowWindow(l, scrollTop);
            && w.topPadding >= 0.0 && w.bottomPadding >= 0.0
            && w.topPadding == Height(w.start as real, l.rowHeight)
            && w.topPadding + Height((w.end - w.start + 1) as real, l.rowHeight) + w.bottomPadding == Height(l.totalRows as real, l.rowHeight)
  {
    hide Height, InRows, Bounds;
    var w := RowWindow(l, scrollTop);
    var h := l.rowHeight;
    LengthsAdd(scrollTop, l.containerHeight, h);
    BoundsInRange(l, InRows(scrollTop, h), InRows(l.containerHeight, h));
    var above, shown, below := w.start as real, (w.end - w.start + 1) as real, (l.totalRows - 1 - w.end) as real;
    HeightsAdd(above, shown, h);
    HeightsAdd(above + shown, below, h);
    assert above + shown + below == l.totalRows as real;
    Taller(0.0, above, h);
    Taller(0.0, below, h);
  }

  /** The rows can be scrolled until the last one ends with the container, and not at all if they fit. */
  lemma ScrollEnd(l: Layout)
    requires Valid(l)
    ensures var content := l.headerHeight + Height(l.totalRows as real, l.rowHeight);
            if content <= l.containerHeight then MaxScrollTop(l) == 0.0 else content - MaxScrollTop(l) == l.containerHeight
  {
  }

  // ----- Scrolling a row into view

  /** The position `scrollRowIntoView` asks for: up to the row's top, down to its bottom, or none. */
  datatype Scroll = Stay | Up(to: real) | Down(to: real)

  function ScrollFor(l: Layout, scrollTop: real, i: int): Scroll {
    var targetTop := Height(i as real, l.rowHeight);
    var targetBottom := l.headerHeight + targetTop + l.rowHeight;
    if targetTop < scrollTop then Up(targetTop)
    else if targetBottom > scrollTop + l.containerHeight then Down(targetBottom - l.containerHeight)
    else Stay
  }

  function AnchorFor(l: Layout, to: real): ScrollAnchor
    requires l.rowHeight > 0.0
  {
    ScrollAnchor(InRows(to, l.rowHeight), MaxScrollTop(l) > 0.0 && to >= MaxScrollTop(l) - 1.0)
  }

  function FocusIndex(l: Layout, index: int): int {
    Max(0, Min(l.totalRows - 1, index))
  }

  function FocusAnchor(l: Layout, anchor: ScrollAnchor, index: int): ScrollAnchor
    requires l.rowHeight > 0.0
  {
    match ScrollFor(l, ScrollTop(l, anchor), FocusIndex(l, index))
    case Stay => anchor
    case Up(to) => AnchorFor(l, to)
    case Down(to) => AnchorFor(l, to)
  }

  lemma PositionInRange(l: Layout, anchor: ScrollAnchor)
    requires Valid(l) && anchor.offset >= 0.0
    ensures 0.0 <= ScrollTop(l, anchor) <= MaxScrollTop(l)
  {
    hide Height;
    HeightsAdd(0.0, 0.0, l.rowHeight);
    Taller(0.0, anchor.offset, l.rowHeight);
  }

  /** Asking for a position the container can scroll to gives it, up to one pixel at the very end. */
  lemma AnchorPosition(l: Layout, to: real)
    requires Valid(l) && 0.0 <= to <= MaxScrollTop(l)
    ensures AnchorFor(l, to).offset >= 0.0
    ensures ScrollTop(l, AnchorFor(l, to)) == if MaxScrollTop(l) > 0.0 && to >= MaxScrollTop(l) - 1.0 then MaxScrollTop(l) else to
  {
    hide Height, InRows, MaxScrollTop;
    Compare(0.0, to, l.rowHeight);
    LengthsAdd(to, to, l.rowHeight);
  }

  /** Scrolling down stops exactly at the row's lower edge. */
  lemma DownPosition(l: Layout, to: real, i: int)
    requires Valid(l) && 0 <= i < l.totalRows && to > 0.0
    requires to == l.headerHeight + Height(i as real, l.rowHeight) + l.rowHeight - l.containerHeight
    ensures to <= MaxScrollTop(l) && ScrollTop(l, AnchorFor(l, to)) == to
  {
    hide Height, InRows, AnchorFor, ScrollTop;
    var h := l.rowHeight;
    var below := (l.totalRows - 1 - i) as real;
    HeightsAdd(i as real, 1.0, h);
    HeightsAdd(i as real + 1.0, below, h);
    assert i as real + 1.0 + below == l.totalRows as real;
    Taller(0.0, below, h);
    Taller(1.0, below, h);
    AnchorPosition(l, to);
  }

  /** A row is left where it is exactly when it shows in full, and the index is clamped to the nearest row. */
  lemma ScrollIsNeeded(l: Layout, scrollTop: real, index: int)
    requires Valid(l)
    ensures var i := FocusIndex(l, index);
            && (if index < 0 then i == 0 else if index >= l.totalRows then i == l.totalRows - 1 else i == index)
            && (ScrollFor(l, scrollTop, i).Stay? <==>
                  && scrollTop <= Height(i as real, l.rowHeight)
                  && l.headerHeight + Height(i as real, l.rowHeight) + l.rowHeight <= scrollTop + l.containerHeight)
  {
    hide Height;
  }

  predicate ScrollsDown(l: Layout, anchor: ScrollAnchor, index: int) {
    ScrollFor(l, ScrollTop(l, anchor), FocusIndex(l, index)).Down?
  }

  /** Where focusing leaves the grid, case by case. */
  lemma FocusPosition(l: Layout, anchor: ScrollAnchor, index: int)
    requires Valid(l) && anchor.offset >= 0.0
    ensures var i := FocusIndex(l, index);
            var top := Height(i as real, l.rowHeight);
            var after := ScrollTop(l, FocusAnchor(l, anchor, index));
            && 0 <= i < l.totalRows && after >= 0.0 && FocusAnchor(l, anchor, index).offset >= 0.0
            && (ScrollsDown(l, anchor, index) ==> after == l.headerHeight + top + l.rowHeight - l.containerHeight)
            && (!ScrollsDown(l, anchor, index) ==> after <= top + 1.0 && top < after + l.containerHeight)
  {
    hide Height, InRows, MaxScrollTop, AnchorFor, ScrollTop;
    var i := FocusIndex(l, index);
    var s := ScrollTop(l, anchor);
    HeightsAdd(0.0, 0.0, l.rowHeight);
    Taller(0.0, i as real, l.rowHeight);
    PositionInRange(l, anchor);
    match ScrollFor(l, s, i) {
      case Stay =>
      case Up(to) => AnchorPosition(l, to);
      case Down(to) =>
        DownPosition(l, to, i);
        AnchorPosition(l, to);
    }
  }

  /**
   Whether the focused row ends up in the rendered window, exactly: always, except when
   focusing scrolls down in a container that the header overfills by `overscan` rows or more
   (and the row is not the last one).
   */
  lemma FocusRendersExactly(l: Layout, anchor: ScrollAnchor, index: int)
    requires Valid(l) && anchor.offset >= 0.0
    ensures var i := FocusIndex(l, index);
            Rendered(RowWindow(l, ScrollTop(l, FocusAnchor(l, anchor, index))), i)
            <==> !ScrollsDown(l, anchor, index) || i == l.totalRows - 1
                 || l.headerHeight - l.containerHeight < Height(l.overscan as real, l.rowHeight)
  {
    hide Height, InRows, MaxScrollTop, ScrollTop, FocusAnchor, FocusIndex, ScrollsDown, RowWindow, Rendered;
    var h := l.rowHeight;
    var i := FocusIndex(l, index);
    FocusPosition(l, anchor, index);
    HeightsAdd(i as real, 1.0, h);
    HeightsAdd(i as real + 1.0, l.overscan as real, h);
    assert (i + 1 + l.overscan) as real == i as real + 1.0 + l.overscan as real;
    HeightsAdd(0.0, 0.0, h);
    Taller(0.0, l.overscan as real, h);
    RenderedExactly(l, ScrollTop(l, FocusAnchor(l, anchor, index)), i);
  }

  /** If one row fits under the header, focusing any row renders it. */
  lemma FocusRendersRow(l: Layout, anchor: ScrollAnchor, index: int)
    requires Valid(l) && anchor.offset >= 0.0 && l.headerHeight + l.rowHeight <= l.containerHeight
    ensures Rendered(RowWindow(l, ScrollTop(l, FocusAnchor(l, anchor, index))), FocusIndex(l, index))
  {
    hide Height, RowWindow, ScrollTop, FocusAnchor, ScrollsDown;
    HeightsAdd(0.0, 0.0, l.rowHeight);
    Taller(0.0, l.overscan as real, l.rowHeight);
    FocusRendersExactly(l, anchor, index);
  }

  /** A header taller than the container and no overscan: focusing a row can leave it unrendered. */
  lemma TallHeaderHidesRow()
    ensures var l := Layout(100, 25.0, 60.0, 30.0, 0);
            Valid(l) && !Rendered(RowWindow(l, ScrollTop(l, FocusAnchor(l, ScrollAnchor(0.0, false), 10))), 10)
  {
    hide RowWindow, Rendered, FocusAnchor;
    FocusRendersExactly(Layout(100, 25.0, 60.0, 30.0, 0), ScrollAnchor(0.0, false), 10);
  }

  // ----- The handlers as they run

  /**
   `committed` is the anchor of the last commit: the handlers read the position it gives, and its
   window tells which rows have an element. `pendingFocus` is the row still to be focused and
   `domFocus` the one whose element was focused last.
   */
  class DataGrid {
    const layout: Layout
    var scrollAnchor: ScrollAnchor
    var committed: ScrollAnchor
    var focusedIndex: int
    var pendingFocus: Option<int>
    var domFocus: Option<int>

    ghost predicate Ok()
      reads this
    {
      Valid(layout) && scrollAnchor.offset >= 0.0 && committed.offset >= 0.0
    }

    /** The row has an element in the grid as it was last committed. */
    predicate HasElement(i: int)
      requires Ok()
      reads this
    {
      Rendered(RowWindow(layout, ScrollTop(layout, committed)), i)
    }

    constructor (layout: Layout)
      requires Valid(layout)
      ensures Ok() && this.layout == layout && scrollAnchor == committed == ScrollAnchor(0.0, false)
      ensures pendingFocus == domFocus == None
    {
      this.layout, scrollAnchor, committed := layout, ScrollAnchor(0.0, false), ScrollAnchor(0.0, false);
      focusedIndex, pendingFocus, domFocus := 0, None, None;
    }

    /** The browser scrolled to `top`; the grid's own position follows it to within a pixel. */
    method HandleScroll(top: real)
      requires Ok() && 0.0 <= top <= MaxScrollTop(layout)
      modifies this`scrollAnchor
      ensures Ok() && top <= ScrollTop(layout, scrollAnchor) <= top + 1.0
    {
      AnchorPosition(layout, top);
      scrollAnchor := ScrollAnchor(InRows(top, layout.rowHeight), MaxScrollTop(layout) > 0.0 && top >= MaxScrollTop(layout) - 1.0);
    }

    method ScrollRowIntoView(targetIndex: int)
      requires Ok()
      modifies this`scrollAnchor
      ensures Ok()
      ensures scrollAnchor == if 0 <= targetIndex < layout.totalRows && !ScrollFor(layout, ScrollTop(layout, committed), targetIndex).Stay?
                              then FocusAnchor(layout, committed, targetIndex) else old(scrollAnchor)
    {
      hide Height, InRows, MaxScrollTop, ScrollTop;
      if targetIndex < 0 || targetIndex >= layout.totalRows {
        return;
      }
      FocusPosition(layout, committed, targetIndex);
      var targetTop := Height(targetIndex as real, layout.rowHeight);
      var targetBottom := layout.headerHeight + targetTop + layout.rowHeight;
      var currentScrollTop := ScrollTop(layout, committed);
      var newScrollTop := currentScrollTop;
      if targetTop < currentScrollTop {
        newScrollTop := targetTop;
      } else if targetBottom > currentScrollTop + layout.containerHeight {
        newScrollTop := targetBottom - layout.containerHeight;
      } else {
        return;
      }
      scrollAnchor := ScrollAnchor(InRows(newScrollTop, layout.rowHeight), MaxScrollTop(layout) > 0.0 && newScrollTop >= MaxScrollTop(layout) - 1.0);
    }

    /** Focuses the row at once if it has an element, and leaves it pending otherwise. */
    method FocusRow(index: int)
      requires Ok()
      modifies this
      ensures Ok() && committed == old(committed) && focusedIndex == FocusIndex(layout, index)
      ensures old(scrollAnchor) == committed ==> scrollAnchor == FocusAnchor(layout, committed, index)
      ensures if HasElement(focusedIndex) then domFocus == Some(focusedIndex) && pendingFocus == None
              else domFocus == old(domFocus) && pendingFocus == Some(focusedIndex)
    {
      hide Height, InRows, RowWindow, Rendered, ScrollTop, MaxScrollTop;
      var targetIndex := Max(0, Min(layout.totalRows - 1, index));
      pendingFocus := Some(targetIndex);
      focusedIndex := targetIndex;
      ScrollRowIntoView(targetIndex);
      if HasElement(targetIndex) {
        domFocus := Some(targetIndex);
        pendingFocus := None;
      }
    }

    /** React commits the new position, and the effect focuses a pending row that now has an element. */
    method Commit()
      requires Ok()
      modifies this
      ensures Ok() && scrollAnchor == old(scrollAnchor) == committed && focusedIndex == old(focusedIndex)
      ensures if old(pendingFocus).Some? && HasElement(old(pendingFocus).value) then domFocus == old(pendingFocus) && pendingFocus == None
              else domFocus == old(domFocus) && pendingFocus == old(pendingFocus)
    {
      committed := scrollAnchor;
      if pendingFocus.Some? && HasElement(pendingFocus.value) {
        domFocus, pendingFocus := pendingFocus, None;
      }
    }

    /**
     A key press and the commit that follows it. Nothing is left pending exactly when the row had
     an element before or is rendered afterwards; it always is if one row fits under the header.
     */
    method HandleKeyDown(index: int)
      requires Ok() && scrollAnchor == committed
      modifies this
      ensures Ok() && focusedIndex == FocusIndex(layout, index) && scrollAnchor == committed == FocusAnchor(layout, old(committed), index)
      ensures pendingFocus.None? <==>
                old(HasElement(FocusIndex(layout, index)))
                || !ScrollsDown(layout, old(committed), index) || focusedIndex == layout.totalRows - 1
                || layout.headerHeight - layout.containerHeight < Height(layout.overscan as real, layout.rowHeight)
      ensures pendingFocus.None? ==> domFocus == Some(focusedIndex)
      ensures layout.headerHeight + layout.rowHeight <= layout.containerHeight ==> pendingFocus.None?
    {
      hide Height, InRows, RowWindow, Rendered, ScrollTop, MaxScrollTop, FocusAnchor, ScrollsDown;
      FocusRendersExactly(layout, committed, index);
      if layout.headerHeight + layout.rowHeight <= layout.containerHeight {
        FocusRendersRow(layout, committed, index);
      }
      FocusRow(index);
      Commit();
    }
  }
}
