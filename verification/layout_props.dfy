/** What the layout strategies promise, proved about their definitions. */
module LayoutProps {
  import opened Wrappers
  import opened Geometry
  import TextCache
  import Pen
  import opened Layouts

  // ---------------------------------------------------------------------
  // Stack and the older root

  function SumHeights(cs: seq<Element>): Pixels {
    if |cs| == 0 then 0.0 else cs[0].rect.height + SumHeights(cs[1..])
  }

  lemma {:induction false} SumHeightsAppend(a: seq<Element>, b: seq<Element>)
    ensures SumHeights(a + b) == SumHeights(a) + SumHeights(b)
    decreases |a|
  {
    if |a| > 0 {
      assert (a + b)[1..] == a[1..] + b;
      SumHeightsAppend(a[1..], b);
    } else {
      assert a + b == b;
    }
  }

  /** `n` gaps of size `gap`, added one at a time as the flow does. */
  function Gaps(n: nat, gap: Pixels): Pixels {
    if n == 0 then 0.0 else Gaps(n - 1, gap) + gap
  }

  lemma {:induction false} GapsScale(n: nat, gap: Pixels)
    ensures Gaps(n, gap) == n as real * gap
  {
    if n > 0 {
      GapsScale(n - 1, gap);
    }
  }

  /** Element-wise reading of `Stacked`: child `i` sits below all earlier
      children and `i` gaps, and `end` is below all of them and one gap per
      child. */
  predicate StackedAt(kids: seq<Element>, y: Pixels, gap: Pixels, end: Pixels) {
    && (forall i :: 0 <= i < |kids| ==> kids[i].rect.y == y + SumHeights(kids[..i]) + Gaps(i, gap))
    && end == y + SumHeights(kids) + Gaps(|kids|, gap)
  }

  lemma SumHeightsCons(kids: seq<Element>, i: nat)
    requires 0 < i <= |kids|
    ensures SumHeights(kids[..i]) == kids[0].rect.height + SumHeights(kids[1..][..i - 1])
  {
    assert kids[..i][0] == kids[0];
    assert kids[..i][1..] == kids[1..][..i - 1];
  }

  lemma {:induction false} StackedGivesAt(kids: seq<Element>, y: Pixels, gap: Pixels, end: Pixels)
    requires Stacked(kids, y, gap, end)
    ensures StackedAt(kids, y, gap, end)
    decreases |kids|
  {
    if |kids| > 0 {
      var y' := y + kids[0].rect.height + gap;
      StackedGivesAt(kids[1..], y', gap, end);
      forall i | 0 <= i < |kids|
        ensures kids[i].rect.y == y + SumHeights(kids[..i]) + Gaps(i, gap)
      {
        if i == 0 {
          assert kids[..0] == [];
        } else {
          SumHeightsCons(kids, i);
          assert kids[1..][i - 1] == kids[i];
        }
      }
    }
  }

  lemma {:induction false} AtGivesStacked(kids: seq<Element>, y: Pixels, gap: Pixels, end: Pixels)
    requires StackedAt(kids, y, gap, end)
    ensures Stacked(kids, y, gap, end)
    decreases |kids|
  {
    if |kids| > 0 {
      assert kids[..0] == [];
      assert kids[0].rect.y == y + SumHeights(kids[..0]) + Gaps(0, gap);
      StackedAtTail(kids, y, gap, end);
      AtGivesStacked(kids[1..], y + kids[0].rect.height + gap, gap, end);
    }
  }

  /** The element-wise reading carries over from a stack to its tail. */
  lemma StackedAtTail(kids: seq<Element>, y: Pixels, gap: Pixels, end: Pixels)
    requires StackedAt(kids, y, gap, end) && |kids| > 0
    ensures StackedAt(kids[1..], y + kids[0].rect.height + gap, gap, end)
  {
    var y' := y + kids[0].rect.height + gap;
    forall i | 0 <= i < |kids[1..]|
      ensures kids[1..][i].rect.y == y' + SumHeights(kids[1..][..i]) + Gaps(i, gap)
    {
      assert kids[1..][i] == kids[i + 1];
      assert Gaps(i + 1, gap) == Gaps(i, gap) + gap;
      SumHeightsCons(kids, i + 1);
    }
    assert Gaps(|kids|, gap) == Gaps(|kids[1..]|, gap) + gap;
    assert end == y' + SumHeights(kids[1..]) + Gaps(|kids[1..]|, gap);
  }

  /** The recursive and the element-wise reading of a vertical stack agree. */
  lemma StackedIff(kids: seq<Element>, y: Pixels, gap: Pixels, end: Pixels)
    ensures Stacked(kids, y, gap, end) <==> StackedAt(kids, y, gap, end)
  {
    if Stacked(kids, y, gap, end) {
      StackedGivesAt(kids, y, gap, end);
    }
    if StackedAt(kids, y, gap, end) {
      AtGivesStacked(kids, y, gap, end);
    }
  }

  /** Consecutive children of a stack touch, separated by exactly `gap`. */
  lemma {:induction false} StackedAdjacent(kids: seq<Element>, y: Pixels, gap: Pixels, end: Pixels, i: nat)
    requires Stacked(kids, y, gap, end)
    requires i + 1 < |kids|
    ensures kids[i + 1].rect.y == kids[i].rect.y + kids[i].rect.height + gap
    decreases i
  {
    if i > 0 {
      StackedAdjacent(kids[1..], y + kids[0].rect.height + gap, gap, end, i - 1);
      assert kids[1..][i - 1] == kids[i] && kids[1..][i] == kids[i + 1];
    }
  }

  /** Element-wise reading of `Aligned`. */
  lemma {:induction false} AlignedAt(kids: seq<Element>, cs: seq<Element>, x: Pixels, width: Option<Pixels>, i: nat)
    requires |kids| == |cs| && i < |kids|
    requires Aligned(kids, cs, x, width)
    ensures kids[i].kind == cs[i].kind && kids[i].rect.x == x
    ensures width.Some? && !IsUnset(width.value) && KeepsWidth(cs[i].kind) ==> kids[i].rect.width == width.value
    decreases i
  {
    if i > 0 {
      AlignedAt(kids[1..], cs[1..], x, width, i - 1);
      assert kids[1..][i - 1] == kids[i] && cs[1..][i - 1] == cs[i];
    }
  }

  /** Every child of a vertical flow keeps its kind, sits at the flow's x,
      has the flow's width when there is one and its kind keeps it, and sits
      below all earlier children and one gap after each; the flow ends one
      gap below the last child. */
  lemma FlowPlaces(cs: seq<Element>, x: Pixels, y: Pixels, width: Option<Pixels>, gap: Pixels,
                   parent: Rect, cache: TextCache.Table, frame: int)
    ensures var r := VerticalFlow(cs, x, y, width, gap, parent, cache, frame);
            r.Success? ==>
              && r.value.end == y + SumHeights(r.value.children) + Gaps(|cs|, gap)
              && forall i :: 0 <= i < |cs| ==>
                   && r.value.children[i].kind == cs[i].kind
                   && r.value.children[i].rect.x == x
                   && r.value.children[i].rect.y == y + SumHeights(r.value.children[..i]) + Gaps(i, gap)
                   && (width.Some? && !IsUnset(width.value) && KeepsWidth(cs[i].kind)
                       ==> r.value.children[i].rect.width == width.value)
  {
    var r := VerticalFlow(cs, x, y, width, gap, parent, cache, frame);
    if r.Success? {
      var kids := r.value.children;
      StackedIff(kids, y, gap, r.value.end);
      assert |kids| == |cs|;
      assert Stacked(kids, y, gap, r.value.end);
      assert StackedAt(kids, y, gap, r.value.end);
      assert r.value.end == y + SumHeights(kids) + Gaps(|kids|, gap);
      forall i | 0 <= i < |cs|
        ensures r.value.children[i].kind == cs[i].kind && r.value.children[i].rect.x == x
        ensures width.Some? && !IsUnset(width.value) && KeepsWidth(cs[i].kind) ==> r.value.children[i].rect.width == width.value
      {
        AlignedAt(r.value.children, cs, x, width, i);
      }
    }
  }

  /** `hui_stack_layout`: the width is the stack's own or else its
      parent's; every child gets the stack's x and width and sits below the
      earlier children and gaps; an unset height becomes the children's
      total height plus a gap between each two. */
  lemma StackPlacesChildren(e: Element, parent: Rect, cache: TextCache.Table, frame: int)
    requires e.kind.Stack?
    ensures var r := StackLayout(e, parent, cache, frame);
            r.Success? ==>
              var kids := r.value.el.children;
              && r.value.el.rect.width == StackWidth(e, parent)
              && |kids| == |e.children|
              && (forall i :: 0 <= i < |kids| ==>
                    && kids[i].kind == e.children[i].kind
                    && kids[i].rect.x == e.rect.x
                    && kids[i].rect.y == e.rect.y + SumHeights(kids[..i]) + Gaps(i, e.kind.gap)
                    && (KeepsWidth(kids[i].kind) ==> kids[i].rect.width == StackWidth(e, parent)))
              && (IsUnset(e.rect.height) ==>
                    r.value.el.rect.height == SumHeights(kids) + Gaps(|kids|, e.kind.gap) - e.kind.gap)
              && (!IsUnset(e.rect.height) ==> r.value.el.rect.height == e.rect.height)
  {
    var width := StackWidth(e, parent);
    if !IsUnset(width) {
      FlowPlaces(e.children, e.rect.x, e.rect.y, Some(width), e.kind.gap, e.rect.(width := width), cache, frame);
    }
  }

  /** `hui_root_compute_layout`: the older root stacks its children at its
      own x, each directly below the previous one, and its height is their
      total height. */
  lemma LegacyRootStacksChildren(e: Element, cache: TextCache.Table, frame: int)
    requires e.kind.LegacyRoot?
    ensures var r := LegacyRootLayout(e, cache, frame);
            r.Success? ==>
              var kids := r.value.el.children;
              && r.value.el.rect.height == SumHeights(kids)
              && forall i :: 0 <= i < |kids| ==>
                   && kids[i].rect.x == e.rect.x
                   && kids[i].rect.y == e.rect.y + SumHeights(kids[..i])
  {
    FlowPlaces(e.children, e.rect.x, e.rect.y, None, 0.0, e.rect, cache, frame);
    forall n: nat | n <= |e.children|
      ensures Gaps(n, 0.0) == 0.0
    {
      GapsScale(n, 0.0);
    }
  }

  // ---------------------------------------------------------------------
  // Box

  /** The box strategy insets its only child by `left` and `top`; an
      unconstrained size is the child's plus the total insets; the flags ask
      the parent for another pass exactly when the box has no position yet.
      With a known position the child's right and bottom edges are inset by
      the remaining margin, whenever the child kept the size it was given. */
  lemma InsetPlacesChild(e: Element, left: Pixels, top: Pixels, horizontal: Pixels, vertical: Pixels,
                         parent: Rect, cache: TextCache.Table, frame: int)
    requires e.kind.Box? || e.kind.ScalarBox?
    ensures var r := InsetLayout(e, left, top, horizontal, vertical, parent, cache, frame);
            r.Success? ==>
              var box := r.value.el.rect;
              var c := r.value.el.children[0];
              && |e.children| == 1
              && c.kind == e.children[0].kind
              && (r.value.flags == LAYOUT_ASK_PARENT <==> IsUnset(e.rect.x) || IsUnset(e.rect.y))
              && (!IsUnset(e.rect.x) ==> c.rect.x == box.x + left)
              && (!IsUnset(e.rect.y) ==> c.rect.y == box.y + top)
              && (IsUnset(e.rect.width) ==> box.width == c.rect.width + horizontal)
              && (IsUnset(e.rect.height) ==> box.height == c.rect.height + vertical)
              && (!IsUnset(e.rect.width) && !IsUnset(e.rect.width - horizontal) && KeepsWidth(c.kind)
                  ==> c.rect.width == box.width - horizontal)
              && (!IsUnset(e.rect.height) && !IsUnset(e.rect.height - vertical) && KeepsHeight(c.kind)
                  ==> c.rect.height == box.height - vertical)
  {
  }

  /** `hui_box_layout`: with a known position, the child sits exactly
      inside the box's padding and border on all four sides, whenever it
      kept the size it was given (or the box took its size from it). */
  lemma BoxInsetsChild(e: Element, parent: Rect, cache: TextCache.Table, frame: int)
    requires e.kind.Box?
    ensures var r := BoxLayout(e, parent, cache, frame);
            var m := MarginAdd(e.kind.style.padding, e.kind.style.border);
            r.Success? ==>
              var box := r.value.el.rect;
              var c := r.value.el.children[0];
              && (r.value.flags == LAYOUT_ASK_PARENT <==> IsUnset(e.rect.x) || IsUnset(e.rect.y))
              && (!IsUnset(e.rect.x) && (IsUnset(e.rect.width) || (!IsUnset(e.rect.width - m.Horizontal()) && KeepsWidth(c.kind)))
                  ==> c.rect.x - box.x == m.left && (box.x + box.width) - (c.rect.x + c.rect.width) == m.right)
              && (!IsUnset(e.rect.y) && (IsUnset(e.rect.height) || (!IsUnset(e.rect.height - m.Vertical()) && KeepsHeight(c.kind)))
                  ==> c.rect.y - box.y == m.top && (box.y + box.height) - (c.rect.y + c.rect.height) == m.bottom)
  {
    var m := BoxInsets(e.kind.style);
    InsetPlacesChild(e, m.left, m.top, m.Horizontal(), m.Vertical(), parent, cache, frame);
  }

  /** The same element with the older box style written as a current one. */
  function AsBox(e: Element): Element
    requires e.kind.ScalarBox?
  {
    var s := e.kind.scalarStyle;
    e.(kind := Box(BoxStyle(s.background, MSymmetric(s.padding), s.borderColor, MSymmetric(s.borderWidth))))
  }

  /** The older box is the current box with symmetric padding and border:
      both lay the element out identically. */
  lemma ScalarBoxIsSymmetricBox(e: Element, parent: Rect, cache: TextCache.Table, frame: int)
    requires e.kind.ScalarBox?
    ensures var s := ScalarBoxLayout(e, parent, cache, frame);
            var b := BoxLayout(AsBox(e), parent, cache, frame);
            && s.Success? == b.Success?
            && (s.Success? ==> s.value == b.value.(el := b.value.el.(kind := e.kind)))
  {
    var st := e.kind.scalarStyle;
    var m := BoxInsets(AsBox(e).kind.style);
    var total := ScalarInset(st);
    assert m.left == total && m.top == total;
    assert m.Horizontal() == 2.0 * total && m.Vertical() == 2.0 * total;
  }

  // ---------------------------------------------------------------------
  // Center

  /** `hui_center_layout`: the element takes its padded width (the
      parent's if its own is unset) and an unset height from the child;
      the child keeps the element's y and, once its first-pass width is
      known, has equal space on its left and right.  The child is laid out
      a second time exactly when its first pass asked for it. */
  lemma CenterCentersChild(e: Element, parent: Rect, cache: TextCache.Table, frame: int)
    requires e.kind.Center?
    ensures var r := CenterLayout(e, parent, cache, frame);
            r.Success? ==>
              && |e.children| == 1
              && var first := CenterFirstPass(e, parent, cache, frame);
              && first.Success?
              && var box := r.value.el.rect;
              && var c := r.value.el.children[0];
              && box.width == PaddedWidth(e, parent)
              && (IsUnset(e.rect.height) ==> box.height == first.value.el.rect.height)
              && c.kind == e.children[0].kind
              && c.rect.y == e.rect.y
              && c.rect.x == e.rect.x + (box.width - first.value.el.rect.width) / 2.0
              && (!IsUnset(first.value.el.rect.width)
                  ==> c.rect.x - box.x == (box.x + box.width) - (c.rect.x + c.rect.width))
              && var centered := first.value.el.(rect := first.value.el.rect.(x := c.rect.x));
              && (!AsksParent(first.value.flags) ==> c == centered && r.value.cache == first.value.cache)
              && (AsksParent(first.value.flags) ==>
                    var again := Layout(centered, box, first.value.cache, frame);
                    && again.Success? && c == again.value.el && r.value.cache == again.value.cache)
  {
  }

  // ---------------------------------------------------------------------
  // Leftright

  /** `hui_leftright_layout`: the left child sits at the container's top
      left corner, never wider than the container when it keeps the width
      it is given; the right child sits flush with the container's right
      edge, on the same line, or below the left child and the padding when
      the two do not fit side by side; the container is as tall as the
      taller child, or as both and the padding when the right one
      wrapped. */
  lemma LeftRightArranges(e: Element, parent: Rect, cache: TextCache.Table, frame: int)
    requires e.kind.LeftRight?
    ensures var r := LeftRightLayout(e, parent, cache, frame);
            r.Success? ==>
              && |e.children| == 2
              && var passes := LeftRightPasses(e, parent, cache, frame);
              && passes.Success?
              && var s := passes.value;
              && var p := e.kind.padding;
              && var self := LeftRightSelf(e, parent);
              && var left := r.value.el.children[0];
              && var right := r.value.el.children[1];
              && r.value.el.rect.width == self.width
              && left.rect.x == self.x && left.rect.y == self.y
              && (KeepsWidth(left.kind) && !IsUnset(self.width) ==> left.rect.width <= self.width)
              && right.kind == e.children[1].kind
              && right.rect.y == (if Wraps(s, p) then self.y + left.rect.height + p else self.y)
              && (KeepsWidth(right.kind) && !IsUnset(RightWidth(s, p))
                  ==> right.rect.x + right.rect.width == self.x + self.width)
              && (RightWidth(s, p) <= self.width || !Wraps(s, p))
              && r.value.el.rect.height
                 == (if Wraps(s, p) then left.rect.height + right.rect.height + p
                     else Max(right.rect.height, left.rect.height))
  {
  }

  // ---------------------------------------------------------------------
  // Fixed and scroll

  /** `hui_fixed_layout`: the element takes its fixed size whatever it was
      given, and its only child is put at the element's position with that
      size. */
  lemma FixedPinsChild(e: Element, parent: Rect, cache: TextCache.Table, frame: int)
    requires e.kind.Fixed?
    ensures var r := FixedLayout(e, parent, cache, frame);
            r.Success? ==>
              var c := r.value.el.children[0];
              && r.value.el.rect == Rect(e.rect.x, e.rect.y, e.kind.fixedWidth, e.kind.fixedHeight)
              && c.kind == e.children[0].kind
              && c.rect.x == e.rect.x && c.rect.y == e.rect.y
              && (KeepsWidth(c.kind) && !IsUnset(e.kind.fixedWidth) ==> c.rect.width == e.kind.fixedWidth)
              && (KeepsHeight(c.kind) && !IsUnset(e.kind.fixedHeight) ==> c.rect.height == e.kind.fixedHeight)
  {
  }

  /** `hui_scroll_layout`: the only child is shifted up by the scroll
      offset and laid out against the scroll element's own rectangle; an
      unset size is taken from the child. */
  lemma ScrollShiftsChild(e: Element, parent: Rect, cache: TextCache.Table, frame: int)
    requires e.kind.Scroll?
    ensures var r := ScrollLayout(e, parent, cache, frame);
            r.Success? ==>
              var c := r.value.el.children[0];
              && |e.children| == 1
              && c.kind == e.children[0].kind
              && c.rect.x == e.rect.x
              && c.rect.y == e.rect.y - e.kind.offset
              && (IsUnset(e.rect.width) ==> r.value.el.rect.width == c.rect.width)
              && (IsUnset(e.rect.height) ==> r.value.el.rect.height == c.rect.height)
              && (!IsUnset(e.rect.width) ==> r.value.el.rect.width == e.rect.width)
              && (!IsUnset(e.rect.height) ==> r.value.el.rect.height == e.rect.height)
              && r.value.el.rect.x == e.rect.x && r.value.el.rect.y == e.rect.y
  {
  }

  /** A scroll element with offset zero lays its child out exactly where it
      would be without scrolling. */
  lemma ScrollAtZeroIsIdentity(e: Element, parent: Rect, cache: TextCache.Table, frame: int)
    requires e.kind.Scroll? && e.kind.offset == 0.0 && |e.children| == 1
    ensures var r := ScrollLayout(e, parent, cache, frame);
            var c := e.children[0];
            var direct := Layout(c.(rect := c.rect.(x := e.rect.x, y := e.rect.y)), e.rect, cache, frame);
            && r.Success? == direct.Success?
            && (r.Success? ==> r.value.el.children == [direct.value.el] && r.value.cache == direct.value.cache)
  {
  }

  // ---------------------------------------------------------------------
  // Leaves

  /** `hui_block_layout` settles after one pass: laying the result out
      again against the same parent changes nothing.  (A parent width of
      exactly twice the sentinel would halve to the sentinel and be halved
      again.) */
  lemma BlockSettles(e: Element, parent: Rect, cache: TextCache.Table)
    requires e.kind.Block?
    requires !IsUnset(parent.width * 0.5)
    ensures var r := BlockLayout(e, parent, cache);
            && BlockLayout(r.el, parent, cache) == r
            && (r.flags == LAYOUT_ASK_PARENT <==> IsUnset(r.el.rect.width))
            && !IsUnset(r.el.rect.height)
  {
  }

  /** `hui_nothing_layout` settles after one pass, and an unset size
      becomes zero. */
  lemma NothingSettles(e: Element, cache: TextCache.Table)
    requires e.kind.Nothing?
    ensures var r := NothingLayout(e, cache);
            && NothingLayout(r.el, cache) == r
            && (IsUnset(e.rect.width) ==> r.el.rect.width == 0.0)
            && (IsUnset(e.rect.height) ==> r.el.rect.height == 0.0)
            && !IsUnset(r.el.rect.width) && !IsUnset(r.el.rect.height)
  {
  }

  /** `hui_text_layout` (current generation): the text wraps at its own
      width, or its parent's when it has none; an unset width or height is
      the one the cache serves for that limit.  On a hit those are the
      stored slot's; on a miss they are the fresh measurement, the pen's x
      on one line or the whole limit once it wraps, and the pen's last
      line plus the font size. */
  lemma TextSizesFromCache(e: Element, parent: Rect, cache: TextCache.Table, frame: int)
    requires e.kind.Text?
    ensures var r := TextLayout(e, parent, cache, frame);
            var limit := TextLimit(e, parent);
            var served := TextCache.Render(cache, e.kind.text, e.kind.advances, limit, e.kind.fontSize, frame);
            && (IsUnset(e.rect.width) ==> limit == parent.width)
            && (!IsUnset(e.rect.width) ==> limit == e.rect.width)
            && r.cache == served.table
            && (IsUnset(e.rect.width) ==> r.el.rect.width == served.value.actualWidth)
            && (IsUnset(e.rect.height) ==> r.el.rect.height == served.value.height)
            && (served.hit ==>
                  var stored := cache[TextCache.ServedSlot(e.kind.text, served)];
                  && (IsUnset(e.rect.width) ==> r.el.rect.width == stored.actualWidth)
                  && (IsUnset(e.rect.height) ==> r.el.rect.height == stored.height))
            && (!served.hit ==>
                  var pen := TextCache.RenderPen(e.kind.advances, limit, e.kind.fontSize);
                  && (IsUnset(e.rect.width) ==> r.el.rect.width == (if pen.y == 0.0 then pen.x else limit))
                  && (IsUnset(e.rect.height) ==> r.el.rect.height == pen.y + e.kind.fontSize))
  {
  }

  /** `hui_text_layout` (current generation): the same text element,
      rebuilt in a later frame within the cache's lookup age, is laid out
      identically from the cache entry its first layout left behind. */
  lemma TextRelayoutFromCache(e: Element, parent: Rect, cache: TextCache.Table, frame: int, later: int)
    requires e.kind.Text?
    requires frame <= later <= frame + TextCache.LOOKUP_MAX_AGE
    requires TextCache.Render(cache, e.kind.text, e.kind.advances, TextLimit(e, parent), e.kind.fontSize, frame).offset
             < TextCache.GIVE_UP
    ensures var first := TextLayout(e, parent, cache, frame);
            TextLayout(e, parent, first.cache, later).el == first.el
  {
    TextCache.RepeatedRequestHits(cache, e.kind.text, e.kind.advances, TextLimit(e, parent), e.kind.fontSize, frame, later);
  }

  /** `hui_text_layout` (older generation): with no width of its own the
      text is exactly as wide as measured, clamped to its parent's width; an unset height is one
      line per wrap plus the last line; and the text stays on one line
      exactly when every glyph fits after the ones before it. */
  lemma LegacyTextLines(e: Element, parent: Rect, cache: TextCache.Table)
    requires e.kind.LegacyText?
    ensures var r := LegacyTextLayout(e, parent, cache);
            var width := LegacyTextWidth(e, parent);
            var pen := LegacyPen(e, parent);
            && (IsUnset(e.rect.width) ==> r.el.rect.width <= parent.width && r.el.rect.width <= e.kind.measured)
            && (IsUnset(e.rect.width) ==> r.el.rect.width == parent.width || r.el.rect.width == e.kind.measured)
            && (IsUnset(e.rect.height) ==> r.el.rect.height == (pen.wraps + 1) as real * LEGACY_LINE_HEIGHT)
            && (pen.wraps == 0 <==> Pen.AllFit(e.kind.advances, e.rect.x, width, LEGACY_SPACING, e.rect.x))
            && pen.wraps <= |e.kind.advances|
  {
    Pen.FitsOnOneLine(e.kind.advances, e.rect.x, LegacyTextWidth(e, parent), LEGACY_LINE_HEIGHT, LEGACY_SPACING,
                      Pen.PenPos(e.rect.x, e.rect.y, 0));
  }

  // ---------------------------------------------------------------------
  // Cluster

  /** One child placed by the cluster.  A child that fits after the pen
      stays where the pen put it, at its first-pass width, and does not
      cross the width limit; a child that does not fit starts a new row at
      the cluster's left edge, below the tallest child of the previous row
      and the padding, clamped to the width limit if it was wider. */
  lemma ClusterStepPlaces(c: Element, self: Rect, limit: Pixels, padding: Pixels, st: Row,
                          cache: TextCache.Table, frame: int)
    ensures var r := ClusterStep(c, self, limit, padding, st, cache, frame);
            r.Success? ==>
              var s := r.value;
              && (!s.wrapped ==>
                    && s.el.rect.x == st.x && s.el.rect.y == st.y
                    && s.el.rect.width == s.firstWidth
                    && s.el.rect.x + s.el.rect.width <= self.x + limit
                    && s.row.rowMax == Max(st.rowMax, s.el.rect.height)
                    && s.row.maxWidth == st.maxWidth)
              && (s.wrapped ==>
                    && s.el.rect.x == self.x
                    && s.el.rect.y == st.y + st.rowMax + padding
                    && s.row.rowMax == Max(0.0, s.el.rect.height)
                    && s.row.maxWidth == Max(st.maxWidth, st.x - padding - self.x)
                    && (s.firstWidth > limit && KeepsWidth(c.kind) && !IsUnset(limit) ==> s.el.rect.width == limit))
  {
  }

  /** A child lies in the cluster's rows: it starts a row at `left` or ends
      within the width limit, and it lies between `top` and `bottom`. */
  predicate InRows(k: Element, left: Pixels, limit: Pixels, top: Pixels, bottom: Pixels) {
    && (k.rect.x == left || k.rect.x + k.rect.width <= left + limit)
    && top <= k.rect.y
    && k.rect.y + k.rect.height <= bottom
  }

  /** The bottom of the row the pen is on. */
  function Bottom(row: Row): Pixels {
    row.y + row.rowMax
  }

  /** With non-negative padding, the cluster loop keeps every child in its
      rows: below the pen's starting y and above the bottom of the last
      row, which never rises. */
  lemma {:induction false} ClusterFlowInRows(cs: seq<Element>, self: Rect, limit: Pixels, padding: Pixels, st: Row,
                                             cache: TextCache.Table, frame: int)
    requires padding >= 0.0 && st.rowMax >= 0.0
    ensures var r := ClusterFlow(cs, self, limit, padding, st, cache, frame);
            r.Success? ==>
              && r.value.row.rowMax >= 0.0
              && st.y <= r.value.row.y
              && Bottom(st) <= Bottom(r.value.row)
              && forall i :: 0 <= i < |r.value.children| ==>
                   InRows(r.value.children[i], self.x, limit, st.y, Bottom(r.value.row))
    decreases |cs|
  {
    if |cs| > 0 {
      var step := ClusterStep(cs[0], self, limit, padding, st, cache, frame);
      if step.Success? {
        var s := step.value;
        ClusterStepPlaces(cs[0], self, limit, padding, st, cache, frame);
        var rest := ClusterFlow(cs[1..], self, limit, padding, s.row, s.cache, frame);
        ClusterFlowInRows(cs[1..], self, limit, padding, s.row, s.cache, frame);
        if rest.Success? {
          var kids := [s.el] + rest.value.children;
          assert ClusterFlow(cs, self, limit, padding, st, cache, frame) == Success(RowFlow(kids, rest.value.row, rest.value.cache));
          assert InRows(s.el, self.x, limit, st.y, Bottom(s.row));
          forall i | 0 <= i < |kids|
            ensures InRows(kids[i], self.x, limit, st.y, Bottom(rest.value.row))
          {
            if i > 0 {
              assert kids[i] == rest.value.children[i - 1];
            }
          }
        }
      }
    }
  }

  /** `hui_cluster_layout` (current generation): with non-negative padding
      and no height of its own, every child lies inside the cluster
      vertically, and starts a row at the cluster's left edge or ends within
      its width limit. */
  lemma ClusterHeightCovers(e: Element, parent: Rect, cache: TextCache.Table, frame: int)
    requires e.kind.Cluster? && e.kind.padding >= 0.0
    requires IsUnset(e.rect.height)
    ensures var r := ClusterLayout(e, parent, cache, frame);
            r.Success? ==>
              forall i :: 0 <= i < |r.value.el.children| ==>
                InRows(r.value.el.children[i], e.rect.x, WidthLimit(e, parent),
                       e.rect.y, e.rect.y + r.value.el.rect.height)
  {
    ClusterFlowInRows(e.children, ClusterTemporary(e, parent), WidthLimit(e, parent), e.kind.padding, RowStart(e), cache, frame);
  }

  /** The right edge of a placed child. */
  function RightEdge(k: Element): Pixels {
    k.rect.x + k.rect.width
  }

  /** The bottom edge of a placed child. */
  function BottomEdge(k: Element): Pixels {
    k.rect.y + k.rect.height
  }

  /** Every child came out of its pass with a non-negative size. */
  predicate Sized(kids: seq<Element>) {
    forall i :: 0 <= i < |kids| ==> kids[i].rect.width >= 0.0 && kids[i].rect.height >= 0.0
  }

  /** The widest row so far, the pen's row included, measured from `left`. */
  function RowWidth(row: Row, left: Pixels, padding: Pixels): Pixels {
    Max(row.maxWidth, row.x - padding - left)
  }

  /** One child of non-negative size: the widest row grows to reach the
      child's right edge or stays what it was, and the row's bottom moves
      to the child's bottom edge or stays where it was. */
  lemma ClusterStepExtent(c: Element, self: Rect, limit: Pixels, padding: Pixels, st: Row,
                          cache: TextCache.Table, frame: int)
    requires padding >= 0.0
    ensures var r := ClusterStep(c, self, limit, padding, st, cache, frame);
            r.Success? && r.value.el.rect.width >= 0.0 && r.value.el.rect.height >= 0.0 ==>
              var w0 := RowWidth(st, self.x, padding);
              var w1 := RowWidth(r.value.row, self.x, padding);
              && w0 <= w1 && RightEdge(r.value.el) <= self.x + w1
              && (w1 == w0 || RightEdge(r.value.el) == self.x + w1)
              && (Bottom(r.value.row) == Bottom(st) || BottomEdge(r.value.el) == Bottom(r.value.row))
              && (st.x == self.x ==> r.value.el.rect.x == self.x)
  {
    ClusterStepPlaces(c, self, limit, padding, st, cache, frame);
  }

  /** With non-negative padding and children of non-negative size, the
      cluster loop's widest row reaches exactly as far right as its
      furthest child (or stays what it was), and the bottom of the last
      row is exactly the lowest child's bottom edge (or stays where it
      was).  The first child starts at the cluster's left edge when the
      pen does. */
  lemma {:induction false} ClusterFlowExtent(cs: seq<Element>, self: Rect, limit: Pixels, padding: Pixels, st: Row,
                                             cache: TextCache.Table, frame: int)
    requires padding >= 0.0
    ensures var r := ClusterFlow(cs, self, limit, padding, st, cache, frame);
            r.Success? && Sized(r.value.children) ==>
              var kids := r.value.children;
              var w := RowWidth(r.value.row, self.x, padding);
              && (|kids| == 0 ==> r.value.row == st)
              && (|kids| > 0 && st.x == self.x ==> kids[0].rect.x == self.x)
              && RowWidth(st, self.x, padding) <= w
              && (forall i :: 0 <= i < |kids| ==> RightEdge(kids[i]) <= self.x + w)
              && (w == RowWidth(st, self.x, padding) || exists i :: 0 <= i < |kids| && RightEdge(kids[i]) == self.x + w)
              && (Bottom(r.value.row) == Bottom(st) || exists i :: 0 <= i < |kids| && BottomEdge(kids[i]) == Bottom(r.value.row))
    decreases |cs|
  {
    var r := ClusterFlow(cs, self, limit, padding, st, cache, frame);
    if |cs| > 0 && r.Success? && Sized(r.value.children) {
      var s := ClusterStep(cs[0], self, limit, padding, st, cache, frame).value;
      var rest := ClusterFlow(cs[1..], self, limit, padding, s.row, s.cache, frame).value;
      var kids := [s.el] + rest.children;
      assert r.value == RowFlow(kids, rest.row, rest.cache);
      assert s.el == kids[0];
      ClusterStepExtent(cs[0], self, limit, padding, st, cache, frame);
      assert Sized(rest.children) by {
        forall j | 0 <= j < |rest.children|
          ensures rest.children[j].rect.width >= 0.0 && rest.children[j].rect.height >= 0.0
        {
          assert rest.children[j] == kids[j + 1];
        }
      }
      ClusterFlowExtent(cs[1..], self, limit, padding, s.row, s.cache, frame);
      var w0 := RowWidth(st, self.x, padding);
      var w1 := RowWidth(s.row, self.x, padding);
      var w := RowWidth(rest.row, self.x, padding);
      forall i | 0 <= i < |kids|
        ensures RightEdge(kids[i]) <= self.x + w
      {
        if i > 0 {
          assert kids[i] == rest.children[i - 1];
        }
      }
      if w != w0 {
        if w == w1 {
          assert RightEdge(kids[0]) == self.x + w;
        } else {
          var j :| 0 <= j < |rest.children| && RightEdge(rest.children[j]) == self.x + w;
          assert kids[j + 1] == rest.children[j];
        }
      }
      if Bottom(rest.row) != Bottom(st) {
        if Bottom(rest.row) == Bottom(s.row) {
          assert BottomEdge(kids[0]) == Bottom(rest.row);
        } else {
          var j :| 0 <= j < |rest.children| && BottomEdge(rest.children[j]) == Bottom(rest.row);
          assert kids[j + 1] == rest.children[j];
        }
      }
    }
  }

  /** `hui_cluster_layout` (current generation), unconstrained sizes: with
      non-negative padding and children of non-negative size, an unset
      width makes the cluster exactly as wide as its furthest child
      reaches, and an unset height makes it exactly as tall as its lowest
      child reaches; with no children either size is 0. */
  lemma ClusterSize(e: Element, parent: Rect, cache: TextCache.Table, frame: int)
    requires e.kind.Cluster? && e.kind.padding >= 0.0
    ensures var r := ClusterLayout(e, parent, cache, frame);
            r.Success? && Sized(r.value.el.children) ==>
              var box := r.value.el.rect;
              var kids := r.value.el.children;
              && (IsUnset(e.rect.width) ==>
                    && (forall i :: 0 <= i < |kids| ==> RightEdge(kids[i]) <= box.x + box.width)
                    && (|kids| == 0 ==> box.width == 0.0)
                    && (|kids| > 0 ==> exists i :: 0 <= i < |kids| && RightEdge(kids[i]) == box.x + box.width))
              && (IsUnset(e.rect.height) ==>
                    && (forall i :: 0 <= i < |kids| ==> BottomEdge(kids[i]) <= box.y + box.height)
                    && (|kids| == 0 ==> box.height == 0.0)
                    && (|kids| > 0 ==> exists i :: 0 <= i < |kids| && BottomEdge(kids[i]) == box.y + box.height))
  {
    var r := ClusterLayout(e, parent, cache, frame);
    var self := ClusterTemporary(e, parent);
    var limit := WidthLimit(e, parent);
    var st := RowStart(e);
    if r.Success? && Sized(r.value.el.children) {
      var flow := ClusterArrange(e, parent, cache, frame).value;
      var kids := flow.children;
      assert r.value.el.children == kids;
      ClusterFlowExtent(e.children, self, limit, e.kind.padding, st, cache, frame);
      ClusterFlowInRows(e.children, self, limit, e.kind.padding, st, cache, frame);
      assert RowWidth(st, self.x, e.kind.padding) == 0.0;
      if IsUnset(e.rect.width) {
        assert r.value.el.rect.width == RowWidth(flow.row, self.x, e.kind.padding);
        if |kids| > 0 && r.value.el.rect.width == 0.0 {
          assert RightEdge(kids[0]) == e.rect.x;
        }
      }
      if IsUnset(e.rect.height) {
        assert e.rect.y + r.value.el.rect.height == Bottom(flow.row);
        if |kids| > 0 && Bottom(flow.row) == e.rect.y {
          assert InRows(kids[0], self.x, limit, st.y, Bottom(flow.row));
          assert BottomEdge(kids[0]) == e.rect.y;
        }
        forall i | 0 <= i < |kids|
          ensures BottomEdge(kids[i]) <= e.rect.y + r.value.el.rect.height
        {
          assert InRows(kids[i], self.x, limit, st.y, Bottom(flow.row));
        }
      }
    }
  }

  /** The cluster of the older generation, re-tagged as a current one. */
  function AsCluster(e: Element): Element
    requires e.kind.LegacyCluster?
  {
    e.(kind := Cluster(e.kind.padding))
  }

  /** The older cluster places its children exactly as the current one,
      but an unconstrained height comes out larger by the cluster's own
      y. */
  lemma LegacyClusterHeightOffset(e: Element, parent: Rect, cache: TextCache.Table, frame: int)
    requires e.kind.LegacyCluster?
    ensures var legacy := LegacyClusterLayout(e, parent, cache, frame);
            var current := ClusterLayout(AsCluster(e), parent, cache, frame);
            && legacy.Success? == current.Success?
            && (legacy.Success? ==>
                  && legacy.value.el.children == current.value.el.children
                  && legacy.value.el.rect.width == current.value.el.rect.width
                  && (IsUnset(e.rect.height) ==> legacy.value.el.rect.height == current.value.el.rect.height + e.rect.y))
  {
    assert ClusterArrange(e, parent, cache, frame) == ClusterArrange(AsCluster(e), parent, cache, frame);
  }

  /** `hui_cluster_layout` (older generation), unconstrained sizes: the
      width is as in the current generation, exactly as wide as the
      furthest child reaches; the height is the absolute y of the lowest
      child's bottom edge (the cluster's own y with no children), not a
      distance from the cluster's top. */
  lemma LegacyClusterSize(e: Element, parent: Rect, cache: TextCache.Table, frame: int)
    requires e.kind.LegacyCluster? && e.kind.padding >= 0.0
    ensures var r := LegacyClusterLayout(e, parent, cache, frame);
            r.Success? && Sized(r.value.el.children) ==>
              var box := r.value.el.rect;
              var kids := r.value.el.children;
              && (IsUnset(e.rect.width) ==>
                    && (forall i :: 0 <= i < |kids| ==> RightEdge(kids[i]) <= box.x + box.width)
                    && (|kids| == 0 ==> box.width == 0.0)
                    && (|kids| > 0 ==> exists i :: 0 <= i < |kids| && RightEdge(kids[i]) == box.x + box.width))
              && (IsUnset(e.rect.height) ==>
                    && (forall i :: 0 <= i < |kids| ==> BottomEdge(kids[i]) <= box.height)
                    && (|kids| == 0 ==> box.height == e.rect.y)
                    && (|kids| > 0 ==> exists i :: 0 <= i < |kids| && BottomEdge(kids[i]) == box.height))
  {
    LegacyClusterHeightOffset(e, parent, cache, frame);
    ClusterSize(AsCluster(e), parent, cache, frame);
  }

  /** A cluster scrolled above the screen's top edge (y = -50), 200 wide,
      holding one 100-pixel block. */
  function ScrolledCluster(legacy: bool): Element {
    var kind := if legacy then LegacyCluster(0.0) else Cluster(0.0);
    Element(kind, Rect(10.0, -50.0, 200.0, UNSET), [Fresh(Block)])
  }

  /** The older cluster's height leaves its own child sticking out of its
      bottom edge: the block ends at y = 50 but the cluster at y = 0.  The
      current cluster contains it. */
  lemma LegacyClusterOverflows(parent: Rect, cache: TextCache.Table, frame: int)
    ensures var legacy := LegacyClusterLayout(ScrolledCluster(true), parent, cache, frame);
            && legacy.Success?
            && var box := legacy.value.el.rect;
            && var child := legacy.value.el.children[0].rect;
            && child.y + child.height == 50.0
            && box.y + box.height == 0.0
            && child.y + child.height > box.y + box.height
    ensures var current := ClusterLayout(ScrolledCluster(false), parent, cache, frame);
            && current.Success?
            && var box := current.value.el.rect;
            && var child := current.value.el.children[0].rect;
            && child.y + child.height <= box.y + box.height
  {
    var e := ScrolledCluster(true);
    var self := ClusterTemporary(e, parent);
    var placed := Fresh(Block).(rect := UNSET_RECT.(x := 10.0, y := -50.0));
    assert Layout(placed, self, cache, frame) == Success(BlockLayout(placed, self, cache));
    var laid := BlockLayout(placed, self, cache);
    assert laid.el.rect == Rect(10.0, -50.0, 100.0, 100.0);
    assert ClusterStep(Fresh(Block), self, 200.0, 0.0, RowStart(e), cache, frame)
           == Success(Step(laid.el, 100.0, false, Row(110.0, -50.0, 100.0, 0.0), cache));
    assert e.children[0] == Fresh(Block) && e.children[1..] == [];
    assert [laid.el] + [] == [laid.el];
    assert ClusterFlow([], self, 200.0, 0.0, Row(110.0, -50.0, 100.0, 0.0), cache, frame)
           == Success(RowFlow([], Row(110.0, -50.0, 100.0, 0.0), cache));
    assert ClusterFlow(e.children, self, 200.0, 0.0, RowStart(e), cache, frame)
           == Success(RowFlow([laid.el], Row(110.0, -50.0, 100.0, 0.0), cache));
    LegacyClusterHeightOffset(e, parent, cache, frame);
  }
}
