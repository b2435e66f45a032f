/** The layout strategies of both generations of the library, over an
    element tree.

    Every strategy is a function of the element (its kind, its current
    rectangle and its children), the rectangle its parent has at the moment
    of the call (the library reads `el->parent->layout`, which may hold a
    temporary size the parent set for its children), the text cache and the
    current frame number.  It returns the element with its own and its
    children's rectangles rewritten, the `LayoutResult` flags and the text
    cache after any cached renders.  A `panic` or failed `assert` is a
    `Failure`.

    The strategies call each other through the dispatcher `Layout`; the
    clique terminates on the pair (subtree size, rank), where a phase
    function working on the element itself has rank 0, a strategy rank 1,
    the dispatcher rank 2, a phase working on one child rank 3 and a flow
    over a sequence of children rank 4. */
module Layouts {
  import opened Wrappers
  import opened Geometry
  import TextCache
  import Pen

  datatype Color = Color(r: int, g: int, b: int, a: int)

  /** The current generation's box style: per-side padding and border. */
  datatype BoxStyle = BoxStyle(background: Color, padding: Margin, borderColor: Color, border: Margin)

  /** The older generation's box style: one padding and one border width. */
  datatype ScalarBoxStyle = ScalarBoxStyle(background: Color, padding: Pixels, borderColor: Color, borderWidth: Pixels)

  /** What `compute_layout` an element carries, with the data stored after
      it.  `Scroll` carries the value its `Pixels*` offset holds during
      layout; texts carry their glyph advances, already scaled. */
  datatype Kind =
    | Root
    | LegacyRoot
    | Stack(gap: Pixels)
    | Box(style: BoxStyle)
    | ScalarBox(scalarStyle: ScalarBoxStyle)
    | Center(padding: Pixels)
    | Cluster(padding: Pixels)
    | LegacyCluster(padding: Pixels)
    | LeftRight(padding: Pixels)
    | Fixed(fixedWidth: Pixels, fixedHeight: Pixels)
    | Scroll(offset: Pixels)
    | Block
    | Nothing
    | Text(text: seq<TextCache.Byte>, advances: seq<Pixels>, fontSize: Pixels)
    | LegacyText(measured: Pixels, advances: seq<Pixels>)

  datatype Element = Element(kind: Kind, rect: Rect, children: seq<Element>)

  /** A freshly pushed element: all four layout fields unset, no children. */
  function Fresh(kind: Kind): Element {
    Element(kind, UNSET_RECT, [])
  }

  function Size(e: Element): nat
    decreases e
  {
    1 + SizeSeq(e.children)
  }

  function SizeSeq(cs: seq<Element>): nat
    decreases cs
  {
    if |cs| == 0 then 0 else Size(cs[0]) + SizeSeq(cs[1..])
  }

  lemma SizeSeqCons(c: Element, cs: seq<Element>)
    ensures SizeSeq([c] + cs) == Size(c) + SizeSeq(cs)
  {
    assert ([c] + cs)[1..] == cs;
  }

  lemma SizeSeqOne(cs: seq<Element>)
    requires |cs| == 1
    ensures SizeSeq(cs) == Size(cs[0])
  {
  }

  lemma SizeSeqTwo(cs: seq<Element>)
    requires |cs| == 2
    ensures SizeSeq(cs) == Size(cs[0]) + Size(cs[1])
  {
    var tail := cs[1..];
    assert tail[0] == cs[1];
    assert tail[1..] == [];
    assert SizeSeq(tail) == Size(tail[0]) + SizeSeq(tail[1..]);
  }

  /** A subtree's size counts its nodes, whatever their rectangles. */
  lemma SizeOfPlaced(c: Element, r: Rect)
    ensures Size(c.(rect := r)) == Size(c) >= 1
  {
  }

  lemma {:induction false} ChildSmaller(cs: seq<Element>, i: nat)
    requires i < |cs|
    ensures Size(cs[i]) <= SizeSeq(cs)
    decreases i
  {
    if i > 0 {
      ChildSmaller(cs[1..], i - 1);
    }
  }

  /** The result of laying out one element. */
  datatype Laid = Laid(el: Element, flags: LayoutResult, cache: TextCache.Table)

  /** What every strategy preserves: the element's kind, its children's
      count, its position, and a width or height that was already decided
      (except the sizes that fixed elements force and the heights that
      leftright containers and the older root always recompute). */
  predicate Keeps(before: Element, after: Element) {
    && after.kind == before.kind
    && |after.children| == |before.children|
    && Size(after) == Size(before)
    && after.rect.x == before.rect.x
    && after.rect.y == before.rect.y
    && (before.kind.Fixed? ==> after.rect.width == before.kind.fixedWidth && after.rect.height == before.kind.fixedHeight)
    && (KeepsWidth(before.kind) && !IsUnset(before.rect.width) ==> after.rect.width == before.rect.width)
    && (KeepsHeight(before.kind) && !IsUnset(before.rect.height) ==> after.rect.height == before.rect.height)
  }

  /** Kinds whose strategy never overwrites a width already decided. */
  predicate KeepsWidth(k: Kind) {
    !k.Fixed?
  }

  /** Kinds whose strategy never overwrites a height already decided. */
  predicate KeepsHeight(k: Kind) {
    !k.Fixed? && !k.LeftRight? && !k.LegacyRoot?
  }

  /** No strategy ever asks its children for another pass. */
  predicate OnlyAsksParent(flags: LayoutResult) {
    flags == LAYOUT_OK || flags == LAYOUT_ASK_PARENT
  }

  /** `child->compute_layout(child, child+1)`. */
  function Layout(e: Element, parent: Rect, cache: TextCache.Table, frame: int): (r: Result<Laid>)
    decreases Size(e), 2
    ensures r.Success? ==> Keeps(e, r.value.el) && OnlyAsksParent(r.value.flags)
  {
    match e.kind
    case Root => RootLayout(e, cache, frame)
    case LegacyRoot => LegacyRootLayout(e, cache, frame)
    case Stack(_) => StackLayout(e, parent, cache, frame)
    case Box(_) => BoxLayout(e, parent, cache, frame)
    case ScalarBox(_) => ScalarBoxLayout(e, parent, cache, frame)
    case Center(_) => CenterLayout(e, parent, cache, frame)
    case Cluster(_) => ClusterLayout(e, parent, cache, frame)
    case LegacyCluster(_) => LegacyClusterLayout(e, parent, cache, frame)
    case LeftRight(_) => LeftRightLayout(e, parent, cache, frame)
    case Fixed(_, _) => FixedLayout(e, parent, cache, frame)
    case Scroll(_) => ScrollLayout(e, parent, cache, frame)
    case Block => Success(BlockLayout(e, parent, cache))
    case Nothing => Success(NothingLayout(e, cache))
    case Text(_, _, _) => Success(TextLayout(e, parent, cache, frame))
    case LegacyText(_, _) => Success(LegacyTextLayout(e, parent, cache))
  }

  // ---------------------------------------------------------------------
  // Roots

  /** `hui_root_layout`: the root's only child takes the whole root
      rectangle. */
  function RootLayout(e: Element, cache: TextCache.Table, frame: int): (r: Result<Laid>)
    requires e.kind.Root?
    decreases Size(e), 1
    ensures |e.children| != 1 ==> r.Failure?
    ensures r.Success? ==> Keeps(e, r.value.el) && r.value.flags == LAYOUT_OK
                           && r.value.el.rect == e.rect
                           && Keeps(e.children[0].(rect := e.rect), r.value.el.children[0])
  {
    if |e.children| != 1 then Failure("Root must have exactly one child")
    else
      ChildSmaller(e.children, 0);
      var laid :- Layout(e.children[0].(rect := e.rect), e.rect, cache, frame);
      SizeSeqOne(e.children);
      SizeSeqOne([laid.el]);
      Success(Laid(e.(children := [laid.el]), LAYOUT_OK, laid.cache))
  }

  /** `hui_root_compute_layout`: the older root stacks any number of
      children at its own x with no gap and takes their total height. */
  function LegacyRootLayout(e: Element, cache: TextCache.Table, frame: int): (r: Result<Laid>)
    requires e.kind.LegacyRoot?
    decreases Size(e), 1
    ensures r.Success? ==> Keeps(e, r.value.el) && r.value.flags == LAYOUT_OK
  {
    var flow :- VerticalFlow(e.children, e.rect.x, e.rect.y, None, 0.0, e.rect, cache, frame);
    Success(Laid(Element(e.kind, e.rect.(height := flow.end - e.rect.y), flow.children), LAYOUT_OK, flow.cache))
  }

  // ---------------------------------------------------------------------
  // Stack

  /** Children laid out top to bottom and where the next one would go. */
  datatype Flow = Flow(children: seq<Element>, end: Pixels, cache: TextCache.Table)

  /** `kids` sit one below the other starting at `y`, each `gap` below the
      bottom of the one before, and the next one would go at `end`. */
  predicate Stacked(kids: seq<Element>, y: Pixels, gap: Pixels, end: Pixels)
    decreases |kids|
  {
    if |kids| == 0 then end == y
    else kids[0].rect.y == y && Stacked(kids[1..], y + kids[0].rect.height + gap, gap, end)
  }

  /** Each of `kids` is the same-position element of `cs` laid out at `x`,
      with `width` whenever there is one and the element's kind keeps the
      width it is given. */
  predicate Aligned(kids: seq<Element>, cs: seq<Element>, x: Pixels, width: Option<Pixels>)
    requires |kids| == |cs|
    decreases |kids|
  {
    |kids| > 0 ==>
      && kids[0].kind == cs[0].kind
      && kids[0].rect.x == x
      && (width.Some? && !IsUnset(width.value) && KeepsWidth(cs[0].kind) ==> kids[0].rect.width == width.value)
      && Aligned(kids[1..], cs[1..], x, width)
  }

  /** The loop shared by the stack and the older root: each child is put
      at (`x`, `y`), given `width` if there is one, laid out, and the next
      one goes its height plus `gap` lower. */
  function VerticalFlow(cs: seq<Element>, x: Pixels, y: Pixels, width: Option<Pixels>, gap: Pixels,
                        parent: Rect, cache: TextCache.Table, frame: int): (r: Result<Flow>)
    decreases SizeSeq(cs), 4
    ensures r.Success? ==> |r.value.children| == |cs| && SizeSeq(r.value.children) == SizeSeq(cs)
    ensures r.Success? ==> Stacked(r.value.children, y, gap, r.value.end)
    ensures r.Success? ==> Aligned(r.value.children, cs, x, width)
  {
    if |cs| == 0 then Success(Flow([], y, cache))
    else
      var c := cs[0];
      var placed := Rect(x, y, width.GetOr(c.rect.width), c.rect.height);
      SizeOfPlaced(c, placed);
      var first :- Layout(c.(rect := placed), parent, cache, frame);
      var rest :- VerticalFlow(cs[1..], x, y + first.el.rect.height + gap, width, gap, parent, first.cache, frame);
      SizeSeqCons(first.el, rest.children);
      assert ([first.el] + rest.children)[1..] == rest.children;
      Success(Flow([first.el] + rest.children, rest.end, rest.cache))
  }

  /** The width a stack lays its children out in. */
  function StackWidth(e: Element, parent: Rect): Pixels {
    if IsUnset(e.rect.width) then parent.width else e.rect.width
  }

  /** `hui_stack_layout` (both generations). */
  function StackLayout(e: Element, parent: Rect, cache: TextCache.Table, frame: int): (r: Result<Laid>)
    requires e.kind.Stack?
    decreases Size(e), 1
    ensures IsUnset(StackWidth(e, parent)) ==> r.Failure?
    ensures r.Success? ==> Keeps(e, r.value.el) && r.value.flags == LAYOUT_OK
                           && r.value.el.rect.width == StackWidth(e, parent)
  {
    var width := StackWidth(e, parent);
    if IsUnset(width) then Failure("assertion failed: the stack's width is set")
    else
      var self := e.rect.(width := width);
      var flow :- VerticalFlow(e.children, self.x, self.y, Some(width), e.kind.gap, self, cache, frame);
      var height := if IsUnset(self.height) then flow.end - self.y - e.kind.gap else self.height;
      Success(Laid(Element(e.kind, self.(height := height), flow.children), LAYOUT_OK, flow.cache))
  }

  // ---------------------------------------------------------------------
  // Box

  /** The box strategy of both generations, for insets `left` and `top`
      and total insets `horizontal` and `vertical`. */
  function InsetLayout(e: Element, left: Pixels, top: Pixels, horizontal: Pixels, vertical: Pixels,
                       parent: Rect, cache: TextCache.Table, frame: int): (r: Result<Laid>)
    requires e.kind.Box? || e.kind.ScalarBox?
    decreases Size(e), 0
    ensures |e.children| != 1 ==> r.Failure?
    ensures r.Success? ==> Keeps(e, r.value.el)
                           && (r.value.flags == if IsUnset(e.rect.x) || IsUnset(e.rect.y) then LAYOUT_ASK_PARENT else LAYOUT_OK)
  {
    if |e.children| != 1 then Failure("Box must have exactly one child")
    else
      var child := e.children[0];
      var widthSet := !IsUnset(e.rect.width);
      var heightSet := !IsUnset(e.rect.height);
      var temporary := Rect(e.rect.x, e.rect.y,
                            if widthSet then e.rect.width else parent.width - horizontal,
                            if heightSet then e.rect.height else parent.height - vertical);
      var placed := Rect(if !IsUnset(e.rect.x) then e.rect.x + left else child.rect.x,
                         if !IsUnset(e.rect.y) then e.rect.y + top else child.rect.y,
                         if widthSet then e.rect.width - horizontal else child.rect.width,
                         if heightSet then e.rect.height - vertical else child.rect.height);
      var flags := if IsUnset(e.rect.x) || IsUnset(e.rect.y) then LAYOUT_ASK_PARENT else LAYOUT_OK;
      ChildSmaller(e.children, 0);
      var laid :- Layout(child.(rect := placed), temporary, cache, frame);
      var final := temporary.(width := if widthSet then temporary.width else laid.el.rect.width + horizontal,
                              height := if heightSet then temporary.height else laid.el.rect.height + vertical);
      SizeSeqOne(e.children);
      SizeSeqOne([laid.el]);
      Success(Laid(Element(e.kind, final, [laid.el]), flags, laid.cache))
  }

  /** The current box's insets: padding plus border, side by side. */
  function BoxInsets(style: BoxStyle): (m: Margin)
    ensures m.Horizontal() == style.padding.Horizontal() + style.border.Horizontal()
    ensures m.Vertical() == style.padding.Vertical() + style.border.Vertical()
  {
    MarginAdd(style.padding, style.border)
  }

  /** `hui_box_layout` (current generation). */
  function BoxLayout(e: Element, parent: Rect, cache: TextCache.Table, frame: int): (r: Result<Laid>)
    requires e.kind.Box?
    decreases Size(e), 1
    ensures r.Success? ==> Keeps(e, r.value.el) && OnlyAsksParent(r.value.flags)
  {
    var m := BoxInsets(e.kind.style);
    InsetLayout(e, m.left, m.top, m.Horizontal(), m.Vertical(), parent, cache, frame)
  }

  /** The older box's inset on every side: padding plus border width. */
  function ScalarInset(style: ScalarBoxStyle): Pixels {
    style.padding + style.borderWidth
  }

  /** `hui_box_layout` (older generation). */
  function ScalarBoxLayout(e: Element, parent: Rect, cache: TextCache.Table, frame: int): (r: Result<Laid>)
    requires e.kind.ScalarBox?
    decreases Size(e), 1
    ensures r.Success? ==> Keeps(e, r.value.el) && OnlyAsksParent(r.value.flags)
  {
    var total := ScalarInset(e.kind.scalarStyle);
    InsetLayout(e, total, total, 2.0 * total, 2.0 * total, parent, cache, frame)
  }

  // ---------------------------------------------------------------------
  // Center

  /** The width a center element occupies, padding included. */
  function PaddedWidth(e: Element, parent: Rect): Pixels {
    if !IsUnset(e.rect.width) then e.rect.width else parent.width
  }

  /** The center element's rectangle while its child is laid out the first
      time: padding removed from the width, parent's height if unset. */
  function CenterTemporary(e: Element, parent: Rect): Rect
    requires e.kind.Center?
  {
    e.rect.(width := PaddedWidth(e, parent) - 2.0 * e.kind.padding,
            height := if !IsUnset(e.rect.height) then e.rect.height else parent.height)
  }

  /** The child's first pass: at the center element's y, inside the
      temporary rectangle. */
  function CenterFirstPass(e: Element, parent: Rect, cache: TextCache.Table, frame: int): (r: Result<Laid>)
    requires e.kind.Center? && |e.children| == 1
    decreases Size(e), 0
    ensures r.Success? ==> Keeps(e.children[0].(rect := e.children[0].rect.(y := e.rect.y)), r.value.el)
                           && OnlyAsksParent(r.value.flags)
  {
    var child := e.children[0];
    ChildSmaller(e.children, 0);
    Layout(child.(rect := child.rect.(y := e.rect.y)), CenterTemporary(e, parent), cache, frame)
  }

  /** `hui_center_layout` (both generations). */
  function CenterLayout(e: Element, parent: Rect, cache: TextCache.Table, frame: int): (r: Result<Laid>)
    requires e.kind.Center?
    decreases Size(e), 1
    ensures |e.children| != 1 ==> r.Failure?
    ensures r.Success? ==> Keeps(e, r.value.el) && r.value.flags == LAYOUT_OK
  {
    if |e.children| != 1 then Failure("Box must have exactly one child")
    else
      var first :- CenterFirstPass(e, parent, cache, frame);
      var padded := PaddedWidth(e, parent);
      var self := e.rect.(width := padded,
                          height := if !IsUnset(e.rect.height) then e.rect.height else first.el.rect.height);
      var centered := first.el.(rect := first.el.rect.(x := e.rect.x + (padded - first.el.rect.width) / 2.0));
      ChildSmaller(e.children, 0);
      var second :- if AsksParent(first.flags) then Layout(centered, self, first.cache, frame)
                    else Success(first.(el := centered));
      SizeSeqOne(e.children);
      SizeSeqOne([second.el]);
      Success(Laid(Element(e.kind, self, [second.el]), LAYOUT_OK, second.cache))
  }

  // ---------------------------------------------------------------------
  // Cluster

  /** The cluster's pen: where the next child goes, the tallest child of
      the current row and the widest finished row. */
  datatype Row = Row(x: Pixels, y: Pixels, rowMax: Pixels, maxWidth: Pixels)

  /** One child placed by the cluster: the child, its first-pass width,
      whether it started a new row, and the pen afterwards. */
  datatype Step = Step(el: Element, firstWidth: Pixels, wrapped: bool, row: Row, cache: TextCache.Table)

  /** One iteration of the cluster loop.  `self` is the cluster's
      rectangle while its children are laid out. */
  function ClusterStep(c: Element, self: Rect, limit: Pixels, padding: Pixels, st: Row,
                       cache: TextCache.Table, frame: int): (r: Result<Step>)
    decreases Size(c), 3
    ensures r.Success? ==>
              && r.value.el.kind == c.kind && Size(r.value.el) == Size(c)
              && (r.value.wrapped <==> st.x + r.value.firstWidth > self.x + limit)
              && r.value.el.rect.y == r.value.row.y
              && r.value.row.x == r.value.el.rect.x + r.value.el.rect.width + padding
  {
    var first :- Layout(c.(rect := c.rect.(x := st.x, y := st.y)), self, cache, frame);
    var fw := first.el.rect.width;
    if st.x + fw > self.x + limit then
      var y := st.y + st.rowMax + padding;
      var moved := first.el.rect.(x := self.x, y := y);
      var clamped := if fw > limit then moved.(width := limit, height := UNSET) else moved;
      var second :- Layout(first.el.(rect := clamped), self, first.cache, frame);
      var row := Row(self.x + second.el.rect.width + padding, y, Max(0.0, second.el.rect.height),
                     Max(st.maxWidth, st.x - padding - self.x));
      Success(Step(second.el, fw, true, row, second.cache))
    else
      var row := Row(st.x + fw + padding, st.y, Max(st.rowMax, first.el.rect.height), st.maxWidth);
      Success(Step(first.el, fw, false, row, first.cache))
  }

  /** Children placed by the cluster and the pen after the last one. */
  datatype RowFlow = RowFlow(children: seq<Element>, row: Row, cache: TextCache.Table)

  function ClusterFlow(cs: seq<Element>, self: Rect, limit: Pixels, padding: Pixels, st: Row,
                       cache: TextCache.Table, frame: int): (r: Result<RowFlow>)
    decreases SizeSeq(cs), 4
    ensures r.Success? ==> |r.value.children| == |cs| && SizeSeq(r.value.children) == SizeSeq(cs)
  {
    if |cs| == 0 then Success(RowFlow([], st, cache))
    else
      var step :- ClusterStep(cs[0], self, limit, padding, st, cache, frame);
      var rest :- ClusterFlow(cs[1..], self, limit, padding, step.row, step.cache, frame);
      SizeSeqCons(step.el, rest.children);
      Success(RowFlow([step.el] + rest.children, rest.row, rest.cache))
  }

  /** The width the cluster wraps its rows at. */
  function WidthLimit(e: Element, parent: Rect): Pixels {
    if !IsUnset(e.rect.width) then e.rect.width else parent.width
  }

  /** The cluster's rectangle while its children are laid out: unset sizes
      temporarily take the parent's. */
  function ClusterTemporary(e: Element, parent: Rect): Rect {
    e.rect.(width := WidthLimit(e, parent),
            height := if !IsUnset(e.rect.height) then e.rect.height else parent.height)
  }

  /** The pen a cluster starts its first row with. */
  function RowStart(e: Element): Row {
    Row(e.rect.x, e.rect.y, 0.0, 0.0)
  }

  /** The loop of `hui_cluster_layout`, shared by both generations. */
  function ClusterArrange(e: Element, parent: Rect, cache: TextCache.Table, frame: int): (r: Result<RowFlow>)
    requires e.kind.Cluster? || e.kind.LegacyCluster?
    decreases Size(e), 0
    ensures r.Success? ==> |r.value.children| == |e.children| && SizeSeq(r.value.children) == SizeSeq(e.children)
  {
    ClusterFlow(e.children, ClusterTemporary(e, parent), WidthLimit(e, parent), e.kind.padding, RowStart(e), cache, frame)
  }

  /** The widest row, the last one included, without trailing padding. */
  function ClusterWidth(e: Element, row: Row): Pixels
    requires e.kind.Cluster? || e.kind.LegacyCluster?
  {
    Max(row.maxWidth, row.x - e.kind.padding - e.rect.x)
  }

  /** `!layout->x || !layout->y`: a cluster asks its parent for another
      pass when it sits on a zero coordinate. */
  function ClusterFlags(e: Element): LayoutResult {
    if e.rect.x == 0.0 || e.rect.y == 0.0 then LAYOUT_ASK_PARENT else LAYOUT_OK
  }

  /** `hui_cluster_layout` (current generation): an unconstrained height
      runs from the cluster's top to the bottom of its last row. */
  function ClusterLayout(e: Element, parent: Rect, cache: TextCache.Table, frame: int): (r: Result<Laid>)
    requires e.kind.Cluster?
    decreases Size(e), 1
    ensures r.Success? ==> Keeps(e, r.value.el) && r.value.flags == ClusterFlags(e)
  {
    var flow :- ClusterArrange(e, parent, cache, frame);
    var height := if !IsUnset(e.rect.height) then e.rect.height else flow.row.y + flow.row.rowMax - e.rect.y;
    var width := if !IsUnset(e.rect.width) then e.rect.width else ClusterWidth(e, flow.row);
    Success(Laid(Element(e.kind, e.rect.(width := width, height := height), flow.children), ClusterFlags(e), flow.cache))
  }

  /** `hui_cluster_layout` (older generation), as written: an
      unconstrained height is the absolute y of the bottom of the last
      row, so it is too large by the cluster's own y. */
  function LegacyClusterLayout(e: Element, parent: Rect, cache: TextCache.Table, frame: int): (r: Result<Laid>)
    requires e.kind.LegacyCluster?
    decreases Size(e), 1
    ensures r.Success? ==> Keeps(e, r.value.el) && r.value.flags == ClusterFlags(e)
  {
    var flow :- ClusterArrange(e, parent, cache, frame);
    var height := if !IsUnset(e.rect.height) then e.rect.height else flow.row.y + flow.row.rowMax;
    var width := if !IsUnset(e.rect.width) then e.rect.width else ClusterWidth(e, flow.row);
    Success(Laid(Element(e.kind, e.rect.(width := width, height := height), flow.children), ClusterFlags(e), flow.cache))
  }

  // ---------------------------------------------------------------------
  // Leftright

  /** The first passes of a leftright container: the left child (clamped
      and laid out again if it was too wide), its first-pass width, the
      right child's first pass, and the container's rectangle. */
  datatype Sides = Sides(left: Laid, leftFirstWidth: Pixels, right: Laid, self: Rect)

  function LeftRightSelf(e: Element, parent: Rect): Rect {
    if IsUnset(e.rect.width) then e.rect.(width := parent.width) else e.rect
  }

  function LeftRightPasses(e: Element, parent: Rect, cache: TextCache.Table, frame: int): (r: Result<Sides>)
    requires e.kind.LeftRight? && |e.children| == 2
    decreases Size(e), 0
    ensures r.Success? ==>
              && r.value.self == LeftRightSelf(e, parent)
              && r.value.left.el.kind == e.children[0].kind
              && Size(r.value.left.el) == Size(e.children[0])
              && r.value.left.el.rect.x == e.rect.x && r.value.left.el.rect.y == e.rect.y
              && Keeps(e.children[1], r.value.right.el)
  {
    var self := LeftRightSelf(e, parent);
    var left := e.children[0];
    ChildSmaller(e.children, 0);
    ChildSmaller(e.children, 1);
    var l1 :- Layout(left.(rect := left.rect.(x := self.x, y := self.y)), self, cache, frame);
    var l2 :- if l1.el.rect.width > self.width
              then Layout(l1.el.(rect := l1.el.rect.(width := self.width, height := UNSET)), self, l1.cache, frame)
              else Success(l1);
    var r1 :- Layout(e.children[1], self, l2.cache, frame);
    Success(Sides(l2, l1.el.rect.width, r1, self))
  }

  /** Whether the right child goes below the left one: the pen after the
      left child's first pass and the padding cannot fit the right child. */
  function Wraps(s: Sides, padding: Pixels): bool {
    s.self.x + s.leftFirstWidth + padding + s.right.el.rect.width > s.self.x + s.self.width
  }

  /** The width the right child is placed with: clamped to the container
      when it wraps and is too wide. */
  function RightWidth(s: Sides, padding: Pixels): Pixels {
    if Wraps(s, padding) && s.right.el.rect.width > s.self.width then s.self.width else s.right.el.rect.width
  }

  /** `hui_leftright_layout`. */
  function LeftRightLayout(e: Element, parent: Rect, cache: TextCache.Table, frame: int): (r: Result<Laid>)
    requires e.kind.LeftRight?
    decreases Size(e), 1
    ensures |e.children| != 2 ==> r.Failure?
    ensures r.Success? ==> Keeps(e, r.value.el) && r.value.flags == LAYOUT_OK
  {
    if |e.children| != 2 then Failure("Leftright must have exactly two children.")
    else
      var s :- LeftRightPasses(e, parent, cache, frame);
      var p := e.kind.padding;
      var wrapped := Wraps(s, p);
      var rw := RightWidth(s, p);
      var rh := if wrapped && s.right.el.rect.width > s.self.width then UNSET else s.right.el.rect.height;
      var rx := s.self.x + s.self.width - rw;
      var ry := if wrapped then s.self.y + s.left.el.rect.height + p else s.self.y;
      ChildSmaller(e.children, 1);
      var right :- Layout(s.right.el.(rect := Rect(rx, ry, rw, rh)), s.self, s.right.cache, frame);
      var height := if wrapped then s.left.el.rect.height + right.el.rect.height + p
                    else Max(right.el.rect.height, s.left.el.rect.height);
      SizeSeqTwo(e.children);
      SizeSeqTwo([s.left.el, right.el]);
      Success(Laid(Element(e.kind, s.self.(height := height), [s.left.el, right.el]), LAYOUT_OK, right.cache))
  }

  // ---------------------------------------------------------------------
  // Fixed and scroll

  /** `hui_fixed_layout`. */
  function FixedLayout(e: Element, parent: Rect, cache: TextCache.Table, frame: int): (r: Result<Laid>)
    requires e.kind.Fixed?
    decreases Size(e), 1
    ensures |e.children| != 1 ==> r.Failure?
    ensures r.Success? ==> Keeps(e, r.value.el) && r.value.flags == LAYOUT_OK
                           && Keeps(e.children[0].(rect := Rect(e.rect.x, e.rect.y, e.kind.fixedWidth, e.kind.fixedHeight)),
                                    r.value.el.children[0])
  {
    if |e.children| != 1 then Failure("hui_fixed must have exactly one child")
    else
      var self := e.rect.(width := e.kind.fixedWidth, height := e.kind.fixedHeight);
      var child := e.children[0];
      ChildSmaller(e.children, 0);
      var laid :- Layout(child.(rect := Rect(e.rect.x, e.rect.y, e.kind.fixedWidth, e.kind.fixedHeight)), self, cache, frame);
      SizeSeqOne(e.children);
      SizeSeqOne([laid.el]);
      Success(Laid(Element(e.kind, self, [laid.el]), LAYOUT_OK, laid.cache))
  }

  /** `hui_scroll_layout`. */
  function ScrollLayout(e: Element, parent: Rect, cache: TextCache.Table, frame: int): (r: Result<Laid>)
    requires e.kind.Scroll?
    decreases Size(e), 1
    ensures |e.children| != 1 ==> r.Failure?
    ensures r.Success? ==> Keeps(e, r.value.el) && r.value.flags == LAYOUT_OK
  {
    if |e.children| != 1 then Failure("hui_scroll must have exactly one child")
    else
      var child := e.children[0];
      ChildSmaller(e.children, 0);
      var laid :- Layout(child.(rect := child.rect.(x := e.rect.x, y := e.rect.y - e.kind.offset)), e.rect, cache, frame);
      var width := if IsUnset(e.rect.width) then laid.el.rect.width else e.rect.width;
      var height := if IsUnset(e.rect.height) then laid.el.rect.height else e.rect.height;
      SizeSeqOne(e.children);
      SizeSeqOne([laid.el]);
      Success(Laid(Element(e.kind, e.rect.(width := width, height := height), [laid.el]), LAYOUT_OK, laid.cache))
  }

  // ---------------------------------------------------------------------
  // Leaves

  /** `hui_block_layout` (both generations). */
  function BlockLayout(e: Element, parent: Rect, cache: TextCache.Table): (r: Laid)
    requires e.kind.Block?
    ensures Keeps(e, r.el) && r.cache == cache && OnlyAsksParent(r.flags)
    ensures AsksParent(r.flags) <==> IsUnset(e.rect.width) && IsUnset(parent.width)
    ensures IsUnset(e.rect.width) && !IsUnset(parent.width) ==> r.el.rect.width == parent.width * 0.5
    ensures IsUnset(e.rect.height) ==> r.el.rect.height == 100.0
  {
    var askParent := IsUnset(e.rect.width) && IsUnset(parent.width);
    var width := if IsUnset(e.rect.width) && !IsUnset(parent.width) then parent.width * 0.5 else e.rect.width;
    var height := if IsUnset(e.rect.height) then 100.0 else e.rect.height;
    Laid(e.(rect := e.rect.(width := width, height := height)), if askParent then LAYOUT_ASK_PARENT else LAYOUT_OK, cache)
  }

  /** `hui_nothing_layout`. */
  function NothingLayout(e: Element, cache: TextCache.Table): (r: Laid)
    requires e.kind.Nothing?
    ensures Keeps(e, r.el) && r.cache == cache && r.flags == LAYOUT_OK
  {
    var width := if IsUnset(e.rect.width) then 0.0 else e.rect.width;
    var height := if IsUnset(e.rect.height) then 0.0 else e.rect.height;
    Laid(e.(rect := e.rect.(width := width, height := height)), LAYOUT_OK, cache)
  }

  /** The width a text wraps at. */
  function TextLimit(e: Element, parent: Rect): Pixels {
    if IsUnset(e.rect.width) then parent.width else e.rect.width
  }

  /** `hui_text_layout` (current generation): sizes from the text cache. */
  function TextLayout(e: Element, parent: Rect, cache: TextCache.Table, frame: int): (r: Laid)
    requires e.kind.Text?
    ensures Keeps(e, r.el) && r.flags == LAYOUT_OK
  {
    var rendered := TextCache.Render(cache, e.kind.text, e.kind.advances, TextLimit(e, parent), e.kind.fontSize, frame);
    var width := if IsUnset(e.rect.width) then rendered.value.actualWidth else e.rect.width;
    var height := if IsUnset(e.rect.height) then rendered.value.height else e.rect.height;
    Laid(e.(rect := e.rect.(width := width, height := height)), LAYOUT_OK, rendered.table)
  }

  /** Line height and glyph spacing of the older text, which always
      renders at size 20. */
  const LEGACY_LINE_HEIGHT: Pixels := 20.0
  const LEGACY_SPACING: Pixels := 2.0

  /** The older text's width: the measured width clamped to the parent's. */
  function LegacyTextWidth(e: Element, parent: Rect): Pixels
    requires e.kind.LegacyText?
  {
    if !IsUnset(e.rect.width) then e.rect.width
    else if e.kind.measured > parent.width then parent.width
    else e.kind.measured
  }

  /** Where the older text's wrap loop leaves its pen. */
  function LegacyPen(e: Element, parent: Rect): Pen.PenPos
    requires e.kind.LegacyText?
  {
    Pen.Walk(e.kind.advances, e.rect.x, LegacyTextWidth(e, parent), LEGACY_LINE_HEIGHT, LEGACY_SPACING,
             Pen.PenPos(e.rect.x, e.rect.y, 0))
  }

  /** `hui_text_layout` (older generation). */
  function LegacyTextLayout(e: Element, parent: Rect, cache: TextCache.Table): (r: Laid)
    requires e.kind.LegacyText?
    ensures Keeps(e, r.el) && r.cache == cache && r.flags == LAYOUT_OK
  {
    var height := if IsUnset(e.rect.height) then LegacyPen(e, parent).y - e.rect.y + LEGACY_LINE_HEIGHT else e.rect.height;
    Laid(e.(rect := e.rect.(width := LegacyTextWidth(e, parent), height := height)), LAYOUT_OK, cache)
  }
}
