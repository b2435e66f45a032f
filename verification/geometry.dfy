/** Pixel arithmetic, layout rectangles, the UNSET sentinel, layout result
    flags and margins shared by every layout strategy.

    `Pixels` is an f32 in the library; the model uses exact reals (no
    rounding).  `LayoutResult` is a `u8` bit set, modelled as `bv8` so that
    `|` and `&` are the library's own bit operations. */
module Geometry {

  type Pixels = real

  /** A coordinate or size that has not been decided yet. */
  const UNSET: Pixels := -15001.0

  /** `is_unset`.  Its body is not part of this model; it is taken to be
      the exact comparison with the sentinel that the older code writes
      out as `== UNSET`. */
  predicate IsUnset(v: Pixels) {
    v == UNSET
  }

  /** raylib's `Rectangle`, used as an element's layout. */
  datatype Rect = Rect(x: Pixels, y: Pixels, width: Pixels, height: Pixels)

  const UNSET_RECT: Rect := Rect(UNSET, UNSET, UNSET, UNSET)

  /** The library's "bigger of the two" idiom `if (b > a) a = b;`. */
  function Max(a: Pixels, b: Pixels): (m: Pixels)
    ensures m >= a && m >= b
    ensures m == a || m == b
  {
    if b > a then b else a
  }

  type LayoutResult = bv8

  const LAYOUT_OK: LayoutResult := 0
  const LAYOUT_ASK_PARENT: LayoutResult := 1
  const LAYOUT_ASK_CHILDREN: LayoutResult := 2
  const LAYOUT_ASK_ALL: LayoutResult := LAYOUT_ASK_PARENT | LAYOUT_ASK_CHILDREN

  /** `result & LAYOUT_ASK_PARENT` as a truth value. */
  predicate AsksParent(r: LayoutResult) {
    r & LAYOUT_ASK_PARENT != 0
  }

  /** The flag constants are distinct single bits whose union is ASK_ALL,
      and only ASK_PARENT (and ASK_ALL) request a parent pass. */
  lemma FlagConstants()
    ensures LAYOUT_OK == 0 && LAYOUT_ASK_PARENT == 1 && LAYOUT_ASK_CHILDREN == 2
    ensures LAYOUT_ASK_ALL == 3
    ensures LAYOUT_ASK_PARENT & LAYOUT_ASK_CHILDREN == 0
    ensures AsksParent(LAYOUT_ASK_PARENT) && AsksParent(LAYOUT_ASK_ALL)
    ensures !AsksParent(LAYOUT_OK) && !AsksParent(LAYOUT_ASK_CHILDREN)
    ensures UNSET == -15001.0
  {
  }

  datatype Margin = Margin(left: Pixels, right: Pixels, top: Pixels, bottom: Pixels) {
    /** Sum of the two sides along the x axis. */
    function Horizontal(): Pixels {
      left + right
    }

    /** Sum of the two sides along the y axis. */
    function Vertical(): Pixels {
      top + bottom
    }
  }

  function MSymmetric(size: Pixels): Margin {
    Margin(size, size, size, size)
  }

  function MVertical(size: Pixels): Margin {
    Margin(0.0, 0.0, size, size)
  }

  function MHorizontal(size: Pixels): Margin {
    Margin(size, size, 0.0, 0.0)
  }

  function MNone(): Margin {
    Margin(0.0, 0.0, 0.0, 0.0)
  }

  /** Side-by-side sum of two margins (padding plus border). */
  function MarginAdd(a: Margin, b: Margin): (m: Margin)
    ensures m.Horizontal() == a.Horizontal() + b.Horizontal()
    ensures m.Vertical() == a.Vertical() + b.Vertical()
  {
    Margin(a.left + b.left, a.right + b.right, a.top + b.top, a.bottom + b.bottom)
  }

  /** A symmetric margin has the same size on all four sides, so adding it
      to a margin adds that size to each of its sides. */
  lemma SymmetricSides(s: Pixels, m: Margin)
    ensures MSymmetric(s) == Margin(s, s, s, s)
    ensures MarginAdd(m, MSymmetric(s)) == Margin(m.left + s, m.right + s, m.top + s, m.bottom + s)
  {
  }

  /** A vertical margin is empty across and twice its size top to bottom. */
  lemma VerticalExtent(s: Pixels)
    ensures MVertical(s).Horizontal() == 0.0 && MVertical(s).Vertical() == 2.0 * s
  {
  }

  /** A horizontal margin is empty top to bottom and twice its size across. */
  lemma HorizontalExtent(s: Pixels)
    ensures MHorizontal(s).Vertical() == 0.0 && MHorizontal(s).Horizontal() == 2.0 * s
  {
  }

  /** A vertical and a horizontal margin of one size make the symmetric one. */
  lemma VerticalPlusHorizontal(s: Pixels)
    ensures MarginAdd(MVertical(s), MHorizontal(s)) == MSymmetric(s)
  {
  }

  /** The empty margin is the identity of `MarginAdd`. */
  lemma NoneIsIdentity(m: Margin)
    ensures MarginAdd(m, MNone()) == m
  {
    var z := Margin(0.0, 0.0, 0.0, 0.0);
    assert MNone() == z;
    assert MarginAdd(m, z).left == m.left;
  }

  /** Symmetric margins add like their sizes. */
  lemma SymmetricAdds(s: Pixels, t: Pixels)
    ensures MarginAdd(MSymmetric(s), MSymmetric(t)) == MSymmetric(s + t)
  {
  }

  /** Adding a symmetric margin does not depend on the order. */
  lemma SymmetricCommutes(s: Pixels, m: Margin)
    ensures MarginAdd(m, MSymmetric(s)) == MarginAdd(MSymmetric(s), m)
  {
  }
}
