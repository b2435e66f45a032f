/** The glyph pen walk that both text generations use to wrap a string
    into lines: for every glyph, if it would cross the right edge the pen
    returns to the left edge of a new line; then it advances by the glyph's
    width plus a fixed spacing.

    Glyph widths come from the font (an external service), so a text is
    given here as the sequence of its glyph advances, already scaled. */
module Pen {

  /** The pen position; `wraps` counts the line breaks taken so far. */
  datatype PenPos = PenPos(x: real, y: real, wraps: nat)

  function SumAdvances(advances: seq<real>, spacing: real): real {
    if |advances| == 0 then 0.0 else advances[0] + spacing + SumAdvances(advances[1..], spacing)
  }

  /** Walks the pen over `advances`.  A glyph of width `a` at pen x starts a
      new line iff `x + a > origin + limit`; a new line puts x back to
      `origin` and moves y down by `lineHeight`. */
  function Walk(advances: seq<real>, origin: real, limit: real, lineHeight: real, spacing: real, pen: PenPos): (r: PenPos)
    decreases |advances|
    ensures pen.wraps <= r.wraps <= pen.wraps + |advances|
    ensures r.y == pen.y + (r.wraps - pen.wraps) as real * lineHeight
    ensures r.wraps == pen.wraps ==> r.x == pen.x + SumAdvances(advances, spacing)
  {
    if |advances| == 0 then pen
    else
      var a := advances[0];
      var atLine := if pen.x + a > origin + limit then PenPos(origin, pen.y + lineHeight, pen.wraps + 1) else pen;
      Walk(advances[1..], origin, limit, lineHeight, spacing, PenPos(atLine.x + a + spacing, atLine.y, atLine.wraps))
  }

  /** Glyph `k` fits on the current line when the pen, having advanced over
      all earlier glyphs without wrapping, does not cross the right edge. */
  predicate AllFit(advances: seq<real>, origin: real, limit: real, spacing: real, x: real) {
    forall k :: 0 <= k < |advances| ==> x + SumAdvances(advances[..k], spacing) + advances[k] <= origin + limit
  }

  /** The pen never leaves its line exactly when every glyph fits after the
      ones before it. */
  lemma {:induction false} FitsOnOneLine(advances: seq<real>, origin: real, limit: real, lineHeight: real, spacing: real, pen: PenPos)
    ensures Walk(advances, origin, limit, lineHeight, spacing, pen).wraps == pen.wraps
            <==> AllFit(advances, origin, limit, spacing, pen.x)
    decreases |advances|
  {
    if |advances| > 0 {
      var a := advances[0];
      assert advances[..0] == [];
      if pen.x + a <= origin + limit {
        var next := PenPos(pen.x + a + spacing, pen.y, pen.wraps);
        forall k | 0 <= k < |advances[1..]|
          ensures next.x + SumAdvances(advances[1..][..k], spacing) + advances[1..][k]
                  == pen.x + SumAdvances(advances[..k + 1], spacing) + advances[k + 1]
        {
          assert advances[..k + 1][0] == a;
          assert advances[..k + 1][1..] == advances[1..][..k];
        }
        FitsOnOneLine(advances[1..], origin, limit, lineHeight, spacing, next);
        if AllFit(advances[1..], origin, limit, spacing, next.x) {
          forall k | 0 <= k < |advances|
            ensures pen.x + SumAdvances(advances[..k], spacing) + advances[k] <= origin + limit
          {
            if k > 0 {
              assert advances[1..][k - 1] == advances[k];
            }
          }
        }
      }
    }
  }
}
