/**
 * The integer geometry of `drawRoundedRect` (BeautifulRectangleElement.kt):
 * the corner radius clamped to half the width and half the height, and the
 * five filled rectangles that cover the box minus its four corner squares.
 *
 * A fill covers the pixels [x1, x2) x [y1, y2).
 */
module RoundedRect {

  /** The corners of one `fill` call. */
  datatype Rect = Rect(x1: int, y1: int, x2: int, y2: int)

  /**
   * `radius.coerceAtMost(width / 2).coerceAtMost(height / 2)`; `/` is
   * Kotlin's Int division, which for the positive sizes it is used with
   * agrees with Dafny's.
   */
  function AdjustedRadius(radius: int, width: int, height: int): (r: int)
    requires width > 0 && height > 0
    // the minimum of the three
    ensures r <= radius && r <= width / 2 && r <= height / 2
    ensures r == radius || r == width / 2 || r == height / 2
  {
    var byWidth := if radius <= width / 2 then radius else width / 2;
    if byWidth <= height / 2 then byWidth else height / 2
  }

  /** A non-negative radius stays non-negative, and two radii fit across the box. */
  lemma AdjustedRadiusFits(radius: int, width: int, height: int)
    requires width > 0 && height > 0 && radius >= 0
    ensures var r := AdjustedRadius(radius, width, height);
            0 <= r && 2 * r <= width && 2 * r <= height
  {
  }

  /** The five fills, in the order they are issued: centre, top, bottom, left, right. */
  function Fills(x: int, y: int, width: int, height: int, r: int): (rs: seq<Rect>)
    ensures |rs| == 5
  {
    [ Rect(x + r, y + r, x + width - r, y + height - r),
      Rect(x + r, y, x + width - r, y + r),
      Rect(x + r, y + height - r, x + width - r, y + height),
      Rect(x, y + r, x + r, y + height - r),
      Rect(x + width - r, y + r, x + width, y + height - r) ]
  }

  predicate Covers(rect: Rect, px: int, py: int) {
    rect.x1 <= px < rect.x2 && rect.y1 <= py < rect.y2
  }

  /** How many of the rectangles cover pixel (px, py). */
  function Coverage(rs: seq<Rect>, px: int, py: int): (n: nat)
    ensures n <= |rs|
  {
    if rs == [] then 0
    else (if Covers(rs[0], px, py) then 1 else 0) + Coverage(rs[1..], px, py)
  }

  /** Pixel (px, py) is in one of the four r x r corner squares of the box. */
  predicate InCorner(x: int, y: int, width: int, height: int, r: int, px: int, py: int) {
    (px < x + r || px >= x + width - r) && (py < y + r || py >= y + height - r)
  }

  predicate InBox(x: int, y: int, width: int, height: int, px: int, py: int) {
    x <= px < x + width && y <= py < y + height
  }

  /** Every fill has its corners in order and lies inside the box. */
  lemma FillsInsideBox(x: int, y: int, width: int, height: int, r: int)
    requires 0 <= r && 2 * r <= width && 2 * r <= height
    ensures forall i :: 0 <= i < 5 ==>
              var f := Fills(x, y, width, height, r)[i];
              x <= f.x1 <= f.x2 <= x + width && y <= f.y1 <= f.y2 <= y + height
  {
  }

  /**
   * The five fills do not overlap and cover exactly the box minus the four
   * corner squares: every pixel is covered once there and nowhere else.
   */
  lemma {:induction false} FillsTileBoxMinusCorners(x: int, y: int, width: int, height: int, r: int, px: int, py: int)
    requires 0 <= r && 2 * r <= width && 2 * r <= height
    ensures Coverage(Fills(x, y, width, height, r), px, py)
            == if InBox(x, y, width, height, px, py) && !InCorner(x, y, width, height, r, px, py) then 1 else 0
  {
    var rs := Fills(x, y, width, height, r);
    var c := seq(5, i requires 0 <= i < 5 => if Covers(rs[i], px, py) then 1 else 0);
    assert Coverage(rs[5..], px, py) == 0;
    assert Coverage(rs[4..], px, py) == c[4] by { assert rs[4..][1..] == rs[5..]; }
    assert Coverage(rs[3..], px, py) == c[3] + c[4] by { assert rs[3..][1..] == rs[4..]; }
    assert Coverage(rs[2..], px, py) == c[2] + c[3] + c[4] by { assert rs[2..][1..] == rs[3..]; }
    assert Coverage(rs[1..], px, py) == c[1] + c[2] + c[3] + c[4] by { assert rs[1..][1..] == rs[2..]; }
    assert Coverage(rs, px, py) == c[0] + c[1] + c[2] + c[3] + c[4];
  }

  /** The pixels covered by the rounded rectangle's fills when the radius is zero: the whole box. */
  lemma ZeroRadiusFillsBox(x: int, y: int, width: int, height: int, px: int, py: int)
    requires width > 0 && height > 0
    ensures Coverage(Fills(x, y, width, height, 0), px, py) == if InBox(x, y, width, height, px, py) then 1 else 0
  {
    FillsTileBoxMinusCorners(x, y, width, height, 0, px, py);
  }
}
