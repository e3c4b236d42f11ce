/**
 * Vectors, the per-axis layout law, the inclusive hit test and the
 * Double-to-Int conversion used when coordinates reach the renderer.
 *
 * Coordinates are `real`: the model excludes NaN and infinities and does not
 * model IEEE rounding.
 */
module Geometry {
  import opened Options

  /** A 2D vector (`V2` in Math.kt); used for alignment and origin. */
  datatype V2 = V2(x: real, y: real)

  /** A 3D vector (`V3` in Math.kt); `z` is only a depth slot. */
  datatype V3 = V3(x: real, y: real, z: real)

  /** The x and y of a location: what layout computes and what the renderers read. */
  function At(v: V3): V2 {
    V2(v.x, v.y)
  }

  /** `TOP_LEFT`: alignment and origin (0, 0). */
  const TopLeft := V2(0.0, 0.0)

  const Zero3 := V3(0.0, 0.0, 0.0)

  const IntMin: int := -0x8000_0000
  const IntMax: int := 0x7FFF_FFFF

  /** A value of Kotlin's 32-bit `Int`. */
  predicate IsInt32(n: int) {
    IntMin <= n <= IntMax
  }

  const Word: int := 0x1_0000_0000

  /** The 32-bit two's-complement pattern of an Int, read as an unsigned number. */
  function Unsigned(n: int): (u: int)
    requires IsInt32(n)
    ensures 0 <= u < Word
    ensures n >= 0 ==> u == n
    ensures n < 0 ==> u == n + Word
  {
    if n < 0 then n + Word else n
  }

  /** The magnitude of a real, used to state truncation toward zero. */
  function Abs(d: real): real {
    if d < 0.0 then -d else d
  }

  /**
   * Kotlin `Double.toInt()`: truncation toward zero, saturating at the bounds
   * of `Int`.
   */
  function ToInt(d: real): (n: int)
    ensures IsInt32(n)
    // inside the range of Int, the result is d with its fraction dropped
    ensures IntMin as real <= d <= IntMax as real ==>
              Abs(n as real) <= Abs(d) < Abs(n as real) + 1.0 && (n < 0 ==> d < 0.0) && (n > 0 ==> d > 0.0)
    ensures d >= IntMax as real ==> n == IntMax
    ensures d <= IntMin as real ==> n == IntMin
    // the renderers' "non-positive size" test
    ensures n > 0 <==> d >= 1.0
  {
    if d >= IntMax as real then IntMax
    else if d <= IntMin as real then IntMin
    else if d >= 0.0 then d.Floor
    else -((-d).Floor)
  }

  /**
   * `calculateAbsolutePosition` (one axis): the parent's extent scaled by the
   * alignment, minus the element's extent scaled by its origin, plus the
   * parent's render location (0 without a parent) and the element's offset.
   */
  function AbsolutePosition(parentSize: real, size: real, align: real, origin: real,
                            parentLocation: real, offset: real): (p: real)
    // the element's origin point lands on the parent's alignment point
    ensures p + size * origin == parentLocation + parentSize * align + offset
  {
    parentSize * align - size * origin + parentLocation + offset
  }

  /**
   * `calculateRenderLocation`: x and y by the layout law, z keeps its
   * previous value. `parentLocation` is None when there is no parent.
   */
  function RenderLocation(parentSize: V3, parentLocation: Option<V3>, size: V3, align: V2,
                          origin: V2, offset: V3, previous: V3): (r: V3)
    ensures r.z == previous.z
    ensures r.x == AbsolutePosition(parentSize.x, size.x, align.x, origin.x,
                                    if parentLocation.Some? then parentLocation.value.x else 0.0, offset.x)
    ensures r.y == AbsolutePosition(parentSize.y, size.y, align.y, origin.y,
                                    if parentLocation.Some? then parentLocation.value.y else 0.0, offset.y)
  {
    var base := if parentLocation.Some? then parentLocation.value else Zero3;
    V3(AbsolutePosition(parentSize.x, size.x, align.x, origin.x, base.x, offset.x),
       AbsolutePosition(parentSize.y, size.y, align.y, origin.y, base.y, offset.y),
       previous.z)
  }

  /**
   * With alignment equal to origin in [0, 1], no offset and an element no
   * larger than its parent, the element lies inside the parent's extent.
   */
  lemma {:induction false} AlignedInsideParent(parentSize: real, size: real, a: real, parentLocation: real)
    requires 0.0 <= a <= 1.0 && 0.0 <= size <= parentSize
    ensures var p := AbsolutePosition(parentSize, size, a, a, parentLocation, 0.0);
            parentLocation <= p && p + size <= parentLocation + parentSize
  {
    var p := AbsolutePosition(parentSize, size, a, a, parentLocation, 0.0);
    assert p == parentLocation + (parentSize - size) * a;
    var slack := parentSize - size;
    MulNonNegative(slack, a);
    MulNonNegative(slack, 1.0 - a);
    assert slack * (1.0 - a) == slack - slack * a;
  }

  lemma MulNonNegative(x: real, y: real)
    requires x >= 0.0 && y >= 0.0
    ensures x * y >= 0.0
  {
  }

  /** Centring: with align = origin = 1/2 the element's midpoint is the parent's midpoint. */
  lemma Centred(parentSize: real, size: real, parentLocation: real, offset: real)
    ensures AbsolutePosition(parentSize, size, 0.5, 0.5, parentLocation, offset) + size / 2.0
            == parentLocation + parentSize / 2.0 + offset
  {
  }

  /** Moving the parent by d moves the element by d (the law is translation-invariant). */
  lemma Translated(parentSize: real, size: real, align: real, origin: real,
                   parentLocation: real, offset: real, d: real)
    ensures AbsolutePosition(parentSize, size, align, origin, parentLocation + d, offset)
            == AbsolutePosition(parentSize, size, align, origin, parentLocation, offset) + d
  {
  }

  /**
   * `isHovered`: the closed box that starts at location + offset and spans
   * size, on both axes, bounds included.
   */
  predicate InsideBox(location: V3, offset: V3, size: V3, mouseX: real, mouseY: real)
    // only a box of non-negative size holds a point
    ensures InsideBox(location, offset, size, mouseX, mouseY) ==> 0.0 <= size.x && 0.0 <= size.y
    // the start corner is inside exactly when the size is non-negative: the bounds are inclusive
    ensures mouseX == location.x + offset.x && mouseY == location.y + offset.y ==>
              (InsideBox(location, offset, size, mouseX, mouseY) <==> 0.0 <= size.x && 0.0 <= size.y)
  {
    location.x + offset.x <= mouseX <= location.x + offset.x + size.x &&
    location.y + offset.y <= mouseY <= location.y + offset.y + size.y
  }

  /** A box with a negative extent on either axis contains no point. */
  lemma NegativeSizeNeverHovered(location: V3, offset: V3, size: V3, mouseX: real, mouseY: real)
    requires size.x < 0.0 || size.y < 0.0
    ensures !InsideBox(location, offset, size, mouseX, mouseY)
  {
  }

  /** The four corners of the box are inside it when the size is non-negative. */
  lemma CornersInside(location: V3, offset: V3, size: V3)
    requires size.x >= 0.0 && size.y >= 0.0
    ensures InsideBox(location, offset, size, location.x + offset.x, location.y + offset.y)
    ensures InsideBox(location, offset, size, location.x + offset.x + size.x, location.y + offset.y + size.y)
  {
  }
}
