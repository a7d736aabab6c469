/** Bounding-box helpers of the frame processor: the size gate applied before
    temporal confirmation and the clamped expansion of a box around its centre
    (src/videos/eval/utils/file_processor.py, lines 12-29). */
module Geometry {

  /** A detector box after `map(int, ...)`: corners in image pixels. */
  datatype Box = Box(x1: int, y1: int, x2: int, y2: int)

  /** Default limits of `is_bounding_box_large_enough`. */
  const MinWidth: int := 20
  const MinHeight: int := 20
  const MaxWidth: int := 200
  const MaxHeight: int := 200

  /** The area fraction `expand_bounding_box` aims at, 0.1 taken exactly. */
  const ExpandFraction: real := 0.1

  function Width(b: Box): int { b.x2 - b.x1 }

  function Height(b: Box): int { b.y2 - b.y1 }

  /** The size gate with explicit limits, as the Python keyword arguments. */
  predicate WithinLimits(b: Box, minW: int, minH: int, maxW: int, maxH: int)
  {
    minW <= Width(b) <= maxW && minH <= Height(b) <= maxH
  }

  /** `is_bounding_box_large_enough` with its default limits. A box that passes
      has both extents positive, so the divisions of the expansion are defined. */
  predicate LargeEnough(b: Box)
    ensures LargeEnough(b) ==> b.x1 < b.x2 && b.y1 < b.y2
    ensures LargeEnough(b) ==> b.x2 - b.x1 + 1 != 0 && b.y2 - b.y1 + 1 != 0
  {
    WithinLimits(b, MinWidth, MinHeight, MaxWidth, MaxHeight)
  }

  /** The gate looks at extents only: shifting a box never changes its verdict,
      and the bounds are inclusive at both ends. */
  lemma {:induction false} GateIsInclusiveAndShiftInvariant(b: Box, dx: int, dy: int)
    ensures LargeEnough(b) <==> LargeEnough(Box(b.x1 + dx, b.y1 + dy, b.x2 + dx, b.y2 + dy))
    ensures LargeEnough(Box(0, 0, 20, 20)) && LargeEnough(Box(0, 0, 200, 200))
    ensures !LargeEnough(Box(0, 0, 19, 20)) && !LargeEnough(Box(0, 0, 20, 201))
  {
  }

  /** Python's `int()` on a float: truncation toward zero. */
  function Trunc(r: real): (t: int)
    ensures r >= 0.0 ==> t as real <= r < t as real + 1.0
    ensures r < 0.0 ==> t as real - 1.0 < r <= t as real
  {
    if r >= 0.0 then r.Floor else -((-r).Floor)
  }

  /** How far `expand_bounding_box` grows a box along each axis: the square root
      of the target area over the opposite extent plus one. The square root is a
      parameter: floating-point rounding is not modelled. */
  datatype Growth = Growth(width: real, height: real)

  function GrowthFor(b: Box, imgWidth: nat, imgHeight: nat, sqrt: real -> real): Growth
    requires b.x2 - b.x1 + 1 != 0 && b.y2 - b.y1 + 1 != 0
  {
    var area := (imgWidth * imgHeight) as real * ExpandFraction;
    Growth(sqrt(area / (Height(b) + 1) as real), sqrt(area / (Width(b) + 1) as real))
  }

  /** The clamping part of `expand_bounding_box`: grow each side by half the
      growth, clamp to the image and truncate. Whatever the growth, the result
      never leaves the image on the clamped sides. */
  function ExpandBox(b: Box, imgWidth: nat, imgHeight: nat, g: Growth): (e: Box)
    ensures 0 <= e.x1 && 0 <= e.y1
    ensures e.x2 <= imgWidth && e.y2 <= imgHeight
  {
    var x1 := if b.x1 as real - g.width / 2.0 >= 0.0 then b.x1 as real - g.width / 2.0 else 0.0;
    var y1 := if b.y1 as real - g.height / 2.0 >= 0.0 then b.y1 as real - g.height / 2.0 else 0.0;
    var x2 := if b.x2 as real + g.width / 2.0 <= imgWidth as real then b.x2 as real + g.width / 2.0 else imgWidth as real;
    var y2 := if b.y2 as real + g.height / 2.0 <= imgHeight as real then b.y2 as real + g.height / 2.0 else imgHeight as real;
    Box(Trunc(x1), Trunc(y1), Trunc(x2), Trunc(y2))
  }

  /** For a box inside the image and a non-negative growth, the expanded box
      contains the original one and lies inside the image. */
  lemma {:induction false} ExpandContains(b: Box, imgWidth: nat, imgHeight: nat, g: Growth)
    requires 0 <= b.x1 <= b.x2 <= imgWidth && 0 <= b.y1 <= b.y2 <= imgHeight
    requires g.width >= 0.0 && g.height >= 0.0
    ensures var e := ExpandBox(b, imgWidth, imgHeight, g);
      0 <= e.x1 <= b.x1 && b.x2 <= e.x2 <= imgWidth
      && 0 <= e.y1 <= b.y1 && b.y2 <= e.y2 <= imgHeight
  {
  }
}
