/** Detection rectangles, the overlap score of the greedy association and the
    acceptance threshold. `Rect::intersect` and the `DetectionRect` constructor
    are not part of this model: they are supplied as the functions of `RectOps`. */
module Geometry {

  /** An axis-aligned box. The corners are the primary coordinates; `width` and
      `height` are stored fields that the tracker keeps equal to `x2 - x1` and
      `y2 - y1` when it sets them; `angle` and `scale` are passed through. */
  datatype DetectionRect = DetectionRect(
    x1: int, y1: int, x2: int, y2: int,
    width: int, height: int,
    angle: real, scale: real)

  /** The four tracked coordinates `(x1, y1, x2, y2)`. */
  datatype Corners = Corners(x1: int, y1: int, x2: int, y2: int)

  function CornersOf(d: DetectionRect): Corners
  {
    Corners(d.x1, d.y1, d.x2, d.y2)
  }

  /** `width * height` of a box, as the matcher computes both areas. */
  function Area(d: DetectionRect): int
  {
    d.width * d.height
  }

  /** The operations of the rectangle library that the tracker calls. */
  datatype RectOps = RectOps(
    intersect: (DetectionRect, DetectionRect) -> nat,
    make: (int, int, int, int, real, real) -> DetectionRect)

  /** A `double` ratio `inter / area` with `inter > 0`: positive infinity when the
      area is zero, an ordinary (possibly negative) value otherwise. */
  datatype Score = Finite(value: real) | Infinite

  /** `a > b` on doubles */
  predicate Gt(a: Score, b: Score)
  {
    match (a, b)
    case (Infinite, Finite(_)) => true
    case (Finite(x), Finite(y)) => x > y
    case _ => false
  }

  /** `std::max<double>(a, b)`, which is `(a < b) ? b : a` */
  function MaxScore(a: Score, b: Score): (r: Score)
    ensures !Gt(a, r) && !Gt(b, r)
    ensures r == a || r == b
  {
    if Gt(b, a) then b else a
  }

  /** `(double)inter / area`; the matcher computes it only for a positive
      intersection, so the NaN of `0.0 / 0.0` never arises there. */
  function Ratio(inter: nat, area: int): (r: Score)
    ensures area > 0 ==> r.Finite? && r.value * area as real == inter as real && r.value >= 0.0
  {
    if area == 0 then Infinite else Finite(inter as real / area as real)
  }

  /** `max(inter / detArea, inter / trackArea)` */
  function MatchScore(inter: nat, det: DetectionRect, track: DetectionRect): (r: Score)
    ensures r == Ratio(inter, Area(det)) || r == Ratio(inter, Area(track))
    ensures !Gt(Ratio(inter, Area(det)), r) && !Gt(Ratio(inter, Area(track)), r)
  {
    MaxScore(Ratio(inter, Area(det)), Ratio(inter, Area(track)))
  }

  const MATCH_THRESHOLD: real := 0.20
  const NO_SCORE: Score := Finite(0.0)

  /** `Gt` is a strict total order: irreflexive, transitive, and any two
      scores neither of which exceeds the other are equal. */
  lemma GtTransitive(a: Score, b: Score, c: Score)
    ensures !Gt(a, a)
    ensures Gt(a, b) && Gt(b, c) ==> Gt(a, c)
    ensures !Gt(a, b) && !Gt(b, c) ==> !Gt(a, c)
    ensures Gt(a, b) && !Gt(c, b) ==> Gt(a, c)
    ensures !Gt(a, b) && Gt(c, b) ==> Gt(c, a)
    ensures !Gt(a, b) && !Gt(b, a) ==> a == b
  {
  }

  /** For a positive area the ratio is above the threshold exactly when five
      times the intersection exceeds the area. */
  lemma RatioAboveThreshold(inter: nat, area: int)
    requires area > 0
    ensures Gt(Ratio(inter, area), Finite(MATCH_THRESHOLD)) <==> 5 * inter > area
  {
    var i, a := inter as real, area as real;
    var r := i / a;
    assert r * a == i;
    if r > MATCH_THRESHOLD {
      ProductPositive(r - MATCH_THRESHOLD, a);
      assert (r - MATCH_THRESHOLD) * a == r * a - MATCH_THRESHOLD * a;
      assert 5.0 * i > a;
    } else {
      ProductPositive(MATCH_THRESHOLD - r, a);
      assert (MATCH_THRESHOLD - r) * a == MATCH_THRESHOLD * a - r * a;
      assert 5.0 * i <= a;
    }
  }

  lemma ProductPositive(x: real, y: real)
    requires y > 0.0
    ensures x > 0.0 ==> x * y > 0.0
    ensures x >= 0.0 ==> x * y >= 0.0
  {
  }

  /** A detection and a track of positive areas score above the threshold
      exactly when the intersection covers more than a fifth of either box. */
  lemma MatchScoreAboveThreshold(inter: nat, det: DetectionRect, track: DetectionRect)
    requires Area(det) > 0 && Area(track) > 0
    ensures Gt(MatchScore(inter, det, track), Finite(MATCH_THRESHOLD))
        <==> 5 * inter > Area(det) || 5 * inter > Area(track)
  {
    RatioAboveThreshold(inter, Area(det));
    RatioAboveThreshold(inter, Area(track));
  }

  /** A degenerate (zero-area) box gives an infinite ratio, so it passes any
      finite threshold once the intersection is positive. */
  lemma ZeroAreaAlwaysAboveThreshold(inter: nat, det: DetectionRect, track: DetectionRect)
    requires inter > 0
    requires Area(det) == 0
    ensures MatchScore(inter, det, track) == Infinite
    ensures Gt(MatchScore(inter, det, track), Finite(MATCH_THRESHOLD))
  {
  }
}
