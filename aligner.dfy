/** The integer part of the face aligner: the eye centers it starts from, how far
    the face box may be padded inside the image, and the translation of the eye
    coordinates when the face is cropped. Rotation, the strict face box and the
    image work are not part of this model. */
module Alignment {
  import opened Geometry

  /** `cv::Point2i` */
  datatype Point = Point(x: int, y: int)

  /** The size of the whole input image. */
  datatype ImageSize = ImageSize(width: int, height: int)

  /** `cv::Rect(x, y, width, height)` */
  datatype Window = Window(x: int, y: int, width: int, height: int)

  function Min(a: int, b: int): (m: int)
    ensures m <= a && m <= b
    ensures m == a || m == b
  {
    if b < a then b else a
  }

  function Abs(a: int): nat
  {
    if a < 0 then -a else a
  }

  /** How far the box may grow on every side and stay inside the image: the
      smallest of its four margins (left, right, top, bottom). */
  function MaxPadding(im: ImageSize, r: DetectionRect): (mp: int)
    ensures mp <= r.x1 && mp <= im.width - r.x2 - 1
    ensures mp <= r.y1 && mp <= im.height - r.y2 - 1
    ensures mp == r.x1 || mp == im.width - r.x2 - 1 || mp == r.y1 || mp == im.height - r.y2 - 1
  {
    Min(r.x1, Min(im.width - r.x2 - 1, Min(r.y1, im.height - r.y2 - 1)))
  }

  /** A padding fits the image exactly when it is at most `MaxPadding`. */
  lemma PaddingFits(im: ImageSize, r: DetectionRect, p: int)
    ensures p <= MaxPadding(im, r) <==>
      (p <= r.x1 && p <= im.width - r.x2 - 1 && p <= r.y1 && p <= im.height - r.y2 - 1)
  {
  }

  /** The padding limited to half the face width: `mp > width * 0.5` on doubles
      is `2 * mp > width` on integers, and `floor(width * 0.5)` is `width / 2`
      (Euclidean division by 2 rounds down). */
  function ClampPadding(mp: int, width: int): (p: int)
    ensures 2 * p <= width
    ensures p <= mp
    ensures 2 * mp <= width ==> p == mp
  {
    if 2 * mp > width then width / 2 else mp
  }

  /** The clamp is the smaller of the padding and half the width, rounded down. */
  lemma ClampIsMin(mp: int, width: int)
    ensures ClampPadding(mp, width) == Min(mp, width / 2)
  {
    if 2 * mp > width {
      assert width / 2 < mp;
    } else {
      assert mp <= width / 2;
    }
  }

  /** `round(s / 2.)`: the nearest integer to `s / 2`, halves rounded away from
      zero. */
  function RoundHalf(s: int): (r: int)
    ensures -1 <= 2 * r - s <= 1
    ensures Abs(2 * r) >= Abs(s)
  {
    if s % 2 == 0 then s / 2 else if s > 0 then (s + 1) / 2 else (s - 1) / 2
  }

  /** No integer is nearer to `s / 2` than `RoundHalf(s)`. */
  lemma RoundHalfIsNearest(s: int, n: int)
    ensures Abs(2 * RoundHalf(s) - s) <= Abs(2 * n - s)
  {
    var r := RoundHalf(s);
    if s % 2 == 0 {
      assert 2 * r == s;
    } else {
      assert 2 * n != s;
    }
  }

  /** Rounding a midpoint keeps the order of the sums. */
  lemma RoundHalfMonotone(s: int, t: int)
    requires s <= t
    ensures RoundHalf(s) <= RoundHalf(t)
  {
  }

  /** The rounded center of a rectangle's x-range and y-range. */
  function Center(d: DetectionRect): (c: Point)
    ensures -1 <= 2 * c.x - (d.x1 + d.x2) <= 1
    ensures -1 <= 2 * c.y - (d.y1 + d.y2) <= 1
  {
    Point(RoundHalf(d.x1 + d.x2), RoundHalf(d.y1 + d.y2))
  }

  /** The index of the left eye among the first two: the one whose `x1` is
      strictly smaller, `eyes[1]` on a tie. */
  function LeftIndex(eyes: seq<DetectionRect>): (i: nat)
    requires |eyes| >= 2
    ensures i == 0 || i == 1
    ensures eyes[i].x1 <= eyes[1 - i].x1
    ensures i == 0 <==> eyes[0].x1 < eyes[1].x1
  {
    if eyes[0].x1 < eyes[1].x1 then 0 else 1
  }

  /** The centers of the left and the right eye. */
  function EyeCenters(eyes: seq<DetectionRect>): (c: (Point, Point))
    requires |eyes| >= 2
    ensures c.0 == Center(eyes[LeftIndex(eyes)]) && c.1 == Center(eyes[1 - LeftIndex(eyes)])
  {
    var i := LeftIndex(eyes);
    (Center(eyes[i]), Center(eyes[1 - i]))
  }

  /** Unless the two eyes start at the same column, listing them the other way
      round gives the same centers; only the first two detections matter. */
  lemma EyeCentersOrderFree(eyes: seq<DetectionRect>, others: seq<DetectionRect>)
    requires |eyes| >= 2 && eyes[0].x1 != eyes[1].x1
    ensures EyeCenters([eyes[1], eyes[0]] + others) == EyeCenters(eyes)
  {
    var swapped := [eyes[1], eyes[0]] + others;
    assert swapped[0] == eyes[1] && swapped[1] == eyes[0];
  }

  /** For two eyes of the same width, the left eye's center is not to the right
      of the right eye's. */
  lemma LeftCenterIsLeft(eyes: seq<DetectionRect>)
    requires |eyes| >= 2
    requires eyes[0].x2 - eyes[0].x1 == eyes[1].x2 - eyes[1].x1
    ensures EyeCenters(eyes).0.x <= EyeCenters(eyes).1.x
  {
    var i := LeftIndex(eyes);
    RoundHalfMonotone(eyes[i].x1 + eyes[i].x2, eyes[1 - i].x1 + eyes[1 - i].x2);
  }

  /** A point seen from a window whose corner is `(dx, dy)`. */
  function Translate(p: Point, dx: int, dy: int): Point
  {
    Point(p.x - dx, p.y - dy)
  }

  /** The vector from `p` to `q`. */
  function Sub(q: Point, p: Point): Point
  {
    Point(q.x - p.x, q.y - p.y)
  }

  /** The part of the image that is cut out: the face box grown by `mp` on every
      side. */
  function CropWindow(r: DetectionRect, mp: int): Window
  {
    Window(r.x1 - mp, r.y1 - mp, r.width + 2 * mp, r.height + 2 * mp)
  }

  /** The padding actually used by `getAligned`. */
  function CropPadding(im: ImageSize, r: DetectionRect): (p: int)
    ensures p <= r.x1 && p <= r.y1 && 2 * p <= r.width
  {
    ClampPadding(MaxPadding(im, r), r.width)
  }

  /** With the padding used, the window starts inside the image, so the offsets
      passed as `unsigned int` to `updateEyes` keep their value; when the box is
      no wider or taller than its corners span, the window also ends inside. */
  lemma CropInsideImage(im: ImageSize, r: DetectionRect)
    ensures var w := CropWindow(r, CropPadding(im, r));
      w.x >= 0 && w.y >= 0
    ensures var w := CropWindow(r, CropPadding(im, r));
      (r.width <= r.x2 - r.x1 + 1 ==> w.x + w.width <= im.width)
      && (r.height <= r.y2 - r.y1 + 1 ==> w.y + w.height <= im.height)
  {
    var mp := MaxPadding(im, r);
    assert CropPadding(im, r) <= mp;
  }

  class Aligner {
    /** Coordinates of the eye centers. */
    var lEye: Point
    var rEye: Point
    /** The whole input image and the face box within it. */
    const im: ImageSize
    const r: DetectionRect

    constructor(im: ImageSize, r: DetectionRect, eyes: seq<DetectionRect>)
      requires |eyes| >= 2
      ensures this.im == im && this.r == r
      ensures (lEye, rEye) == EyeCenters(eyes)
    {
      this.im := im;
      this.r := r;
      new;
      ComputeEyeCenters(eyes);
    }

    /** Sets the eye centers from the first two eye detections. */
    method ComputeEyeCenters(eyes: seq<DetectionRect>)
      requires |eyes| >= 2
      modifies this
      ensures (lEye, rEye) == EyeCenters(eyes)
    {
      var lIdx, rIdx;
      if eyes[0].x1 < eyes[1].x1 {
        lIdx, rIdx := 0, 1;
      } else {
        lIdx, rIdx := 1, 0;
      }
      lEye := Point(RoundHalf(eyes[lIdx].x1 + eyes[lIdx].x2), RoundHalf(eyes[lIdx].y1 + eyes[lIdx].y2));
      rEye := Point(RoundHalf(eyes[rIdx].x1 + eyes[rIdx].x2), RoundHalf(eyes[rIdx].y1 + eyes[rIdx].y2));
    }

    /** Makes the eye coordinates relative to a window whose corner is
        `(dx, dy)`; the vector between the eyes is unchanged. */
    method UpdateEyes(dx: nat, dy: nat)
      modifies this
      ensures lEye == Translate(old(lEye), dx, dy) && rEye == Translate(old(rEye), dx, dy)
      ensures Sub(rEye, lEye) == Sub(old(rEye), old(lEye))
    {
      lEye := Point(lEye.x - dx, lEye.y);
      lEye := Point(lEye.x, lEye.y - dy);
      rEye := Point(rEye.x - dx, rEye.y);
      rEye := Point(rEye.x, rEye.y - dy);
    }

    /** The cropping steps of `getAligned`: the padding limited to half the face
        width, the window cut out, and the eyes moved into its coordinates. */
    method Crop() returns (window: Window)
      modifies this
      ensures window == CropWindow(r, CropPadding(im, r))
      ensures window.x >= 0 && window.y >= 0
      ensures lEye == Translate(old(lEye), window.x, window.y)
      ensures rEye == Translate(old(rEye), window.x, window.y)
    {
      var mp := MaxPadding(im, r);
      if 2 * mp > r.width {
        mp := r.width / 2;
      }
      window := Window(r.x1 - mp, r.y1 - mp, r.width + 2 * mp, r.height + 2 * mp);
      UpdateEyes(-mp + r.x1, -mp + r.y1);
    }
  }
}
