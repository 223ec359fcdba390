/** The rectangles both benchmark scripts draw over a picture, and the padded
    detection box among them: the detector's box grown by the padding on every side
    and clamped into the image. Coordinates are integers; a box covers the points
    (x, y) with x1 <= x <= x2 and y1 <= y <= y2, as a PIL rectangle does. */
module PaddedBox {

  /** `(x1, y1, x2, y2)`, as the detector returns it. */
  datatype Box = Box(x1: int, y1: int, x2: int, y2: int)

  datatype Outline = Blue | Red

  /** One `draw.rectangle(box, outline=..., width=...)` call. */
  datatype Mark = Mark(box: Box, outline: Outline, width: nat)

  function Max(a: int, b: int): int
  {
    if a >= b then a else b
  }

  function Min(a: int, b: int): int
  {
    if a <= b then a else b
  }

  /** `nx1 = max(0, x1 - pad)`, `ny1 = max(0, y1 - pad)`, `nx2 = min(w, x2 + pad)`,
      `ny2 = min(h, y2 + pad)` for an image `w` wide and `h` high. */
  function Padded(b: Box, pad: int, w: int, h: int): Box
  {
    Box(Max(0, b.x1 - pad), Max(0, b.y1 - pad), Min(w, b.x2 + pad), Min(h, b.y2 + pad))
  }

  /** The box grown by `pad` on every side, not clamped. */
  function Grown(b: Box, pad: int): Box
  {
    Box(b.x1 - pad, b.y1 - pad, b.x2 + pad, b.y2 + pad)
  }

  /** The whole image as a box. */
  function ImageBox(w: int, h: int): Box
  {
    Box(0, 0, w, h)
  }

  predicate Covers(b: Box, x: int, y: int)
  {
    b.x1 <= x <= b.x2 && b.y1 <= y <= b.y2
  }

  /** Every edge of `b` lies within the image. */
  predicate InImage(b: Box, w: int, h: int)
  {
    0 <= b.x1 && 0 <= b.y1 && b.x2 <= w && b.y2 <= h
  }

  /** `inner` lies within `outer`. */
  predicate Within(inner: Box, outer: Box)
  {
    outer.x1 <= inner.x1 && outer.y1 <= inner.y1 && inner.x2 <= outer.x2 && inner.y2 <= outer.y2
  }

  /** The padded box never leaves the image. */
  lemma PaddedInImage(b: Box, pad: int, w: int, h: int)
    ensures InImage(Padded(b, pad, w, h), w, h)
  {
  }

  /** With a padding of at least 0 the padded box reaches at least as far as the
      box on every side where the box does not already stick out of the image. */
  lemma PaddedReachesBox(b: Box, pad: int, w: int, h: int)
    requires pad >= 0
    ensures var r := Padded(b, pad, w, h);
      && (b.x1 >= 0 ==> r.x1 <= b.x1) && (b.y1 >= 0 ==> r.y1 <= b.y1)
      && (b.x2 <= w ==> r.x2 >= b.x2) && (b.y2 <= h ==> r.y2 >= b.y2)
  {
  }

  /** So a box inside the image lies within its padded box, and that padded box is
      not inverted when the box is not. */
  lemma PaddedContainsBox(b: Box, pad: int, w: int, h: int)
    requires pad >= 0 && InImage(b, w, h)
    ensures Within(b, Padded(b, pad, w, h))
    ensures b.x1 <= b.x2 && b.y1 <= b.y2 ==>
      Padded(b, pad, w, h).x1 <= Padded(b, pad, w, h).x2 && Padded(b, pad, w, h).y1 <= Padded(b, pad, w, h).y2
  {
    PaddedReachesBox(b, pad, w, h);
  }

  /** The padded box covers exactly the points of the grown box that lie in the
      image: clamping is intersecting with the image. */
  lemma PaddedCovers(b: Box, pad: int, w: int, h: int, x: int, y: int)
    ensures Covers(Padded(b, pad, w, h), x, y) <==> Covers(Grown(b, pad), x, y) && Covers(ImageBox(w, h), x, y)
  {
  }

  /** A box that is at least `pad` away from every edge is just grown. */
  lemma PaddedAwayFromEdges(b: Box, pad: int, w: int, h: int)
    requires InImage(Grown(b, pad), w, h)
    ensures Padded(b, pad, w, h) == Grown(b, pad)
  {
  }

  /** A padding of 0 leaves a box inside the image as it is. */
  lemma PaddedByZero(b: Box, w: int, h: int)
    requires InImage(b, w, h)
    ensures Padded(b, 0, w, h) == b
  {
    PaddedAwayFromEdges(b, 0, w, h);
  }

  /** Clamping again changes nothing. */
  lemma PaddedIdempotent(b: Box, pad: int, w: int, h: int)
    ensures Padded(Padded(b, pad, w, h), 0, w, h) == Padded(b, pad, w, h)
  {
  }
}
