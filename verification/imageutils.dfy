/**
 The image helpers of `imageUtils.ts`: the size an uploaded image is scaled to before
 face detection (the longer side brought down to at most `maxSize`, the other side
 scaled in proportion and rounded), and the `1 − distance` similarity.
 */
module ImageUtils {
  import opened Numerics

  /** An image's size in pixels. */
  datatype Dimensions = Dimensions(width: nat, height: nat)

  /** The default and `processImage`'s bound on the longer side. */
  const DefaultMaxSize: nat := 640

  /** A quotient by a positive number stays below m when the dividend stays below
      m times the divisor. */
  lemma QuotientAtMost(x: real, l: real, m: real)
    requires 0.0 < l && x <= m * l
    ensures x / l <= m
  {
    var q := x / l;
    assert q * l == x;
    if q > m {
      MulLeftStrict(m, q, l);
    }
  }

  /** A fraction at most one of a non-negative bound stays within the bound. */
  lemma ScaledWithin(s: real, l: real, m: real)
    requires 0.0 <= s <= l && 0.0 < l && 0.0 <= m
    ensures 0.0 <= s * m / l <= m
  {
    MulNonNegative(s, m);
    DivByPositive(s * m, l);
    MulLeft(s, l, m);
    assert l * m == m * l;
    QuotientAtMost(s * m, l, m);
  }

  /** The exact (unrounded) length of a side scaled by maxSize / longer. */
  function ExactScaled(side: nat, longer: nat, maxSize: nat): real
    requires 0 < longer
  {
    (side * maxSize) as real / longer as real
  }

  /** The shorter side scaled by the same factor that brings the longer side to
      `maxSize`, rounded to a whole pixel; it never exceeds `maxSize`, and it is
      within half a pixel of the exact proportion. */
  function ScaledSide(side: nat, longer: nat, maxSize: nat): (r: nat)
    requires side <= longer && 0 < longer
    ensures r <= maxSize
    ensures r as real - 0.5 <= ExactScaled(side, longer, maxSize) < r as real + 0.5
  {
    var exact := ExactScaled(side, longer, maxSize);
    ScaledWithin(side as real, longer as real, maxSize as real);
    assert exact == side as real * maxSize as real / longer as real;
    RoundWithin(exact, 0, maxSize);
    Round(exact)
  }

  /** `resizeImage(image, maxSize)`'s arithmetic: a landscape image (width > height)
      wider than `maxSize` gets width `maxSize`; otherwise an image taller than
      `maxSize` gets height `maxSize`; the other side is scaled in proportion. */
  function Resize(d: Dimensions, maxSize: nat): (r: Dimensions)
    ensures r.width <= maxSize || r.width == d.width
    ensures r.height <= maxSize || r.height == d.height
    ensures d.width > d.height && d.width > maxSize ==>
              r.width == maxSize && r.height == ScaledSide(d.height, d.width, maxSize)
    ensures d.width <= d.height && d.height > maxSize ==>
              r.height == maxSize && r.width == ScaledSide(d.width, d.height, maxSize)
  {
    if d.width > d.height then
      if d.width > maxSize then Dimensions(maxSize, ScaledSide(d.height, d.width, maxSize)) else d
    else
      if d.height > maxSize then Dimensions(ScaledSide(d.width, d.height, maxSize), maxSize) else d
  }

  /** An image that already fits is left alone, and only such an image is. */
  lemma ResizeFits(d: Dimensions, maxSize: nat)
    ensures Resize(d, maxSize) == d <==> d.width <= maxSize && d.height <= maxSize
  {
  }

  /** Whatever the input, both output sides are within `maxSize`. */
  lemma ResizeBounded(d: Dimensions, maxSize: nat)
    ensures Resize(d, maxSize).width <= maxSize && Resize(d, maxSize).height <= maxSize
  {
  }

  /** Scaling keeps the orientation: the longer side stays at least as long. */
  lemma ResizeKeepsOrientation(d: Dimensions, maxSize: nat)
    ensures d.width > d.height ==> Resize(d, maxSize).width >= Resize(d, maxSize).height
    ensures d.width <= d.height ==> Resize(d, maxSize).width <= Resize(d, maxSize).height
  {
  }

  /** Resizing an already resized image changes nothing. */
  lemma ResizeIdempotent(d: Dimensions, maxSize: nat)
    ensures Resize(Resize(d, maxSize), maxSize) == Resize(d, maxSize)
  {
    ResizeBounded(d, maxSize);
    ResizeFits(Resize(d, maxSize), maxSize);
  }

  /** `processImage` resizes only when a side exceeds 640. */
  function Preprocess(d: Dimensions): (r: Dimensions)
    ensures r.width <= DefaultMaxSize && r.height <= DefaultMaxSize
  {
    ResizeBounded(d, DefaultMaxSize);
    if d.width > DefaultMaxSize || d.height > DefaultMaxSize then Resize(d, DefaultMaxSize) else d
  }

  /** The trigger in `processImage` is redundant with the check inside `resizeImage`:
      preprocessing is exactly resizing with the default bound. */
  lemma PreprocessIsResize(d: Dimensions)
    ensures Preprocess(d) == Resize(d, DefaultMaxSize)
  {
    ResizeFits(d, DefaultMaxSize);
  }

  /** `calculateSimilarity`: one minus the Euclidean distance. It is at most 1 for any
      distance, and exactly 1 at distance 0. */
  function UnitDistanceSimilarity(distance: real): (s: real)
    ensures 0.0 <= distance ==> s <= 1.0
    ensures distance == 0.0 <==> s == 1.0
  {
    1.0 - distance
  }

  /** A smaller distance gives a higher similarity, and conversely. */
  lemma UnitDistanceSimilarityOrder(a: real, b: real)
    ensures a <= b <==> UnitDistanceSimilarity(b) <= UnitDistanceSimilarity(a)
  {
  }
}
