/** The synthetic sample builder of the generator script: the channel edits on the
    RGBA watermark, the size it is scaled to, where it is pasted, the binary mask,
    the polygons read off that mask and the label file written for them.

    Pixels are integers in [0, 255]. Images are `array2`s where the script edits a
    NumPy array in place, and rectangular `seq<seq<_>>` grids where a value is
    passed along or stored. OpenCV's resize, blur, recolouring, contour search and
    the floating-point blend are parameters whose internals the model leaves open. */
module ImageGenerator {
  import opened Seqs
  import opened Decimal
  import opened LabelText
  import PrepareDataset

  type Byte = x: int | 0 <= x < 256

  /** A pixel of a 3-channel OpenCV image, in OpenCV's B, G, R order. */
  datatype Bgr = Bgr(b: Byte, g: Byte, r: Byte)

  /** A pixel of a 4-channel image: B, G, R and alpha. */
  datatype Bgra = Bgra(b: Byte, g: Byte, r: Byte, a: Byte)

  // ---------------------------------------------------------------------------
  // Grids

  predicate IsGrid<T>(g: seq<seq<T>>, h: int, w: int)
  {
    |g| == h && forall i :: 0 <= i < h ==> |g[i]| == w
  }

  function Width<T>(g: seq<seq<T>>): nat
  {
    if g == [] then 0 else |g[0]|
  }

  /** What `cv2.imread` yields: at least one row and one column, all rows alike. */
  predicate IsImage<T>(g: seq<seq<T>>)
  {
    |g| >= 1 && Width(g) >= 1 && IsGrid(g, |g|, Width(g))
  }

  /** The pixels of an array, row by row. */
  function Grid<T>(a: array2<T>): (g: seq<seq<T>>)
    reads a
    ensures IsGrid(g, a.Length0, a.Length1)
    ensures forall i, j :: 0 <= i < a.Length0 && 0 <= j < a.Length1 ==> g[i][j] == a[i, j]
  {
    seq(a.Length0, i requires 0 <= i < a.Length0 reads a =>
      seq(a.Length1, j requires 0 <= j < a.Length1 reads a => a[i, j]))
  }

  /** Two grids of one shape with the same pixels are the same grid. */
  lemma GridsEqual<T>(g1: seq<seq<T>>, g2: seq<seq<T>>, h: int, w: int)
    requires IsGrid(g1, h, w) && IsGrid(g2, h, w)
    requires forall i, j :: 0 <= i < h && 0 <= j < w ==> g1[i][j] == g2[i][j]
    ensures g1 == g2
  {
    forall i | 0 <= i < h ensures g1[i] == g2[i] {
      assert forall j :: 0 <= j < w ==> g1[i][j] == g2[i][j];
    }
  }

  /** A fresh array holding the pixels of a grid (`img.copy()`, or the array an
      OpenCV call returns). */
  method FromGrid<T>(g: seq<seq<T>>, h: nat, w: nat) returns (a: array2<T>)
    requires IsGrid(g, h, w)
    ensures fresh(a)
    ensures a.Length0 == h && a.Length1 == w
    ensures Grid(a) == g
  {
    a := new T[h, w]((i, j) requires 0 <= i < h && 0 <= j < w => g[i][j]);
    GridsEqual(Grid(a), g, h, w);
  }

  // ---------------------------------------------------------------------------
  // Channel edits on the watermark

  /** A colour pixel with an opaque alpha channel added. */
  function Opaque(p: Bgr): (q: Bgra)
    ensures q.a == 255
  {
    Bgra(p.b, p.g, p.r, 255)
  }

  /** The colour channels of a 4-channel pixel (`img[:, :, :3]`). */
  function ColourOf(q: Bgra): Bgr
  {
    Bgr(q.b, q.g, q.r)
  }

  /** Adding alpha keeps the colour channels. */
  lemma OpaqueKeepsColour(p: Bgr)
    ensures ColourOf(Opaque(p)) == p && Opaque(p).a == 255
  {
  }

  /** `cv2.bitwise_not` on the three colour channels: each value v becomes 255 - v. */
  function InvertColour(q: Bgra): (r: Bgra)
    ensures r.a == q.a
    ensures r.b + q.b == 255 && r.g + q.g == 255 && r.r + q.r == 255
  {
    Bgra(255 - q.b, 255 - q.g, 255 - q.r, q.a)
  }

  /** Lines 91-94: the three channels merged with a constant 255 alpha plane. The
      result has the shape of the colour image, alpha 255 everywhere and the old
      B, G, R. */
  function WithAlpha(g: seq<seq<Bgr>>): (r: seq<seq<Bgra>>)
    requires IsImage(g)
    ensures IsImage(r) && |r| == |g| && Width(r) == Width(g)
    ensures forall i, j :: 0 <= i < |g| && 0 <= j < Width(g) ==>
      r[i][j].a == 255 && ColourOf(r[i][j]) == g[i][j]
  {
    seq(|g|, i requires 0 <= i < |g| =>
      seq(Width(g), j requires 0 <= j < Width(g) => Opaque(g[i][j])))
  }

  /** `wm_curr[:, :, :3] = cv2.bitwise_not(wm_curr[:, :, :3])`, in place. */
  method InvertColours(wm: array2<Bgra>)
    modifies wm
    ensures forall i, j :: 0 <= i < wm.Length0 && 0 <= j < wm.Length1 ==>
      wm[i, j] == InvertColour(old(wm[i, j]))
  {
    var i := 0;
    while i < wm.Length0
      invariant 0 <= i <= wm.Length0
      invariant forall y, x :: 0 <= y < wm.Length0 && 0 <= x < wm.Length1 ==>
        wm[y, x] == if y < i then InvertColour(old(wm[y, x])) else old(wm[y, x])
    {
      var j := 0;
      while j < wm.Length1
        invariant 0 <= j <= wm.Length1
        invariant forall y, x :: 0 <= y < wm.Length0 && 0 <= x < wm.Length1 ==>
          wm[y, x] == if y < i || (y == i && x < j) then InvertColour(old(wm[y, x])) else old(wm[y, x])
      {
        wm[i, j] := InvertColour(wm[i, j]);
        j := j + 1;
      }
      i := i + 1;
    }
  }

  /** The grid form of the inversion. */
  function InvertGrid(g: seq<seq<Bgra>>): (r: seq<seq<Bgra>>)
    requires IsImage(g)
    ensures IsImage(r) && |r| == |g| && Width(r) == Width(g)
    ensures forall i, j :: 0 <= i < |g| && 0 <= j < Width(g) ==> r[i][j] == InvertColour(g[i][j])
  {
    seq(|g|, i requires 0 <= i < |g| =>
      seq(Width(g), j requires 0 <= j < Width(g) => InvertColour(g[i][j])))
  }

  /** One channel of `apply_random_color`: the drawn colour value scaled by the
      pixel's grey level divided by 255 (lines 63 and 66-67), truncated to a byte. */
  function TintChannel(c: Byte, level: Byte): (v: Byte)
    ensures v <= c && v * 255 <= c * level < (v + 1) * 255
    ensures level == 255 ==> v == c
  {
    MulLe(level, 255, c);
    assert c * level <= 255 * c;
    (c * level) / 255
  }

  /** `apply_random_color` for one pixel: every colour channel becomes the drawn
      colour's channel scaled by the pixel's grey level (`cv2.COLOR_BGR2GRAY`,
      `gray`); alpha is kept. */
  function TintPixel(q: Bgra, colour: Bgr, gray: Bgr -> Byte): (r: Bgra)
    ensures r.a == q.a
    ensures r.b <= colour.b && r.g <= colour.g && r.r <= colour.r
  {
    var level := gray(ColourOf(q));
    Bgra(TintChannel(colour.b, level), TintChannel(colour.g, level), TintChannel(colour.r, level), q.a)
  }

  /** Lines 64-67: the copy `result`, its three colour channels set in turn from
      the grey levels of the image, in place. */
  method ApplyRandomColor(img: array2<Bgra>, colour: Bgr, gray: Bgr -> Byte)
    modifies img
    ensures forall i, j :: 0 <= i < img.Length0 && 0 <= j < img.Length1 ==>
      img[i, j] == TintPixel(old(img[i, j]), colour, gray)
  {
    var i := 0;
    while i < img.Length0
      invariant 0 <= i <= img.Length0
      invariant forall y, x :: 0 <= y < img.Length0 && 0 <= x < img.Length1 ==>
        img[y, x] == if y < i then TintPixel(old(img[y, x]), colour, gray) else old(img[y, x])
    {
      var j := 0;
      while j < img.Length1
        invariant 0 <= j <= img.Length1
        invariant forall y, x :: 0 <= y < img.Length0 && 0 <= x < img.Length1 ==>
          img[y, x] == if y < i || (y == i && x < j) then TintPixel(old(img[y, x]), colour, gray) else old(img[y, x])
      {
        img[i, j] := TintPixel(img[i, j], colour, gray);
        j := j + 1;
      }
      i := i + 1;
    }
  }

  /** The grid form of the recolouring. */
  function TintGrid(g: seq<seq<Bgra>>, colour: Bgr, gray: Bgr -> Byte): (r: seq<seq<Bgra>>)
    requires IsImage(g)
    ensures IsImage(r) && |r| == |g| && Width(r) == Width(g)
    ensures forall i, j :: 0 <= i < |g| && 0 <= j < Width(g) ==> r[i][j] == TintPixel(g[i][j], colour, gray)
  {
    seq(|g|, i requires 0 <= i < |g| =>
      seq(Width(g), j requires 0 <= j < Width(g) => TintPixel(g[i][j], colour, gray)))
  }

  /** Inverting twice gives the watermark back. */
  lemma InvertTwice(g: seq<seq<Bgra>>)
    requires IsImage(g)
    ensures InvertGrid(InvertGrid(g)) == g
  {
    var r := InvertGrid(InvertGrid(g));
    forall i, j | 0 <= i < |g| && 0 <= j < Width(g) ensures r[i][j] == g[i][j] {
      var q := g[i][j];
      assert InvertColour(InvertColour(q)) == q;
    }
    GridsEqual(r, g, |g|, Width(g));
  }

  /** `repair_source_alpha`: with a non-positive size the image comes back as it
      was; otherwise every channel is dilated, which is OpenCV's and left open. */
  function RepairSourceAlpha(img: seq<seq<Bgra>>, dilationSize: int,
                             dilate: (seq<seq<Bgra>>, int) -> seq<seq<Bgra>>): (r: seq<seq<Bgra>>)
    ensures dilationSize <= 0 ==> r == img
  {
    if dilationSize <= 0 then img else dilate(img, dilationSize)
  }

  /** `cv2.rotate(img, cv2.ROTATE_90_CLOCKWISE)`: row i of the result is column i of
      the source read from the bottom up. */
  function RotateClockwise<T>(g: seq<seq<T>>): (r: seq<seq<T>>)
    requires IsImage(g)
    ensures IsImage(r) && |r| == Width(g) && Width(r) == |g|
    ensures forall i, j :: 0 <= i < Width(g) && 0 <= j < |g| ==> r[i][j] == g[|g| - 1 - j][i]
  {
    seq(Width(g), i requires 0 <= i < Width(g) =>
      seq(|g|, j requires 0 <= j < |g| => g[|g| - 1 - j][i]))
  }

  /** Four quarter turns bring the watermark back. */
  lemma RotateFourTimes<T>(g: seq<seq<T>>)
    requires IsImage(g)
    ensures RotateClockwise(RotateClockwise(RotateClockwise(RotateClockwise(g)))) == g
  {
    var r1 := RotateClockwise(g);
    var r2 := RotateClockwise(r1);
    var r3 := RotateClockwise(r2);
    var r4 := RotateClockwise(r3);
    forall i, j | 0 <= i < |g| && 0 <= j < Width(g) ensures r4[i][j] == g[i][j] {
      var h, w := |g|, Width(g);
      assert r4[i][j] == r3[w - 1 - j][i];
      assert r3[w - 1 - j][i] == r2[h - 1 - i][w - 1 - j];
      assert r2[h - 1 - i][w - 1 - j] == r1[j][h - 1 - i];
    }
    GridsEqual(r4, g, |g|, Width(g));
  }

  // ---------------------------------------------------------------------------
  // Size of the pasted watermark

  /** Python's `int(x)` on a real: truncation toward zero. */
  function Trunc(x: real): (n: int)
    ensures 0.0 <= x ==> n == x.Floor
    ensures x < 0.0 ==> n == -((-x).Floor)
  {
    if 0.0 <= x then x.Floor else -((-x).Floor)
  }

  /** `int(a * (b / c))` for integers with `c > 0`, computed exactly. */
  function ScaleDiv(a: int, b: int, c: int): (n: int)
    requires c > 0
    ensures a * b >= 0 ==> n == (a * b) / c
  {
    var x := (a * b) as real / c as real;
    if a * b >= 0 then FloorOfQuotient(a * b, c); Trunc(x) else Trunc(x)
  }

  /** Real division of naturals, floored, is integer division. */
  lemma FloorOfQuotient(n: int, c: int)
    requires n >= 0 && c > 0
    ensures 0.0 <= n as real / c as real
    ensures (n as real / c as real).Floor == n / c
  {
    var q, r := n / c, n % c;
    assert n == q * c + r;
    var x, cr := n as real / c as real, c as real;
    assert x * cr == n as real;
    assert q as real * cr <= x * cr;
    RealLeOfMulLe(q as real, x, cr);
    assert x * cr < (q + 1) as real * cr;
    RealLtOfMulLt(x, (q + 1) as real, cr);
  }

  lemma RealLeOfMulLe(a: real, b: real, c: real)
    requires c > 0.0 && a * c <= b * c
    ensures a <= b
  {
    assert (b - a) * c == b * c - a * c;
  }

  lemma RealLtOfMulLt(a: real, b: real, c: real)
    requires c > 0.0 && a * c < b * c
    ensures a < b
  {
    assert (b - a) * c == b * c - a * c;
  }

  lemma RealMulNonNegative(a: real, b: real)
    requires a >= 0.0 && b >= 0.0
    ensures a * b >= 0.0
  {
  }

  /** Monotonicity of multiplication by a natural, for the solver. */
  lemma MulLe(a: int, b: int, c: int)
    requires a <= b && c >= 0
    ensures a * c <= b * c
  {
  }

  /** What the script pastes the watermark at: `w` columns and `h` rows. */
  datatype Size = Size(w: int, h: int)

  /** Lines 125-134 of the generator: the width follows the drawn scale, the height
      keeps the aspect ratio, a height taller than the background is cut to 90% of
      it with the width following, and a side under 10 pixels skips the sample. */
  function TargetSize(hBg: int, wBg: int, hWm: int, wWm: int, scale: real): Option<Size>
    requires hWm > 0 && wWm > 0
  {
    var newW0 := Trunc(wBg as real * scale);
    var newH0 := ScaleDiv(hWm, newW0, wWm);
    var newH := if newH0 > hBg then Trunc(hBg as real * 0.9) else newH0;
    var newW := if newH0 > hBg then ScaleDiv(wWm, newH, hWm) else newW0;
    if newW < 10 || newH < 10 then None else Some(Size(newW, newH))
  }

  /** With a scale of at most 1 (the configured range is 0.15 to 0.85) every size
      the script keeps is at least 10 by 10 and fits in the background, so both
      offset ranges of `random.randint` are non-empty. */
  lemma TargetSizeFits(hBg: int, wBg: int, hWm: int, wWm: int, scale: real)
    requires hBg > 0 && wBg > 0 && hWm > 0 && wWm > 0 && scale <= 1.0
    ensures TargetSize(hBg, wBg, hWm, wWm, scale).Some? ==>
      var s := TargetSize(hBg, wBg, hWm, wWm, scale).value;
      10 <= s.w <= wBg && 10 <= s.h <= hBg
  {
    var newW0 := Trunc(wBg as real * scale);
    ScaledWidthFits(wBg, scale);
    var newH0 := ScaleDiv(hWm, newW0, wWm);
    if newH0 > hBg {
      var newH := Trunc(hBg as real * 0.9);
      assert 0 <= newH <= hBg;
      CutWidthFits(hWm, wWm, newW0, newH0, newH);
    }
  }

  /** `int(w_bg * scale_ratio)` stays within the background for a scale up to 1. */
  lemma ScaledWidthFits(wBg: int, scale: real)
    requires wBg > 0 && scale <= 1.0
    ensures Trunc(wBg as real * scale) <= wBg
  {
    var x := wBg as real * scale;
    if 0.0 <= scale {
      assert x <= wBg as real by {
        RealMulNonNegative(wBg as real, 1.0 - scale);
      }
      assert x.Floor as real <= x;
    } else {
      assert x < 0.0;
      assert (-x).Floor >= 0;
    }
  }

  /** When the height had to be cut, the width that follows is below the first one. */
  lemma CutWidthFits(hWm: int, wWm: int, newW0: int, newH0: int, newH: int)
    requires hWm > 0 && wWm > 0 && 0 <= newH < newH0
    requires newH0 == ScaleDiv(hWm, newW0, wWm)
    ensures ScaleDiv(wWm, newH, hWm) <= newW0
  {
    assert hWm * newW0 >= 0 by { MulLe(0, newW0, hWm); }
    assert newH0 == (hWm * newW0) / wWm;
    assert newH0 * wWm <= hWm * newW0;
    MulLe(newH + 1, newH0, wWm);
    assert wWm * newH < hWm * newW0;
    assert wWm * newH >= 0 by { MulLe(0, newH, wWm); }
    var newW := (wWm * newH) / hWm;
    assert newW * hWm <= wWm * newH;
    if newW > newW0 {
      MulLe(newW0 + 1, newW, hWm);
      assert false;
    }
  }

  /** The watermark placed at (`yOff`, `xOff`) lies inside the background. */
  predicate RoiFits(hBg: int, wBg: int, h: int, w: int, yOff: int, xOff: int)
  {
    0 <= yOff && yOff + h <= hBg && 0 <= xOff && xOff + w <= wBg
  }

  predicate InRoi(y: int, x: int, yOff: int, xOff: int, h: int, w: int)
  {
    yOff <= y < yOff + h && xOff <= x < xOff + w
  }

  /** Offsets drawn as `random.randint(0, h_bg - new_h)` and `randint(0, w_bg - new_w)`
      always give a placement inside the background. */
  lemma OffsetsFit(hBg: int, wBg: int, hWm: int, wWm: int, scale: real, yOff: int, xOff: int)
    requires hBg > 0 && wBg > 0 && hWm > 0 && wWm > 0 && scale <= 1.0
    requires TargetSize(hBg, wBg, hWm, wWm, scale).Some?
    requires 0 <= yOff <= hBg - TargetSize(hBg, wBg, hWm, wWm, scale).value.h
    requires 0 <= xOff <= wBg - TargetSize(hBg, wBg, hWm, wWm, scale).value.w
    ensures var s := TargetSize(hBg, wBg, hWm, wWm, scale).value;
      RoiFits(hBg, wBg, s.h, s.w, yOff, xOff)
  {
  }

  // ---------------------------------------------------------------------------
  // Compositing and the mask

  /** The background after the paste: inside the watermark's rectangle each pixel
      is `blend` of the old pixel and the watermark's, outside it nothing changes. */
  function CompositeGrid(bg: seq<seq<Bgr>>, wm: seq<seq<Bgra>>, yOff: int, xOff: int,
                         blend: (Bgr, Bgra) -> Bgr): (r: seq<seq<Bgr>>)
    requires IsImage(bg) && IsImage(wm)
    requires RoiFits(|bg|, Width(bg), |wm|, Width(wm), yOff, xOff)
    ensures IsImage(r) && |r| == |bg| && Width(r) == Width(bg)
    ensures forall y, x :: 0 <= y < |bg| && 0 <= x < Width(bg) && !InRoi(y, x, yOff, xOff, |wm|, Width(wm)) ==>
      r[y][x] == bg[y][x]
    ensures forall i, j :: 0 <= i < |wm| && 0 <= j < Width(wm) ==>
      r[yOff + i][xOff + j] == blend(bg[yOff + i][xOff + j], wm[i][j])
  {
    seq(|bg|, y requires 0 <= y < |bg| =>
      seq(Width(bg), x requires 0 <= x < Width(bg) =>
        if InRoi(y, x, yOff, xOff, |wm|, Width(wm)) then blend(bg[y][x], wm[y - yOff][x - xOff])
        else bg[y][x]))
  }

  /** Lines 150-154: the ROI of `bg` is blended with the watermark in place. The
      blend, with the drawn opacity folded in, is a parameter. */
  method Composite(bg: array2<Bgr>, wm: array2<Bgra>, yOff: int, xOff: int, blend: (Bgr, Bgra) -> Bgr)
    requires RoiFits(bg.Length0, bg.Length1, wm.Length0, wm.Length1, yOff, xOff)
    requires wm.Length0 >= 1 && wm.Length1 >= 1 && bg.Length0 >= 1 && bg.Length1 >= 1
    modifies bg
    ensures Grid(bg) == CompositeGrid(old(Grid(bg)), Grid(wm), yOff, xOff, blend)
  {
    ghost var before := Grid(bg);
    var i := 0;
    while i < wm.Length0
      invariant 0 <= i <= wm.Length0
      invariant forall y, x :: 0 <= y < bg.Length0 && 0 <= x < bg.Length1 ==>
        bg[y, x] == if InRoi(y, x, yOff, xOff, i, wm.Length1) then blend(before[y][x], wm[y - yOff, x - xOff])
                    else before[y][x]
    {
      var j := 0;
      while j < wm.Length1
        invariant 0 <= j <= wm.Length1
        invariant forall y, x :: 0 <= y < bg.Length0 && 0 <= x < bg.Length1 ==>
          bg[y, x] == if InRoi(y, x, yOff, xOff, i, wm.Length1) || (y == yOff + i && xOff <= x < xOff + j)
                      then blend(before[y][x], wm[y - yOff, x - xOff])
                      else before[y][x]
      {
        bg[yOff + i, xOff + j] := blend(bg[yOff + i, xOff + j], wm[i, j]);
        j := j + 1;
      }
      i := i + 1;
    }
    GridsEqual(Grid(bg), CompositeGrid(before, Grid(wm), yOff, xOff, blend), bg.Length0, bg.Length1);
  }

  /** `(alpha > 10).astype(np.uint8) * 255` for one pixel. */
  function MaskValue(q: Bgra): (v: Byte)
    ensures v == 255 <==> q.a > 10
    ensures v == 0 || v == 255
  {
    if q.a > 10 then 255 else 0
  }

  /** The binary mask: the background's shape, 0 outside the watermark's rectangle,
      and inside it 255 exactly where the watermark's alpha exceeds 10. */
  function MaskGrid(hBg: int, wBg: int, wm: seq<seq<Bgra>>, yOff: int, xOff: int): (m: seq<seq<Byte>>)
    requires hBg >= 1 && wBg >= 1 && IsImage(wm)
    requires RoiFits(hBg, wBg, |wm|, Width(wm), yOff, xOff)
    ensures IsImage(m) && |m| == hBg && Width(m) == wBg
    ensures forall y, x :: 0 <= y < hBg && 0 <= x < wBg ==> m[y][x] == 0 || m[y][x] == 255
    ensures forall y, x :: 0 <= y < hBg && 0 <= x < wBg && !InRoi(y, x, yOff, xOff, |wm|, Width(wm)) ==>
      m[y][x] == 0
    ensures forall i, j :: 0 <= i < |wm| && 0 <= j < Width(wm) ==>
      (m[yOff + i][xOff + j] == 255 <==> wm[i][j].a > 10)
  {
    seq(hBg, y requires 0 <= y < hBg =>
      seq(wBg, x requires 0 <= x < wBg => MaskAt(wm, yOff, xOff, y, x)))
  }

  /** One pixel of `MaskGrid`. */
  function MaskAt(wm: seq<seq<Bgra>>, yOff: int, xOff: int, y: int, x: int): (v: Byte)
    requires IsImage(wm)
    ensures v == 0 || v == 255
    ensures !InRoi(y, x, yOff, xOff, |wm|, Width(wm)) ==> v == 0
    ensures InRoi(y, x, yOff, xOff, |wm|, Width(wm)) ==> (v == 255 <==> wm[y - yOff][x - xOff].a > 10)
  {
    if InRoi(y, x, yOff, xOff, |wm|, Width(wm)) then MaskValue(wm[y - yOff][x - xOff]) else 0
  }

  /** Lines 157-159: a zero array the background's size, with the thresholded alpha
      slice-assigned into the watermark's rectangle. */
  method BuildMask(hBg: nat, wBg: nat, wm: array2<Bgra>, yOff: int, xOff: int) returns (mask: array2<Byte>)
    requires hBg >= 1 && wBg >= 1 && wm.Length0 >= 1 && wm.Length1 >= 1
    requires RoiFits(hBg, wBg, wm.Length0, wm.Length1, yOff, xOff)
    ensures fresh(mask)
    ensures Grid(mask) == MaskGrid(hBg, wBg, Grid(wm), yOff, xOff)
  {
    mask := new Byte[hBg, wBg]((_, _) => 0);
    var i := 0;
    while i < wm.Length0
      invariant 0 <= i <= wm.Length0
      invariant forall y, x :: 0 <= y < hBg && 0 <= x < wBg ==>
        mask[y, x] == if InRoi(y, x, yOff, xOff, i, wm.Length1) then MaskValue(wm[y - yOff, x - xOff]) else 0
    {
      var j := 0;
      while j < wm.Length1
        invariant 0 <= j <= wm.Length1
        invariant forall y, x :: 0 <= y < hBg && 0 <= x < wBg ==>
          mask[y, x] == if InRoi(y, x, yOff, xOff, i, wm.Length1) || (y == yOff + i && xOff <= x < xOff + j)
                        then MaskValue(wm[y - yOff, x - xOff]) else 0
      {
        mask[yOff + i, xOff + j] := MaskValue(wm[i, j]);
        j := j + 1;
      }
      i := i + 1;
    }
    GridsEqual(Grid(mask), MaskGrid(hBg, wBg, Grid(wm), yOff, xOff), hBg, wBg);
  }

  // ---------------------------------------------------------------------------
  // Polygons

  /** A vertex of a contour approximation, in pixel coordinates. */
  datatype Point = Point(x: int, y: int)

  /** One contour `cv2.findContours` returned, with its `cv2.contourArea` and the
      vertices `cv2.approxPolyDP` reduced it to. */
  datatype Contour = Contour(area: real, approx: seq<Point>)

  /** `max(0, min(1, v))`. */
  function Clamp01(v: real): (r: real)
    ensures 0.0 <= r <= 1.0
    ensures 0.0 <= v <= 1.0 ==> r == v
    ensures v < 0.0 ==> r == 0.0
    ensures v > 1.0 ==> r == 1.0
  {
    if 1.0 <= v then 1.0 else if v <= 0.0 then 0.0 else v
  }

  /** A vertex divided by the image size and clamped into the unit square. */
  function Normalise(p: Point, imgW: int, imgH: int): (r: (real, real))
    requires imgW > 0 && imgH > 0
    ensures 0.0 <= r.0 <= 1.0 && 0.0 <= r.1 <= 1.0
    ensures 0 <= p.x <= imgW ==> r.0 == p.x as real / imgW as real
    ensures 0 <= p.y <= imgH ==> r.1 == p.y as real / imgH as real
  {
    (Clamp01(p.x as real / imgW as real), Clamp01(p.y as real / imgH as real))
  }

  /** `f"{nx:.6f} {ny:.6f}"`, with the six-decimal formatting as `fmt`. */
  function PointText(p: Point, imgW: int, imgH: int, fmt: real -> string): string
    requires imgW > 0 && imgH > 0
  {
    var n := Normalise(p, imgW, imgH);
    fmt(n.0) + " " + fmt(n.1)
  }

  /** The `points` list after the vertex loop, built from the right. */
  function PointTexts(pts: seq<Point>, imgW: int, imgH: int, fmt: real -> string): (r: seq<string>)
    requires imgW > 0 && imgH > 0
    ensures |r| == |pts|
    ensures forall k :: 0 <= k < |pts| ==> r[k] == PointText(pts[k], imgW, imgH, fmt)
  {
    if pts == [] then []
    else PointTexts(pts[..|pts| - 1], imgW, imgH, fmt) + [PointText(pts[|pts| - 1], imgW, imgH, fmt)]
  }

  /** `" ".join(points)` for one contour. */
  function PolygonText(c: Contour, imgW: int, imgH: int, fmt: real -> string): string
    requires imgW > 0 && imgH > 0
  {
    Join(PointTexts(c.approx, imgW, imgH, fmt), " ")
  }

  /** A contour survives both `continue`s: an area of at least 50 and an
      approximation of at least 4 vertices. */
  predicate Kept(c: Contour)
  {
    !(c.area < 50.0) && |c.approx| >= 4
  }

  /** `get_yolo_polygon` as a function of the contours, built from the right. */
  function PolygonTexts(cs: seq<Contour>, imgW: int, imgH: int, fmt: real -> string): seq<string>
    requires imgW > 0 && imgH > 0
  {
    if cs == [] then []
    else
      var last := cs[|cs| - 1];
      PolygonTexts(cs[..|cs| - 1], imgW, imgH, fmt) + (if Kept(last) then [PolygonText(last, imgW, imgH, fmt)] else [])
  }

  /** The polygons are the texts of exactly the kept contours, in order: a contour
      with area under 50, or with fewer than 4 vertices, yields nothing. */
  lemma {:induction false} PolygonTextsOfKept(cs: seq<Contour>, imgW: int, imgH: int, fmt: real -> string)
    requires imgW > 0 && imgH > 0
    ensures |PolygonTexts(cs, imgW, imgH, fmt)| == |Filter(cs, Kept)|
    ensures forall k :: 0 <= k < |Filter(cs, Kept)| ==>
      PolygonTexts(cs, imgW, imgH, fmt)[k] == PolygonText(Filter(cs, Kept)[k], imgW, imgH, fmt)
  {
    if cs != [] {
      var init := cs[..|cs| - 1];
      var last := cs[|cs| - 1];
      PolygonTextsOfKept(init, imgW, imgH, fmt);
      var before := PolygonTexts(init, imgW, imgH, fmt);
      var kept := Filter(init, Kept);
      assert Filter(cs, Kept) == kept + (if Kept(last) then [last] else []);
      assert PolygonTexts(cs, imgW, imgH, fmt)
        == before + (if Kept(last) then [PolygonText(last, imgW, imgH, fmt)] else []);
    }
  }

  /** No polygon comes out exactly when no contour is kept. */
  lemma {:induction false} PolygonTextsEmpty(cs: seq<Contour>, imgW: int, imgH: int, fmt: real -> string)
    requires imgW > 0 && imgH > 0
    ensures PolygonTexts(cs, imgW, imgH, fmt) == [] <==> forall k :: 0 <= k < |cs| ==> !Kept(cs[k])
  {
    PolygonTextsOfKept(cs, imgW, imgH, fmt);
    if PolygonTexts(cs, imgW, imgH, fmt) == [] {
      forall k | 0 <= k < |cs| ensures !Kept(cs[k]) { }
    } else {
      var c := Filter(cs, Kept)[0];
      assert c in Filter(cs, Kept);
      var k :| 0 <= k < |cs| && cs[k] == c;
    }
  }

  /** Every vertex written is a pair of coordinates in [0, 1], and every polygon
      has at least 4 vertices. */
  lemma PolygonVertices(c: Contour, imgW: int, imgH: int)
    requires imgW > 0 && imgH > 0 && Kept(c)
    ensures |c.approx| >= 4
    ensures forall k :: 0 <= k < |c.approx| ==>
      var n := Normalise(c.approx[k], imgW, imgH); 0.0 <= n.0 <= 1.0 && 0.0 <= n.1 <= 1.0
  {
  }

  /** The polygons of one more contour: those before it, then its text if kept. */
  lemma PolygonTextsSnoc(cs: seq<Contour>, c: nat, imgW: int, imgH: int, fmt: real -> string)
    requires imgW > 0 && imgH > 0 && c < |cs|
    ensures PolygonTexts(cs[..c + 1], imgW, imgH, fmt)
      == PolygonTexts(cs[..c], imgW, imgH, fmt) + (if Kept(cs[c]) then [PolygonText(cs[c], imgW, imgH, fmt)] else [])
  {
    assert cs[..c + 1][..c] == cs[..c];
  }

  /** `get_yolo_polygon`, with the contours of the mask as input. */
  method GetYoloPolygon(contours: seq<Contour>, imgW: int, imgH: int, fmt: real -> string)
    returns (polygons: seq<string>)
    requires imgW > 0 && imgH > 0
    ensures polygons == PolygonTexts(contours, imgW, imgH, fmt)
  {
    polygons := [];
    var c := 0;
    while c < |contours|
      invariant 0 <= c <= |contours|
      invariant polygons == PolygonTexts(contours[..c], imgW, imgH, fmt)
    {
      PolygonTextsSnoc(contours, c, imgW, imgH, fmt);
      var cnt := contours[c];
      if !(cnt.area < 50.0) && |cnt.approx| >= 4 {
        var polygon := FormatPolygon(cnt, imgW, imgH, fmt);
        polygons := polygons + [polygon];
      }
      c := c + 1;
    }
    assert contours[..|contours|] == contours;
  }

  /** The inner loop of `get_yolo_polygon`: the normalised vertices of one contour,
      formatted and joined. */
  method FormatPolygon(cnt: Contour, imgW: int, imgH: int, fmt: real -> string) returns (polygon: string)
    requires imgW > 0 && imgH > 0
    ensures polygon == PolygonText(cnt, imgW, imgH, fmt)
  {
    var points := [];
    var k := 0;
    while k < |cnt.approx|
      invariant 0 <= k <= |cnt.approx|
      invariant points == PointTexts(cnt.approx[..k], imgW, imgH, fmt)
    {
      assert cnt.approx[..k + 1][..k] == cnt.approx[..k];
      var n := Normalise(cnt.approx[k], imgW, imgH);
      points := points + [fmt(n.0) + " " + fmt(n.1)];
      k := k + 1;
    }
    assert cnt.approx[..|cnt.approx|] == cnt.approx;
    polygon := Join(points, " ");
  }

  /** A join of newline-free parts with a newline-free separator has no newline. */
  lemma {:induction false} JoinHasNoNewline(parts: seq<string>, sep: string)
    requires '\n' !in sep && forall k :: 0 <= k < |parts| ==> '\n' !in parts[k]
    ensures '\n' !in Join(parts, sep)
  {
    if |parts| > 1 {
      JoinHasNoNewline(parts[1..], sep);
      assert '\n' !in parts[0];
    }
  }

  /** When the formatted numbers hold no newline, neither does a polygon. */
  lemma PolygonTextsHaveNoNewline(cs: seq<Contour>, imgW: int, imgH: int, fmt: real -> string)
    requires imgW > 0 && imgH > 0
    requires forall v :: '\n' !in fmt(v)
    ensures forall k :: 0 <= k < |PolygonTexts(cs, imgW, imgH, fmt)| ==> '\n' !in PolygonTexts(cs, imgW, imgH, fmt)[k]
  {
    PolygonTextsOfKept(cs, imgW, imgH, fmt);
    forall k | 0 <= k < |Filter(cs, Kept)|
      ensures '\n' !in PolygonText(Filter(cs, Kept)[k], imgW, imgH, fmt)
    {
      var c := Filter(cs, Kept)[k];
      var pts := PointTexts(c.approx, imgW, imgH, fmt);
      forall m | 0 <= m < |pts| ensures '\n' !in pts[m] {
        var n := Normalise(c.approx[m], imgW, imgH);
        assert pts[m] == fmt(n.0) + " " + fmt(n.1);
        assert '\n' !in fmt(n.0) && '\n' !in fmt(n.1);
      }
      JoinHasNoNewline(pts, " ");
    }
  }

  // ---------------------------------------------------------------------------
  // Label files and names

  /** `f"0 {poly}\n"`: class id 0, then the polygon. */
  function LabelLine(poly: string): string
  {
    "0 " + poly + "\n"
  }

  /** The lines a label file holds, one per polygon, built from the right. */
  function LabelLines(polygons: seq<string>): (ls: seq<string>)
    ensures |ls| == |polygons|
    ensures forall k :: 0 <= k < |polygons| ==> ls[k] == LabelLine(polygons[k])
  {
    if polygons == [] then []
    else LabelLines(polygons[..|polygons| - 1]) + [LabelLine(polygons[|polygons| - 1])]
  }

  /** The text the write loop leaves in the label file. */
  function LabelFileText(polygons: seq<string>): string
  {
    Concat(LabelLines(polygons))
  }

  /** One generated line is one line ending in "\n" whose first token is "0", so
      `fix_labels` keeps it. */
  lemma LabelLineShape(poly: string)
    requires '\n' !in poly
    ensures IsLine(LabelLine(poly)) && EndsWithNewline(LabelLine(poly))
    ensures Tokens(LabelLine(poly))[0] == "0"
    ensures !PrepareDataset.LineNeedsFix(LabelLine(poly))
  {
    var line := LabelLine(poly);
    var rest := " " + poly + "\n";
    assert line == "0" + rest;
    TokensWordThen("0", rest);
    forall j | 0 <= j < |line| - 1 ensures line[j] != '\n' {
      if 2 <= j { assert line[j] == poly[j - 2]; }
    }
  }

  /** Read back, a generated label file gives one line per polygon, every line has
      "0" as its first token, and `fix_labels` leaves the file as it is. */
  lemma GeneratedLabelIsClean(polygons: seq<string>)
    requires forall k :: 0 <= k < |polygons| ==> '\n' !in polygons[k]
    ensures ReadLines(LabelFileText(polygons)) == LabelLines(polygons)
    ensures forall k :: 0 <= k < |polygons| ==> Tokens(LabelLines(polygons)[k])[0] == "0"
    ensures PrepareDataset.FixedContent(LabelFileText(polygons)) == LabelFileText(polygons)
  {
    var ls := LabelLines(polygons);
    LabelLinesShape(polygons);
    assert WellFormedLines(ls);
    ReadLinesConcat(ls);
    assert !PrepareDataset.AnyNeedsFix(ls);
  }

  /** Every line of a generated label file has the shape of `LabelLineShape`. */
  lemma LabelLinesShape(polygons: seq<string>)
    requires forall k :: 0 <= k < |polygons| ==> '\n' !in polygons[k]
    ensures forall k :: 0 <= k < |polygons| ==>
      var l := LabelLines(polygons)[k];
      IsLine(l) && EndsWithNewline(l) && Tokens(l)[0] == "0" && !PrepareDataset.LineNeedsFix(l)
  {
    forall k | 0 <= k < |polygons|
      ensures var l := LabelLines(polygons)[k];
        IsLine(l) && EndsWithNewline(l) && Tokens(l)[0] == "0" && !PrepareDataset.LineNeedsFix(l)
    {
      LabelLineShape(polygons[k]);
    }
  }

  /** `f"syn_{i:05d}"`. */
  function SampleStem(i: nat): string
  {
    "syn_" + ZeroPad(i, 5)
  }

  /** Different sample indices never share a file name, and below 100000 every
      stem has 9 characters. */
  lemma SampleStemInjective(i: nat, j: nat)
    ensures SampleStem(i) == SampleStem(j) ==> i == j
    ensures i < 100000 ==> |SampleStem(i)| == 9
  {
    if SampleStem(i) == SampleStem(j) {
      assert ZeroPad(i, 5) == SampleStem(i)[4..];
      assert ZeroPad(j, 5) == SampleStem(j)[4..];
    }
    if i < 100000 {
      assert Pow10(5) == 100000;
      ZeroPadWidth(i, 5);
    }
  }

  // ---------------------------------------------------------------------------
  // One sample and the generation loop

  /** The random draws of one iteration of the generation loop. */
  datatype Draw = Draw(
    toTrain: bool,    // random.random() < GEN_TRAIN_RATIO
    bgIndex: nat,     // random.choice(bg_files)
    invert: bool,     // random.random() < GEN_INVERT_PROB
    rotate: bool,     // random.random() < GEN_ROTATION_PROB
    scale: real,      // random.uniform(*GEN_SCALE_RANGE)
    blurKernel: Option<int>,  // None unless random.random() < GEN_BLUR_PROB; then random.choice([3, 5])
    tint: Option<Bgr>,        // None unless random.random() < GEN_COLOR_PROB; then np.random.randint(0, 256, (3,))
    opacity: real,    // random.uniform(*GEN_OPACITY_RANGE)
    yOff: int,        // random.randint(0, h_bg - new_h)
    xOff: int)        // random.randint(0, w_bg - new_w)

  /** The OpenCV and formatting steps the model leaves open: `smart_resize`,
      `cv2.GaussianBlur` with a square kernel, the grey level of one pixel under
      `cv2.COLOR_BGR2GRAY`, the alpha blend at a given opacity, the contour search
      on the mask, and `:.6f`. */
  datatype Ops = Ops(
    resize: (seq<seq<Bgra>>, int, int) -> seq<seq<Bgra>>,
    blur: (seq<seq<Bgra>>, int) -> seq<seq<Bgra>>,
    gray: Bgr -> Byte,
    blend: (Bgr, Bgra, real) -> Bgr,
    findContours: seq<seq<Byte>> -> seq<Contour>,
    fmt: real -> string)

  /** `cv2.resize(img, (w, h))` returns an image of `h` rows and `w` columns. */
  ghost predicate ResizeKeepsSize(resize: (seq<seq<Bgra>>, int, int) -> seq<seq<Bgra>>)
  {
    forall g, w, h :: 1 <= w && 1 <= h ==> IsGrid(resize(g, w, h), h, w)
  }

  /** `:.6f` never writes a newline. */
  ghost predicate FormatsOnOneLine(fmt: real -> string)
  {
    forall v :: '\n' !in fmt(v)
  }

  /** `cv2.GaussianBlur` keeps the image's shape. */
  ghost predicate BlurKeepsShape(blur: (seq<seq<Bgra>>, int) -> seq<seq<Bgra>>)
  {
    forall g, k :: IsImage(g) ==> IsGrid(blur(g, k), |g|, Width(g))
  }

  ghost predicate WellBehaved(ops: Ops)
  {
    ResizeKeepsSize(ops.resize) && BlurKeepsShape(ops.blur) && FormatsOnOneLine(ops.fmt)
  }

  /** The blend at the drawn opacity. */
  function BlendAt(ops: Ops, opacity: real): (Bgr, Bgra) -> Bgr
  {
    (p, q) => ops.blend(p, q, opacity)
  }

  function SplitName(d: Draw): string
  {
    if d.toTrain then "train" else "val"
  }

  /** `wm_curr` after the optional inversion and the optional quarter turn. */
  function Augmented(wm: seq<seq<Bgra>>, d: Draw): (r: seq<seq<Bgra>>)
    requires IsImage(wm)
    ensures IsImage(r)
  {
    var inv := if d.invert then InvertGrid(wm) else wm;
    if d.rotate then RotateClockwise(inv) else inv
  }

  /** The size the watermark is pasted at, or None when the sample is skipped. */
  function PlannedSize(wm: seq<seq<Bgra>>, bg: seq<seq<Bgr>>, d: Draw): Option<Size>
    requires IsImage(wm) && IsImage(bg)
  {
    var cur := Augmented(wm, d);
    TargetSize(|bg|, Width(bg), |cur|, Width(cur), d.scale)
  }

  /** The draws of one iteration are in the ranges the script draws them from: a
      scale of at most 1, and offsets within `randint`'s bounds. */
  predicate DrawInRange(wm: seq<seq<Bgra>>, bg: seq<seq<Bgr>>, d: Draw)
    requires IsImage(wm) && IsImage(bg)
  {
    && d.scale <= 1.0
    && (PlannedSize(wm, bg, d).Some? ==>
          var s := PlannedSize(wm, bg, d).value;
          0 <= d.yOff <= |bg| - s.h && 0 <= d.xOff <= Width(bg) - s.w)
  }

  /** The blurred image has the shape of the image. */
  lemma BlurShape(g: seq<seq<Bgra>>, k: int, ops: Ops)
    requires IsImage(g) && WellBehaved(ops)
    ensures IsImage(ops.blur(g, k)) && |ops.blur(g, k)| == |g| && Width(ops.blur(g, k)) == Width(g)
  {
    assert IsGrid(ops.blur(g, k), |g|, Width(g));
    assert |ops.blur(g, k)[0]| == Width(g);
  }

  /** Lines 137-138: the optional blur, then the optional recolouring. Both keep
      the shape, and the recolouring keeps the alpha channel. */
  function Finished(g: seq<seq<Bgra>>, d: Draw, ops: Ops): (r: seq<seq<Bgra>>)
    requires IsImage(g) && WellBehaved(ops)
    ensures IsImage(r) && |r| == |g| && Width(r) == Width(g)
  {
    var blurred := if d.blurKernel.Some? then BlurShape(g, d.blurKernel.value, ops); ops.blur(g, d.blurKernel.value) else g;
    if d.tint.Some? then TintGrid(blurred, d.tint.value, ops.gray) else blurred
  }

  /** The resized watermark, blurred and recoloured as drawn. */
  function Resized(wm: seq<seq<Bgra>>, bg: seq<seq<Bgr>>, d: Draw, ops: Ops): (r: seq<seq<Bgra>>)
    requires IsImage(wm) && IsImage(bg) && WellBehaved(ops) && DrawInRange(wm, bg, d)
    requires PlannedSize(wm, bg, d).Some?
    ensures IsImage(r)
    ensures |r| == PlannedSize(wm, bg, d).value.h && Width(r) == PlannedSize(wm, bg, d).value.w
    ensures RoiFits(|bg|, Width(bg), |r|, Width(r), d.yOff, d.xOff)
  {
    var s := PlannedSize(wm, bg, d).value;
    var cur := Augmented(wm, d);
    TargetSizeFits(|bg|, Width(bg), |cur|, Width(cur), d.scale);
    Finished(ops.resize(cur, s.w, s.h), d, ops)
  }

  /** The background with the watermark pasted in. */
  function Composited(wm: seq<seq<Bgra>>, bg: seq<seq<Bgr>>, d: Draw, ops: Ops): seq<seq<Bgr>>
    requires IsImage(wm) && IsImage(bg) && WellBehaved(ops) && DrawInRange(wm, bg, d)
    requires PlannedSize(wm, bg, d).Some?
  {
    CompositeGrid(bg, Resized(wm, bg, d, ops), d.yOff, d.xOff, BlendAt(ops, d.opacity))
  }

  /** The label polygons of the sample: those of the contours of its mask. */
  function Polygons(wm: seq<seq<Bgra>>, bg: seq<seq<Bgr>>, d: Draw, ops: Ops): seq<string>
    requires IsImage(wm) && IsImage(bg) && WellBehaved(ops) && DrawInRange(wm, bg, d)
    requires PlannedSize(wm, bg, d).Some?
  {
    var mask := MaskGrid(|bg|, Width(bg), Resized(wm, bg, d, ops), d.yOff, d.xOff);
    PolygonTexts(ops.findContours(mask), Width(bg), |bg|, ops.fmt)
  }

  /** The recolouring changes only colour channels, so the drawn colour never moves
      the mask: the label polygons are those of the same draw without it. */
  lemma {:induction false} TintKeepsPolygons(wm: seq<seq<Bgra>>, bg: seq<seq<Bgr>>, d: Draw, ops: Ops)
    requires IsImage(wm) && IsImage(bg) && WellBehaved(ops) && DrawInRange(wm, bg, d)
    requires PlannedSize(wm, bg, d).Some?
    ensures DrawInRange(wm, bg, d.(tint := None)) && PlannedSize(wm, bg, d.(tint := None)).Some?
    ensures Polygons(wm, bg, d, ops) == Polygons(wm, bg, d.(tint := None), ops)
  {
    var plain := d.(tint := None);
    assert Augmented(wm, plain) == Augmented(wm, d);
    assert PlannedSize(wm, bg, plain) == PlannedSize(wm, bg, d);
    var r1, r2 := Resized(wm, bg, d, ops), Resized(wm, bg, plain, ops);
    forall i, j | 0 <= i < |r1| && 0 <= j < Width(r1)
      ensures MaskValue(r1[i][j]) == MaskValue(r2[i][j])
    {
    }
    var m1 := MaskGrid(|bg|, Width(bg), r1, d.yOff, d.xOff);
    var m2 := MaskGrid(|bg|, Width(bg), r2, d.yOff, d.xOff);
    forall y, x | 0 <= y < |bg| && 0 <= x < Width(bg)
      ensures m1[y][x] == m2[y][x]
    {
      assert m1[y][x] == MaskAt(r1, d.yOff, d.xOff, y, x);
      assert m2[y][x] == MaskAt(r2, d.yOff, d.xOff, y, x);
    }
    GridsEqual(m1, m2, |bg|, Width(bg));
  }

  /** Where an iteration ended: the background could not be read, the watermark
      came out under 10 pixels, the mask gave no polygon, or the pair was written. */
  datatype SampleOutcome = Unreadable | TooSmall | NoPolygons | Written(imagePath: PrepareDataset.DestPath, labelPath: PrepareDataset.DestPath)

  /** Paths of the image and label files of sample `i`. */
  function SampleImagePath(d: Draw, i: nat): PrepareDataset.DestPath
  {
    PrepareDataset.ImageFile(SplitName(d), SampleStem(i) + ".jpg")
  }

  function SampleLabelPath(d: Draw, i: nat): PrepareDataset.DestPath
  {
    PrepareDataset.LabelFile(SplitName(d), SampleStem(i) + ".txt")
  }

  /** The decoded `watermark.png`: a greyscale image (a 2-D array, with no channel
      axis), 3 channels, or 4 with alpha. */
  datatype Watermark = OneChannel(gray: seq<seq<Byte>>) | ThreeChannel(bgr: seq<seq<Bgr>>) | FourChannel(bgra: seq<seq<Bgra>>)

  predicate IsWatermarkImage(w: Watermark)
  {
    match w
    case OneChannel(g) => IsImage(g)
    case ThreeChannel(g) => IsImage(g)
    case FourChannel(g) => IsImage(g)
  }

  /** `cv2.dilate` keeps the image's shape. */
  ghost predicate DilateKeepsShape(dilate: (seq<seq<Bgra>>, int) -> seq<seq<Bgra>>)
  {
    forall g, k :: IsImage(g) ==> IsGrid(dilate(g, k), |g|, Width(g))
  }

  /** `wm_prepared`: alpha added to a 3-channel source, then the optional repair. */
  function PreparedWatermark(w: Watermark, dilationSize: int,
                             dilate: (seq<seq<Bgra>>, int) -> seq<seq<Bgra>>): (r: seq<seq<Bgra>>)
    requires IsWatermarkImage(w) && !w.OneChannel? && DilateKeepsShape(dilate)
    ensures IsImage(r)
  {
    var original := if w.ThreeChannel? then WithAlpha(w.bgr) else w.bgra;
    RepairSourceAlpha(original, dilationSize, dilate)
  }

  /** `wm_curr`: a copy of the watermark, its colours inverted and then turned a
      quarter clockwise when the draw says so. */
  method AugmentWatermark(wm: seq<seq<Bgra>>, d: Draw) returns (cur: array2<Bgra>)
    requires IsImage(wm)
    ensures fresh(cur)
    ensures Grid(cur) == Augmented(wm, d)
    ensures cur.Length0 == |Augmented(wm, d)| && cur.Length1 == Width(Augmented(wm, d))
  {
    cur := FromGrid(wm, |wm|, Width(wm));
    if d.invert {
      InvertColours(cur);
      GridsEqual(Grid(cur), InvertGrid(wm), |wm|, Width(wm));
    }
    if d.rotate {
      var turned := RotateClockwise(Grid(cur));
      cur := FromGrid(turned, |turned|, Width(turned));
    }
  }

  /** Lines 136-138 after `smart_resize`: `apply_blur`, then `apply_random_color`
      on a fresh copy. */
  method FinishResized(g: seq<seq<Bgra>>, d: Draw, ops: Ops) returns (img: array2<Bgra>)
    requires IsImage(g) && WellBehaved(ops)
    ensures fresh(img)
    ensures img.Length0 == |g| && img.Length1 == Width(g)
    ensures Grid(img) == Finished(g, d, ops)
  {
    var blurred := g;
    if d.blurKernel.Some? {
      BlurShape(g, d.blurKernel.value, ops);
      blurred := ops.blur(g, d.blurKernel.value);
    }
    img := FromGrid(blurred, |g|, Width(g));
    if d.tint.Some? {
      ApplyRandomColor(img, d.tint.value, ops.gray);
      GridsEqual(Grid(img), TintGrid(blurred, d.tint.value, ops.gray), |g|, Width(g));
    }
  }

  /** The rest of an iteration that has a size: the watermark resized to it, pasted
      into a copy of the background, the mask built and its contours turned into
      label polygons. */
  method PasteAndTrace(cur: array2<Bgra>, wm: seq<seq<Bgra>>, bg: seq<seq<Bgr>>, d: Draw, size: Size, ops: Ops)
    returns (canvas: seq<seq<Bgr>>, polygons: seq<string>)
    requires IsImage(wm) && IsImage(bg) && WellBehaved(ops) && DrawInRange(wm, bg, d)
    requires PlannedSize(wm, bg, d) == Some(size) && Grid(cur) == Augmented(wm, d)
    ensures canvas == Composited(wm, bg, d, ops)
    ensures polygons == Polygons(wm, bg, d, ops)
  {
    var hBg, wBg := |bg|, Width(bg);
    TargetSizeFits(|bg|, Width(bg), cur.Length0, cur.Length1, d.scale);
    var resized := FinishResized(ops.resize(Grid(cur), size.w, size.h), d, ops);
    assert Grid(resized) == Resized(wm, bg, d, ops);
    var background := FromGrid(bg, hBg, wBg);
    Composite(background, resized, d.yOff, d.xOff, BlendAt(ops, d.opacity));
    var mask := BuildMask(hBg, wBg, resized, d.yOff, d.xOff);
    polygons := GetYoloPolygon(ops.findContours(Grid(mask)), wBg, hBg, ops.fmt);
    canvas := Grid(background);
  }

  /** How `generate_dataset` ended. `SingleChannelWatermark` is the `IndexError` of
      `wm_original.shape[2]` on a greyscale watermark. */
  datatype GenerateOutcome = NoWatermarkFile | NoBackgrounds | UnreadableWatermark | SingleChannelWatermark | Generated

  /** The images and the label files of the dataset, by path. */
  type Files = (map<PrepareDataset.DestPath, seq<seq<Bgr>>>, map<PrepareDataset.DestPath, string>)

  /** Iteration `i` writes its pair: the background is readable, the watermark is
      not too small and its mask gives a polygon. */
  predicate Writes(d: Draw, wm: seq<seq<Bgra>>, bg: Option<seq<seq<Bgr>>>, ops: Ops)
    requires IsImage(wm) && WellBehaved(ops)
    requires bg.Some? ==> IsImage(bg.value) && DrawInRange(wm, bg.value, d)
  {
    bg.Some? && PlannedSize(wm, bg.value, d).Some? && Polygons(wm, bg.value, d, ops) != []
  }

  /** The files after iteration `i`: its image and label file when it writes,
      the files as they were otherwise. */
  function SampleFiles(files: Files, i: nat, d: Draw, wm: seq<seq<Bgra>>, bg: Option<seq<seq<Bgr>>>, ops: Ops): Files
    requires IsImage(wm) && WellBehaved(ops)
    requires bg.Some? ==> IsImage(bg.value) && DrawInRange(wm, bg.value, d)
  {
    if Writes(d, wm, bg, ops) then
      (files.0[SampleImagePath(d, i) := Composited(wm, bg.value, d, ops)],
       files.1[SampleLabelPath(d, i) := LabelFileText(Polygons(wm, bg.value, d, ops))])
    else files
  }

  /** Every draw names a background, and lies in range on a readable one. */
  predicate DrawsFit(wm: seq<seq<Bgra>>, backgrounds: seq<Option<seq<seq<Bgr>>>>, draws: seq<Draw>)
    requires IsImage(wm)
  {
    forall k :: 0 <= k < |draws| ==> DrawFits(wm, backgrounds, draws[k])
  }

  predicate DrawFits(wm: seq<seq<Bgra>>, backgrounds: seq<Option<seq<seq<Bgr>>>>, d: Draw)
    requires IsImage(wm)
  {
    && d.bgIndex < |backgrounds|
    && (backgrounds[d.bgIndex].Some? ==>
          IsImage(backgrounds[d.bgIndex].value) && DrawInRange(wm, backgrounds[d.bgIndex].value, d))
  }

  /** The loop of `generate_dataset` as a function: the files after the iterations
      of `draws`, one after the other. */
  function GeneratedFiles(files: Files, wm: seq<seq<Bgra>>, backgrounds: seq<Option<seq<seq<Bgr>>>>,
                          draws: seq<Draw>, ops: Ops): Files
    requires IsImage(wm) && WellBehaved(ops) && DrawsFit(wm, backgrounds, draws)
    decreases |draws|
  {
    if draws == [] then files
    else
      var n := |draws| - 1;
      assert DrawFits(wm, backgrounds, draws[n]);
      assert DrawsFit(wm, backgrounds, draws[..n]) by {
        forall k | 0 <= k < n ensures DrawFits(wm, backgrounds, draws[..n][k]) {
          assert draws[..n][k] == draws[k];
        }
      }
      SampleFiles(GeneratedFiles(files, wm, backgrounds, draws[..n], ops), n, draws[n], wm,
                  backgrounds[draws[n].bgIndex], ops)
  }

  /** The fold over a non-empty run of draws is the last iteration after the fold
      over the others. */
  lemma GeneratedFilesSnoc(files: Files, wm: seq<seq<Bgra>>, backgrounds: seq<Option<seq<seq<Bgr>>>>,
                           draws: seq<Draw>, ops: Ops)
    requires IsImage(wm) && WellBehaved(ops) && DrawsFit(wm, backgrounds, draws) && draws != []
    ensures DrawsFit(wm, backgrounds, draws[..|draws| - 1]) && DrawFits(wm, backgrounds, draws[|draws| - 1])
    ensures GeneratedFiles(files, wm, backgrounds, draws, ops)
      == SampleFiles(GeneratedFiles(files, wm, backgrounds, draws[..|draws| - 1], ops), |draws| - 1,
                     draws[|draws| - 1], wm, backgrounds[draws[|draws| - 1].bgIndex], ops)
  {
    var n := |draws| - 1;
    assert DrawFits(wm, backgrounds, draws[n]);
    forall k | 0 <= k < n ensures DrawFits(wm, backgrounds, draws[..n][k]) {
      assert draws[..n][k] == draws[k];
    }
  }

  /** Every label file present after the loop is either one that was there before,
      as it was, or one written for some sample index below `count`, which
      `fix_labels` leaves unchanged. */
  ghost predicate LabelsFromGenerator(before: map<PrepareDataset.DestPath, string>,
                                      after: map<PrepareDataset.DestPath, string>, count: nat)
  {
    forall p :: p in after ==>
      (p in before && after[p] == before[p])
      || (PrepareDataset.FixedContent(after[p]) == after[p]
          && exists k: nat, split: string :: k < count && (split == "train" || split == "val")
               && p == PrepareDataset.LabelFile(split, SampleStem(k) + ".txt"))
  }

  /** The loop only adds files, and every label file it leaves is an old one or a
      generated one. */
  lemma {:induction false} GeneratedLabels(files: Files, wm: seq<seq<Bgra>>, backgrounds: seq<Option<seq<seq<Bgr>>>>,
                                           draws: seq<Draw>, ops: Ops)
    requires IsImage(wm) && WellBehaved(ops) && DrawsFit(wm, backgrounds, draws)
    ensures var r := GeneratedFiles(files, wm, backgrounds, draws, ops);
      files.0.Keys <= r.0.Keys && files.1.Keys <= r.1.Keys && LabelsFromGenerator(files.1, r.1, |draws|)
    decreases |draws|
  {
    if draws != [] {
      var n := |draws| - 1;
      GeneratedFilesSnoc(files, wm, backgrounds, draws, ops);
      var prev := GeneratedFiles(files, wm, backgrounds, draws[..n], ops);
      GeneratedLabels(files, wm, backgrounds, draws[..n], ops);
      var d, bg := draws[n], backgrounds[draws[n].bgIndex];
      var r := SampleFiles(prev, n, d, wm, bg, ops);
      if Writes(d, wm, bg, ops) {
        SampleWrittenIsClean(d, n, wm, bg.value, ops);
        forall p | p in r.1
          ensures (p in files.1 && r.1[p] == files.1[p])
            || (PrepareDataset.FixedContent(r.1[p]) == r.1[p]
                && exists k: nat, split: string :: k < |draws| && (split == "train" || split == "val")
                     && p == PrepareDataset.LabelFile(split, SampleStem(k) + ".txt"))
        {
          if p == SampleLabelPath(d, n) {
            assert p == PrepareDataset.LabelFile(SplitName(d), SampleStem(n) + ".txt");
          } else {
            assert p in prev.1 && r.1[p] == prev.1[p];
          }
        }
      }
    }
  }

  /** Two iterations never share a file: the index is in the file name. */
  lemma SamplePathsDistinct(d1: Draw, i: nat, d2: Draw, j: nat)
    requires i != j
    ensures SampleImagePath(d1, i) != SampleImagePath(d2, j)
    ensures SampleLabelPath(d1, i) != SampleLabelPath(d2, j)
  {
    SampleStemInjective(i, j);
    var si, sj := SampleStem(i), SampleStem(j);
    assert (si + ".jpg")[..|si + ".jpg"| - 4] == si && (sj + ".jpg")[..|sj + ".jpg"| - 4] == sj;
    assert (si + ".txt")[..|si + ".txt"| - 4] == si && (sj + ".txt")[..|sj + ".txt"| - 4] == sj;
  }

  /** The image and label paths `img` and `lbl` hold in `r` what they held in `files`. */
  predicate Unmoved(r: Files, files: Files, img: PrepareDataset.DestPath, lbl: PrepareDataset.DestPath)
  {
    && (img in r.0 <==> img in files.0) && (img in files.0 ==> r.0[img] == files.0[img])
    && (lbl in r.1 <==> lbl in files.1) && (lbl in files.1 ==> r.1[lbl] == files.1[lbl])
  }

  /** Sample `i` is in `r` as its iteration leaves it: its composited image and its
      polygons' label file when it writes, and otherwise what `files` held there. */
  predicate SampleAsLeft(r: Files, files: Files, i: nat, d: Draw, wm: seq<seq<Bgra>>, bg: Option<seq<seq<Bgr>>>, ops: Ops)
    requires IsImage(wm) && WellBehaved(ops)
    requires bg.Some? ==> IsImage(bg.value) && DrawInRange(wm, bg.value, d)
  {
    var img, lbl := SampleImagePath(d, i), SampleLabelPath(d, i);
    if Writes(d, wm, bg, ops) then
      && img in r.0 && r.0[img] == Composited(wm, bg.value, d, ops)
      && lbl in r.1 && r.1[lbl] == LabelFileText(Polygons(wm, bg.value, d, ops))
    else Unmoved(r, files, img, lbl)
  }

  /** An iteration leaves the paths of every other sample as they were. */
  lemma SampleFilesElsewhere(files: Files, i: nat, d: Draw, wm: seq<seq<Bgra>>, bg: Option<seq<seq<Bgr>>>, ops: Ops,
                             d2: Draw, j: nat)
    requires IsImage(wm) && WellBehaved(ops)
    requires bg.Some? ==> IsImage(bg.value) && DrawInRange(wm, bg.value, d)
    requires i != j
    ensures Unmoved(SampleFiles(files, i, d, wm, bg, ops), files, SampleImagePath(d2, j), SampleLabelPath(d2, j))
  {
    SamplePathsDistinct(d, i, d2, j);
  }

  /** An iteration leaves its own sample as `SampleAsLeft` says. */
  lemma SampleFilesHere(prev: Files, files: Files, i: nat, d: Draw, wm: seq<seq<Bgra>>, bg: Option<seq<seq<Bgr>>>, ops: Ops)
    requires IsImage(wm) && WellBehaved(ops)
    requires bg.Some? ==> IsImage(bg.value) && DrawInRange(wm, bg.value, d)
    requires Unmoved(prev, files, SampleImagePath(d, i), SampleLabelPath(d, i))
    ensures SampleAsLeft(SampleFiles(prev, i, d, wm, bg, ops), files, i, d, wm, bg, ops)
  {
  }

  /** Later files that leave the sample's paths alone keep it as it was left. */
  lemma SampleAsLeftKept(prev: Files, r: Files, files: Files, i: nat, d: Draw, wm: seq<seq<Bgra>>,
                         bg: Option<seq<seq<Bgr>>>, ops: Ops)
    requires IsImage(wm) && WellBehaved(ops)
    requires bg.Some? ==> IsImage(bg.value) && DrawInRange(wm, bg.value, d)
    requires SampleAsLeft(prev, files, i, d, wm, bg, ops)
    requires Unmoved(r, prev, SampleImagePath(d, i), SampleLabelPath(d, i))
    ensures SampleAsLeft(r, files, i, d, wm, bg, ops)
  {
  }

  /** Sample `k` is in the dataset after the loop exactly as iteration `k` left it:
      its composited image and its polygons' label file when it writes, and
      otherwise whatever was at its paths before. */
  lemma {:induction false} GeneratedSample(files: Files, wm: seq<seq<Bgra>>, backgrounds: seq<Option<seq<seq<Bgr>>>>,
                                           draws: seq<Draw>, ops: Ops, k: nat)
    requires IsImage(wm) && WellBehaved(ops) && DrawsFit(wm, backgrounds, draws) && k < |draws|
    ensures DrawFits(wm, backgrounds, draws[k])
    ensures SampleAsLeft(GeneratedFiles(files, wm, backgrounds, draws, ops), files, k, draws[k], wm,
                         backgrounds[draws[k].bgIndex], ops)
    decreases |draws|
  {
    var n := |draws| - 1;
    assert DrawFits(wm, backgrounds, draws[k]);
    GeneratedFilesSnoc(files, wm, backgrounds, draws, ops);
    var prev := GeneratedFiles(files, wm, backgrounds, draws[..n], ops);
    if k < n {
      assert draws[..n][k] == draws[k];
      GeneratedSample(files, wm, backgrounds, draws[..n], ops, k);
      SampleFilesElsewhere(prev, n, draws[n], wm, backgrounds[draws[n].bgIndex], ops, draws[k], k);
      SampleAsLeftKept(prev, GeneratedFiles(files, wm, backgrounds, draws, ops), files, k, draws[k], wm,
                       backgrounds[draws[k].bgIndex], ops);
    } else {
      GeneratedPathsUntouched(files, wm, backgrounds, draws[..n], ops, draws[k], k);
      SampleFilesHere(prev, files, n, draws[n], wm, backgrounds[draws[n].bgIndex], ops);
    }
  }

  /** Iterations before `k` leave the paths of sample `k` as they were. */
  lemma {:induction false} GeneratedPathsUntouched(files: Files, wm: seq<seq<Bgra>>, backgrounds: seq<Option<seq<seq<Bgr>>>>,
                                                   draws: seq<Draw>, ops: Ops, d: Draw, k: nat)
    requires IsImage(wm) && WellBehaved(ops) && DrawsFit(wm, backgrounds, draws) && |draws| <= k
    ensures Unmoved(GeneratedFiles(files, wm, backgrounds, draws, ops), files, SampleImagePath(d, k), SampleLabelPath(d, k))
    decreases |draws|
  {
    if draws != [] {
      var n := |draws| - 1;
      GeneratedFilesSnoc(files, wm, backgrounds, draws, ops);
      GeneratedPathsUntouched(files, wm, backgrounds, draws[..n], ops, d, k);
      SampleFilesElsewhere(GeneratedFiles(files, wm, backgrounds, draws[..n], ops), n, draws[n], wm,
                           backgrounds[draws[n].bgIndex], ops, d, k);
    }
  }

  /** `train_dataset`: the images and label files written so far, by path. */
  class SyntheticDataset {
    var images: map<PrepareDataset.DestPath, seq<seq<Bgr>>>
    var labels: map<PrepareDataset.DestPath, string>

    constructor (initialImages: map<PrepareDataset.DestPath, seq<seq<Bgr>>>, initialLabels: map<PrepareDataset.DestPath, string>)
      ensures images == initialImages && labels == initialLabels
    {
      images := initialImages;
      labels := initialLabels;
    }

    /** Lines 164-169: with at least one polygon, the image and a label file with
        one `0 <polygon>` line per polygon are written (over any earlier file of
        that name); with none, nothing is written. */
    method WriteSample(imagePath: PrepareDataset.DestPath, labelPath: PrepareDataset.DestPath, bg: seq<seq<Bgr>>, polygons: seq<string>)
      modifies this
      ensures polygons == [] ==> images == old(images) && labels == old(labels)
      ensures polygons != [] ==> images == old(images)[imagePath := bg]
      ensures polygons != [] ==> labels == old(labels)[labelPath := LabelFileText(polygons)]
    {
      if polygons != [] {
        images := images[imagePath := bg];
        var text := "";
        var k := 0;
        while k < |polygons|
          invariant 0 <= k <= |polygons|
          invariant text == Concat(LabelLines(polygons[..k]))
        {
          assert polygons[..k + 1][..k] == polygons[..k];
          text := text + "0 " + polygons[k] + "\n";
          k := k + 1;
        }
        assert polygons[..|polygons|] == polygons;
        labels := labels[labelPath := text];
      }
    }

    /** One iteration of the loop of `generate_dataset` for index `i`, with the
        prepared watermark `wm` and the decoded background (None when `cv2.imread`
        failed). */
    method GenerateSample(i: nat, d: Draw, wm: seq<seq<Bgra>>, bg: Option<seq<seq<Bgr>>>, ops: Ops)
      returns (outcome: SampleOutcome)
      requires IsImage(wm) && WellBehaved(ops)
      requires bg.Some? ==> IsImage(bg.value) && DrawInRange(wm, bg.value, d)
      modifies this
      ensures outcome == Unreadable <==> bg.None?
      ensures bg.Some? ==> (outcome == TooSmall <==> PlannedSize(wm, bg.value, d).None?)
      ensures outcome.NoPolygons? ==>
        bg.Some? && PlannedSize(wm, bg.value, d).Some? && Polygons(wm, bg.value, d, ops) == []
      ensures !outcome.Written? ==> images == old(images) && labels == old(labels)
      ensures (images, labels) == SampleFiles((old(images), old(labels)), i, d, wm, bg, ops)
      ensures outcome.Written? ==>
        && bg.Some? && PlannedSize(wm, bg.value, d).Some?
        && Polygons(wm, bg.value, d, ops) != []
        && outcome == Written(SampleImagePath(d, i), SampleLabelPath(d, i))
        && images == old(images)[outcome.imagePath := Composited(wm, bg.value, d, ops)]
        && labels == old(labels)[outcome.labelPath := LabelFileText(Polygons(wm, bg.value, d, ops))]
    {
      if bg.None? {
        return Unreadable;
      }
      var bgImg := bg.value;
      var cur := AugmentWatermark(wm, d);
      var size := TargetSize(|bgImg|, Width(bgImg), cur.Length0, cur.Length1, d.scale);
      if size.None? {
        return TooSmall;
      }
      var canvas, polygons := PasteAndTrace(cur, wm, bgImg, d, size.value, ops);
      if polygons == [] {
        return NoPolygons;
      }
      outcome := Written(SampleImagePath(d, i), SampleLabelPath(d, i));
      WriteSample(outcome.imagePath, outcome.labelPath, canvas, polygons);
    }

    /** `generate_dataset`. `sourceExists` says whether `watermark.png` exists,
        `backgrounds` holds the decoded `*.jpg` backgrounds (None where `cv2.imread`
        fails), `decoded` the decoded watermark, and `draws` the draws of each
        iteration. The dataset directories are created first; that is not modelled.
        A run that gets to the loop leaves the files `GeneratedFiles` says. */
    method GenerateDataset(sourceExists: bool, backgrounds: seq<Option<seq<seq<Bgr>>>>,
                           decoded: Option<Watermark>, dilationSize: int,
                           dilate: (seq<seq<Bgra>>, int) -> seq<seq<Bgra>>,
                           draws: seq<Draw>, ops: Ops)
      returns (outcome: GenerateOutcome)
      requires WellBehaved(ops) && DilateKeepsShape(dilate)
      requires decoded.Some? ==> IsWatermarkImage(decoded.value)
      requires decoded.Some? && !decoded.value.OneChannel? ==>
        DrawsFit(PreparedWatermark(decoded.value, dilationSize, dilate), backgrounds, draws)
      modifies this
      ensures !sourceExists ==> outcome == NoWatermarkFile
      ensures sourceExists && backgrounds == [] ==> outcome == NoBackgrounds
      ensures sourceExists && backgrounds != [] && decoded.None? ==> outcome == UnreadableWatermark
      ensures sourceExists && backgrounds != [] && decoded.Some? && decoded.value.OneChannel? ==>
        outcome == SingleChannelWatermark
      ensures outcome != Generated ==> images == old(images) && labels == old(labels)
      ensures outcome == Generated <==>
        sourceExists && backgrounds != [] && decoded.Some? && !decoded.value.OneChannel?
      ensures outcome == Generated ==>
        (images, labels) == GeneratedFiles((old(images), old(labels)),
                                           PreparedWatermark(decoded.value, dilationSize, dilate), backgrounds, draws, ops)
    {
      if !sourceExists {
        return NoWatermarkFile;
      }
      if backgrounds == [] {
        return NoBackgrounds;
      }
      if decoded.None? {
        return UnreadableWatermark;
      }
      if decoded.value.OneChannel? {
        return SingleChannelWatermark;
      }
      var wm := PreparedWatermark(decoded.value, dilationSize, dilate);
      ghost var start := (images, labels);
      var i := 0;
      while i < |draws|
        invariant 0 <= i <= |draws|
        invariant DrawsFit(wm, backgrounds, draws[..i])
        invariant (images, labels) == GeneratedFiles(start, wm, backgrounds, draws[..i], ops)
      {
        var d := draws[i];
        assert DrawFits(wm, backgrounds, d);
        assert draws[..i + 1][..i] == draws[..i];
        var sample := GenerateSample(i, d, wm, backgrounds[d.bgIndex], ops);
        i := i + 1;
      }
      assert draws[..|draws|] == draws;
      outcome := Generated;
    }
  }

  /** The label file of a written sample is one `fix_labels` leaves unchanged. */
  lemma SampleWrittenIsClean(d: Draw, i: nat, wm: seq<seq<Bgra>>, bg: seq<seq<Bgr>>, ops: Ops)
    requires IsImage(wm) && IsImage(bg) && WellBehaved(ops) && DrawInRange(wm, bg, d)
    requires PlannedSize(wm, bg, d).Some?
    ensures PrepareDataset.FixedContent(LabelFileText(Polygons(wm, bg, d, ops)))
      == LabelFileText(Polygons(wm, bg, d, ops))
  {
    var mask := MaskGrid(|bg|, Width(bg), Resized(wm, bg, d, ops), d.yOff, d.xOff);
    PolygonTextsHaveNoNewline(ops.findContours(mask), Width(bg), |bg|, ops.fmt);
    GeneratedLabelIsClean(Polygons(wm, bg, d, ops));
  }
}
