/**
  Images as values: what a draw buffer means once its bytes, its stride and its pixel format are
  forgotten. The drawing operations are specified here; `DrawBuffers` proves that the in-place
  loops compute exactly these functions.
 */
module Images {

  type byte = b: int | 0 <= b < 256

  datatype Color = Color(red: byte, green: byte, blue: byte) {
    function Component(c: nat): byte
      requires c < 3
    {
      if c == 0 then red else if c == 1 then green else blue
    }
  }

  /** Rows of pixels, top row first. */
  type Image = seq<seq<Color>>

  ghost predicate HasSize(img: Image, width: nat, height: nat) {
    |img| == height && forall y | 0 <= y < height :: |img[y]| == width
  }

  /** Images of one size are equal when they agree pixel by pixel. */
  lemma SamePixels(a: Image, b: Image, width: nat, height: nat)
    requires HasSize(a, width, height) && HasSize(b, width, height)
    requires forall x, y | 0 <= x < width && 0 <= y < height :: a[y][x] == b[y][x]
    ensures a == b
  {
    forall y | 0 <= y < height
      ensures a[y] == b[y]
    {
      assert forall x | 0 <= x < width :: a[y][x] == b[y][x];
    }
  }

  // ------------------------------------------------------------------ outline and crop

  datatype Rect = Rect(left: nat, top: nat, right: nat, bottom: nat)

  /** The rectangle with every coordinate pulled back inside a `width` by `height` image. */
  function Clamped(r: Rect, width: nat, height: nat): (q: Rect)
    requires 0 < width && 0 < height
    ensures q.left < width && q.right < width && q.top < height && q.bottom < height
    ensures r.right < width && r.left <= r.right && r.bottom < height && r.top <= r.bottom ==> q == r
  {
    Rect(if r.left >= width then width - 1 else r.left,
         if r.top >= height then height - 1 else r.top,
         if r.right >= width then width - 1 else r.right,
         if r.bottom >= height then height - 1 else r.bottom)
  }

  function Distance(a: int, b: int): nat {
    if a < b then b - a else a - b
  }

  /** No column or row of the image is nearer to a side than the clamped one, and each side is clamped for itself. */
  lemma ClampedIsNearest(r: Rect, width: nat, height: nat, k: nat)
    requires 0 < width && 0 < height
    ensures var q := Clamped(r, width, height);
      && (k < width ==> Distance(r.left, q.left) <= Distance(r.left, k) && Distance(r.right, q.right) <= Distance(r.right, k))
      && (k < height ==> Distance(r.top, q.top) <= Distance(r.top, k) && Distance(r.bottom, q.bottom) <= Distance(r.bottom, k))
  {
  }

  predicate OnOutline(r: Rect, x: int, y: int) {
    || (r.left <= x <= r.right && (y == r.top || y == r.bottom))
    || (r.top <= y <= r.bottom && (x == r.left || x == r.right))
  }

  /**
    The outline of a rectangle is what it covers without its inside. With left and right exchanged only
    the two sides are left of it, with top and bottom exchanged only the two edges, and with both
    exchanged nothing.
   */
  lemma OutlineIsBoundary(r: Rect, x: int, y: int)
    ensures OnOutline(r, x, y) <==>
      if r.left <= r.right && r.top <= r.bottom then
        r.left <= x <= r.right && r.top <= y <= r.bottom && !(r.left < x < r.right && r.top < y < r.bottom)
      else if r.top <= r.bottom then (x == r.left || x == r.right) && r.top <= y <= r.bottom
      else if r.left <= r.right then (y == r.top || y == r.bottom) && r.left <= x <= r.right
      else false
  {
  }

  function WithPixel(img: Image, x: nat, y: nat, color: Color): Image
    requires y < |img| && x < |img[y]|
  {
    img[y := img[y][x := color]]
  }

  /** Pixel (`x`, `y`) is on the horizontal lines left of `hx` or on the vertical lines above `vy`. */
  predicate Traced(r: Rect, hx: int, vy: int, x: int, y: int) {
    || (r.left <= x < hx && (y == r.top || y == r.bottom))
    || (r.top <= y < vy && (x == r.left || x == r.right))
  }

  function PartOutlined(img: Image, r: Rect, hx: int, vy: int, color: Color): Image {
    seq(|img|, y requires 0 <= y < |img| =>
      seq(|img[y]|, x requires 0 <= x < |img[y]| => if Traced(r, hx, vy, x, y) then color else img[y][x]))
  }

  /** `img` with the outline of `r` painted in `color`. */
  function Outlined(img: Image, r: Rect, color: Color): (out: Image)
    ensures |out| == |img| && forall y | 0 <= y < |img| :: |out[y]| == |img[y]|
    ensures forall y, x | 0 <= y < |img| && 0 <= x < |img[y]| ::
              out[y][x] == if OnOutline(r, x, y) then color else img[y][x]
  {
    PartOutlined(img, r, r.right + 1, r.bottom + 1, color)
  }

  /** Any crop that misses the outline shows what it showed before. */
  lemma CropInsideOutline(img: Image, r: Rect, color: Color, left: nat, top: nat, width: nat, height: nat)
    requires top + height <= |img|
    requires forall y | top <= y < top + height :: left + width <= |img[y]|
    requires forall x, y | left <= x < left + width && top <= y < top + height :: !OnOutline(r, x, y)
    ensures Cropped(Outlined(img, r, color), left, top, width, height) == Cropped(img, left, top, width, height)
  {
    var out := Outlined(img, r, color);
    SamePixels(Cropped(out, left, top, width, height), Cropped(img, left, top, width, height), width, height);
  }

  lemma TraceColumn(img: Image, width: nat, height: nat, r: Rect, hx: nat, color: Color)
    requires HasSize(img, width, height) && r.left <= hx <= r.right
    requires r.right < width && r.top < height && r.bottom < height
    ensures WithPixel(WithPixel(PartOutlined(img, r, hx, r.top, color), hx, r.top, color), hx, r.bottom, color)
            == PartOutlined(img, r, hx + 1, r.top, color)
  {
    SamePixels(WithPixel(WithPixel(PartOutlined(img, r, hx, r.top, color), hx, r.top, color), hx, r.bottom, color),
               PartOutlined(img, r, hx + 1, r.top, color), width, height);
  }

  lemma TraceRow(img: Image, width: nat, height: nat, r: Rect, hx: nat, vy: nat, color: Color)
    requires HasSize(img, width, height) && r.top <= vy <= r.bottom
    requires r.left < width && r.right < width && r.bottom < height
    ensures WithPixel(WithPixel(PartOutlined(img, r, hx, vy, color), r.left, vy, color), r.right, vy, color)
            == PartOutlined(img, r, hx, vy + 1, color)
  {
    SamePixels(WithPixel(WithPixel(PartOutlined(img, r, hx, vy, color), r.left, vy, color), r.right, vy, color),
               PartOutlined(img, r, hx, vy + 1, color), width, height);
  }

  lemma TraceStart(img: Image, width: nat, height: nat, r: Rect, color: Color)
    requires HasSize(img, width, height)
    ensures PartOutlined(img, r, r.left, r.top, color) == img
  {
    SamePixels(PartOutlined(img, r, r.left, r.top, color), img, width, height);
  }

  lemma TraceEnd(img: Image, width: nat, height: nat, r: Rect, hx: nat, vy: nat, color: Color)
    requires HasSize(img, width, height)
    requires hx == if r.left <= r.right then r.right + 1 else r.left
    requires vy == if r.top <= r.bottom then r.bottom + 1 else r.top
    ensures PartOutlined(img, r, hx, vy, color) == Outlined(img, r, color)
  {
    SamePixels(PartOutlined(img, r, hx, vy, color), Outlined(img, r, color), width, height);
  }

  /** The pixels of `img` from (`left`, `top`), `width` across and `height` down. */
  function Cropped(img: Image, left: nat, top: nat, width: nat, height: nat): Image
    requires top + height <= |img|
    requires forall y | top <= y < top + height :: left + width <= |img[y]|
  {
    seq(height, y requires 0 <= y < height => img[top + y][left..left + width])
  }

  /** The pixel of a crop at (`x`, `y`) is that of the image further right and down by where the crop begins. */
  lemma CroppedPixel(img: Image, sw: nat, sh: nat, left: nat, top: nat, width: nat, height: nat, x: nat, y: nat)
    requires HasSize(img, sw, sh) && left + width <= sw && top + height <= sh && x < width && y < height
    ensures HasSize(Cropped(img, left, top, width, height), width, height)
    ensures Cropped(img, left, top, width, height)[y][x] == img[y + top][x + left]
  {
  }

  /** Cropping a crop is cropping once, from where the first crop begins. */
  lemma CropOfCrop(img: Image, sw: nat, sh: nat, left: nat, top: nat, width: nat, height: nat, l: nat, t: nat, w: nat, h: nat)
    requires HasSize(img, sw, sh) && left + width <= sw && top + height <= sh && l + w <= width && t + h <= height
    ensures HasSize(Cropped(img, left, top, width, height), width, height)
    ensures Cropped(Cropped(img, left, top, width, height), l, t, w, h) == Cropped(img, left + l, top + t, w, h)
  {
    var once := Cropped(img, left, top, width, height);
    var twice, direct := Cropped(once, l, t, w, h), Cropped(img, left + l, top + t, w, h);
    forall x, y | 0 <= x < w && 0 <= y < h ensures twice[y][x] == direct[y][x] {
      CroppedPixel(once, width, height, l, t, w, h, x, y);
      CroppedPixel(img, sw, sh, left, top, width, height, l + x, t + y);
      CroppedPixel(img, sw, sh, left + l, top + t, w, h, x, y);
    }
    SamePixels(twice, direct, w, h);
  }

  /** `img` with its top left corner overwritten by `patch`. */
  function Pasted(img: Image, patch: Image): Image
    requires |patch| <= |img|
    requires forall y | 0 <= y < |patch| :: |patch[y]| <= |img[y]|
  {
    seq(|img|, y requires 0 <= y < |img| =>
      if y < |patch| then patch[y] + img[y][|patch[y]|..] else img[y])
  }

  /** Behind and below the patch the image stays as it is. */
  lemma PastedPixel(img: Image, width: nat, height: nat, patch: Image, w: nat, h: nat, x: nat, y: nat)
    requires HasSize(img, width, height) && HasSize(patch, w, h) && w <= width && h <= height && x < width && y < height
    ensures HasSize(Pasted(img, patch), width, height)
    ensures Pasted(img, patch)[y][x] == if x < w && y < h then patch[y][x] else img[y][x]
  {
  }

  /** Pixel (`x`, `y`) of the patch is in the first `rows` rows, or in the first `cols` of the next. */
  predicate Copied(rows: int, cols: int, x: int, y: int) {
    y < rows || (y == rows && x < cols)
  }

  /** `img` with the first `rows` rows of `patch` and `cols` pixels of the next one written over it. */
  function PartPasted(img: Image, patch: Image, rows: int, cols: int): Image {
    seq(|img|, y requires 0 <= y < |img| =>
      seq(|img[y]|, x requires 0 <= x < |img[y]| =>
        if y < |patch| && x < |patch[y]| && Copied(rows, cols, x, y) then patch[y][x] else img[y][x]))
  }

  lemma PasteStep(img: Image, width: nat, height: nat, patch: Image, w: nat, h: nat, rows: nat, cols: nat)
    requires HasSize(img, width, height) && HasSize(patch, w, h) && w <= width && h <= height
    requires rows < h && cols < w
    ensures WithPixel(PartPasted(img, patch, rows, cols), cols, rows, patch[rows][cols])
            == PartPasted(img, patch, rows, cols + 1)
  {
    SamePixels(WithPixel(PartPasted(img, patch, rows, cols), cols, rows, patch[rows][cols]),
               PartPasted(img, patch, rows, cols + 1), width, height);
  }

  lemma PasteStart(img: Image, width: nat, height: nat, patch: Image)
    requires HasSize(img, width, height)
    ensures PartPasted(img, patch, 0, 0) == img
  {
    SamePixels(PartPasted(img, patch, 0, 0), img, width, height);
  }

  lemma PasteRow(img: Image, width: nat, height: nat, patch: Image, w: nat, h: nat, rows: nat)
    requires HasSize(img, width, height) && HasSize(patch, w, h)
    ensures PartPasted(img, patch, rows, w) == PartPasted(img, patch, rows + 1, 0)
  {
    SamePixels(PartPasted(img, patch, rows, w), PartPasted(img, patch, rows + 1, 0), width, height);
  }

  lemma PasteEnd(img: Image, width: nat, height: nat, patch: Image, w: nat, h: nat)
    requires HasSize(img, width, height) && HasSize(patch, w, h) && w <= width && h <= height
    ensures PartPasted(img, patch, h, 0) == Pasted(img, patch)
  {
    SamePixels(PartPasted(img, patch, h, 0), Pasted(img, patch), width, height);
  }

  /** A patch of the size of the image replaces it. */
  lemma PasteAll(img: Image, patch: Image, width: nat, height: nat)
    requires HasSize(img, width, height) && HasSize(patch, width, height)
    ensures Pasted(img, patch) == patch
  {
    SamePixels(Pasted(img, patch), patch, width, height);
  }

  /** What is pasted can be cropped back. */
  lemma CropOfPasted(img: Image, width: nat, height: nat, patch: Image, w: nat, h: nat)
    requires HasSize(img, width, height) && HasSize(patch, w, h) && w <= width && h <= height
    ensures Cropped(Pasted(img, patch), 0, 0, w, h) == patch
  {
    SamePixels(Cropped(Pasted(img, patch), 0, 0, w, h), patch, w, h);
  }

  lemma CropWhole(img: Image, width: nat, height: nat)
    requires HasSize(img, width, height)
    ensures Cropped(img, 0, 0, width, height) == img
  {
    SamePixels(Cropped(img, 0, 0, width, height), img, width, height);
  }

  // ------------------------------------------------------------------ bilinear resize

  /** Two neighbouring samples of one axis and the weight of the second. */
  datatype Taps = Taps(lo: int, hi: int, weight: real)

  /** The position on the source axis that destination pixel `i` samples (pixel centres). */
  function SourcePos(i: nat, dst: nat, src: nat): real
    requires 0 < dst
  {
    (i as real + 0.5) * (src as real / dst as real) - 0.5
  }

  lemma SourcePosRange(i: nat, dst: nat, src: nat)
    requires i < dst && 0 < src
    ensures -0.5 < SourcePos(i, dst, src) < src as real - 0.5
    ensures SourcePos(dst - 1 - i, dst, src) == src as real - 1.0 - SourcePos(i, dst, src)
  {
    var s, d, n := src as real / dst as real, dst as real, src as real;
    assert d * s == n;
    var p := i as real + 0.5;
    assert 0.0 < p * s;
    assert (d - p) * s == d * s - p * s;
    assert 0.0 < (d - p) * s;
    assert (dst - 1 - i) as real + 0.5 == d - p;
  }

  predicate Apart(p: real, q: real, dst: nat, src: nat) {
    (q - p) * dst as real == src as real
  }

  /** Neighbouring destination pixels sample positions that are `src / dst` apart. */
  lemma GridStep(i: nat, dst: nat, src: nat)
    requires 0 < dst
    ensures Apart(SourcePos(i, dst, src), SourcePos(i + 1, dst, src), dst, src)
  {
    var s := src as real / dst as real;
    assert SourcePos(i + 1, dst, src) - SourcePos(i, dst, src) == s;
  }

  /** A grid of positions with that distance, and the same from either end of the axis. */
  ghost predicate IsGrid(f: nat -> real, dst: nat, src: nat)
    requires 0 < dst
  {
    && (forall i: nat :: Apart(f(i), f(i + 1), dst, src))
    && f(dst - 1) == src as real - 1.0 - f(0)
  }

  lemma QuotientIs(q: real, m: real, n: real)
    requires n != 0.0 && q * n == m
    ensures q == m / n
  {
  }

  lemma {:induction false} GridFrom(f: nat -> real, dst: nat, src: nat, i: nat)
    requires 0 < dst && IsGrid(f, dst, src)
    ensures f(i) == f(0) + i as real * (src as real / dst as real)
  {
    if i > 0 {
      GridFrom(f, dst, src, i - 1);
      var s, d := src as real / dst as real, f(i - 1 + 1) - f(i - 1);
      assert Apart(f(i - 1), f(i - 1 + 1), dst, src);
      QuotientIs(d, src as real, dst as real);
      assert i as real * s == (i - 1) as real * s + s;
    }
  }

  /** There is only one such grid: the centres of the destination pixels, on the scale of the source. */
  lemma SourcePosIsTheGrid(f: nat -> real, dst: nat, src: nat, i: nat)
    requires 0 < dst && IsGrid(f, dst, src)
    ensures f(i) == SourcePos(i, dst, src)
  {
    var s, d, n := src as real / dst as real, dst as real, src as real;
    GridFrom(f, dst, src, i);
    GridFrom(f, dst, src, dst - 1);
    assert d * s == n;
    assert (dst - 1) as real * s == n - s;
    assert f(0) == s * 0.5 - 0.5;
    assert (i as real + 0.5) * s == i as real * s + 0.5 * s;
  }

  /** The sampled positions are a grid. */
  lemma SourcePosIsGrid(dst: nat, src: nat)
    requires 0 < dst && 0 < src
    ensures IsGrid((i: nat) => SourcePos(i, dst, src), dst, src)
  {
    var f := (i: nat) => SourcePos(i, dst, src);
    forall i: nat ensures Apart(f(i), f(i + 1), dst, src) {
      GridStep(i, dst, src);
    }
    SourcePosRange(0, dst, src);
  }

  /** The taps of destination pixel `i`, edge cases as in the loop of the resize. */
  function TapsOf(i: nat, dst: nat, src: nat): (t: Taps)
    requires i < dst && 0 < src
    ensures 0 <= t.lo < src && 0 <= t.hi < src && t.lo <= t.hi <= t.lo + 1
    ensures 0.0 <= t.weight <= 1.0
  {
    SourcePosRange(i, dst, src);
    var s := SourcePos(i, dst, src);
    var i0 := s.Floor;
    var lo := if i0 < 0 then 0 else if i0 >= src then src - 1 else i0;
    var hi := if i0 + 1 >= src then src - 1 else i0 + 1;
    Taps(lo, hi, if i0 < 0 then 1.0 else s - i0 as real)
  }

  function Lerp(a: real, b: real, w: real): real {
    a * (1.0 - w) + b * w
  }

  /**
    What the taps mean, independently of how they are found: the weighted position is the sampled
    position, clamped to the centres of the first and the last source pixel.
   */
  lemma TapsAreCentred(i: nat, dst: nat, src: nat)
    requires i < dst && 0 < src
    ensures var t, s := TapsOf(i, dst, src), SourcePos(i, dst, src);
            Lerp(t.lo as real, t.hi as real, t.weight)
            == if s < 0.0 then 0.0 else if s > (src - 1) as real then (src - 1) as real else s
  {
    SourcePosRange(i, dst, src);
    var t, s := TapsOf(i, dst, src), SourcePos(i, dst, src);
    if t.lo == t.hi {
      assert Lerp(t.lo as real, t.hi as real, t.weight) == t.lo as real;
    } else {
      assert Lerp(t.lo as real, t.hi as real, t.weight) == t.lo as real + t.weight;
    }
  }

  /** Clamp to 0..255 and round to nearest. */
  function Quantized(v: real): byte {
    var u := if v < 0.0 then 0.0 else if v > 255.0 then 255.0 else v;
    (u + 0.5).Floor
  }

  /** The byte written is the nearest one; halfway between two it is the greater. */
  lemma QuantizedIsNearest(v: real)
    requires 0.0 <= v <= 255.0
    ensures Quantized(v) as real - 0.5 <= v < Quantized(v) as real + 0.5
  {
  }

  /** The interpolated value, before clamping and rounding. */
  function Blend(a: real, b: real, c: real, d: real, wx: real, wy: real): real {
    Lerp(Lerp(a, b, wx), Lerp(c, d, wx), wy)
  }

  function ResizedValue(img: Image, sw: nat, sh: nat, dw: nat, dh: nat, x: nat, y: nat, c: nat): real
    requires HasSize(img, sw, sh) && 0 < sw && 0 < sh && x < dw && y < dh && c < 3
  {
    var tx, ty := TapsOf(x, dw, sw), TapsOf(y, dh, sh);
    Blend(img[ty.lo][tx.lo].Component(c) as real, img[ty.lo][tx.hi].Component(c) as real,
          img[ty.hi][tx.lo].Component(c) as real, img[ty.hi][tx.hi].Component(c) as real,
          tx.weight, ty.weight)
  }

  function ResizedPixel(img: Image, sw: nat, sh: nat, dw: nat, dh: nat, x: nat, y: nat): Color
    requires HasSize(img, sw, sh) && 0 < sw && 0 < sh && x < dw && y < dh
  {
    Color(Quantized(ResizedValue(img, sw, sh, dw, dh, x, y, 0)),
          Quantized(ResizedValue(img, sw, sh, dw, dh, x, y, 1)),
          Quantized(ResizedValue(img, sw, sh, dw, dh, x, y, 2)))
  }

  function Resized(img: Image, sw: nat, sh: nat, dw: nat, dh: nat): Image
    requires HasSize(img, sw, sh) && 0 < sw && 0 < sh
  {
    seq(dh, y requires 0 <= y < dh => seq(dw, x requires 0 <= x < dw => ResizedPixel(img, sw, sh, dw, dh, x, y)))
  }

  // ------------------------------------------------------------------ resize stays in range

  lemma NonNegativeProduct(a: real, b: real)
    requires 0.0 <= a && 0.0 <= b
    ensures 0.0 <= a * b
  {
  }

  lemma LerpBetween(a: real, b: real, w: real, lo: real, hi: real)
    requires lo <= a <= hi && lo <= b <= hi && 0.0 <= w <= 1.0
    ensures lo <= Lerp(a, b, w) <= hi
  {
    NonNegativeProduct(a - lo, 1.0 - w);
    NonNegativeProduct(b - lo, w);
    NonNegativeProduct(hi - a, 1.0 - w);
    NonNegativeProduct(hi - b, w);
    assert Lerp(a, b, w) - lo == (a - lo) * (1.0 - w) + (b - lo) * w;
    assert hi - Lerp(a, b, w) == (hi - a) * (1.0 - w) + (hi - b) * w;
  }

  /**
    Whatever bounds the four samples bounds the interpolated value and the byte written: the 0..255
    clamps never fire, and no output component leaves the range of its samples.
   */
  lemma ResizeWithinSamples(img: Image, sw: nat, sh: nat, dw: nat, dh: nat, x: nat, y: nat, c: nat,
                            lo: byte, hi: byte)
    requires HasSize(img, sw, sh) && 0 < sw && 0 < sh && x < dw && y < dh && c < 3
    requires var tx, ty := TapsOf(x, dw, sw), TapsOf(y, dh, sh);
             && lo <= img[ty.lo][tx.lo].Component(c) <= hi && lo <= img[ty.lo][tx.hi].Component(c) <= hi
             && lo <= img[ty.hi][tx.lo].Component(c) <= hi && lo <= img[ty.hi][tx.hi].Component(c) <= hi
    ensures lo as real <= ResizedValue(img, sw, sh, dw, dh, x, y, c) <= hi as real
    ensures lo <= ResizedPixel(img, sw, sh, dw, dh, x, y).Component(c) <= hi
  {
    var tx, ty := TapsOf(x, dw, sw), TapsOf(y, dh, sh);
    var a, b := img[ty.lo][tx.lo].Component(c) as real, img[ty.lo][tx.hi].Component(c) as real;
    var d, e := img[ty.hi][tx.lo].Component(c) as real, img[ty.hi][tx.hi].Component(c) as real;
    LerpBetween(a, b, tx.weight, lo as real, hi as real);
    LerpBetween(d, e, tx.weight, lo as real, hi as real);
    LerpBetween(Lerp(a, b, tx.weight), Lerp(d, e, tx.weight), ty.weight, lo as real, hi as real);
  }

  /** Resizing to the size the image already has changes nothing. */
  lemma ResizeToOwnSize(img: Image, width: nat, height: nat)
    requires HasSize(img, width, height) && 0 < width && 0 < height
    ensures Resized(img, width, height, width, height) == img
  {
    forall x, y | 0 <= x < width && 0 <= y < height
      ensures Resized(img, width, height, width, height)[y][x] == img[y][x]
    {
      UnitScaleTaps(x, width);
      UnitScaleTaps(y, height);
    }
    SamePixels(Resized(img, width, height, width, height), img, width, height);
  }

  lemma UnitScaleTaps(i: nat, n: nat)
    requires i < n
    ensures TapsOf(i, n, n).lo == i && TapsOf(i, n, n).weight == 0.0
  {
    assert n as real / n as real == 1.0;
    assert SourcePos(i, n, n) == i as real;
  }

  // ------------------------------------------------------------------ mirror symmetry

  function MirroredX(img: Image): Image {
    seq(|img|, y requires 0 <= y < |img| =>
      seq(|img[y]|, x requires 0 <= x < |img[y]| => img[y][|img[y]| - 1 - x]))
  }

  function MirroredY(img: Image): Image {
    seq(|img|, y requires 0 <= y < |img| => img[|img| - 1 - y])
  }

  /** The mirrored destination pixel reads the mirrored source pixels with swapped weights. */
  lemma MirroredTaps(i: nat, dst: nat, src: nat)
    requires i < dst && 0 < src
    ensures var t, m := TapsOf(i, dst, src), TapsOf(dst - 1 - i, dst, src);
            || (m.lo == src - 1 - t.hi && m.hi == src - 1 - t.lo && (t.lo == t.hi || m.weight == 1.0 - t.weight))
            || (m.lo == src - 1 - t.lo && m.weight == 0.0 && t.weight == 0.0)
  {
    SourcePosRange(i, dst, src);
    SourcePosRange(dst - 1 - i, dst, src);
    var s := SourcePos(i, dst, src);
    var m := SourcePos(dst - 1 - i, dst, src);
    if s == s.Floor as real {
      assert m == (src - 1 - s.Floor) as real;
      assert m.Floor == src - 1 - s.Floor;
    } else {
      assert (src - 2 - s.Floor) as real < m < (src - 1 - s.Floor) as real;
      assert m.Floor == src - 2 - s.Floor;
    }
  }

  /** One axis: interpolating a flipped line at the mirrored pixel gives the same value. */
  lemma MirroredLerp(line: seq<real>, flipped: seq<real>, i: nat, dst: nat)
    requires i < dst && 0 < |line| == |flipped|
    requires forall k | 0 <= k < |line| :: flipped[k] == line[|line| - 1 - k]
    ensures var t, m := TapsOf(i, dst, |line|), TapsOf(dst - 1 - i, dst, |line|);
            Lerp(flipped[m.lo], flipped[m.hi], m.weight) == Lerp(line[t.lo], line[t.hi], t.weight)
  {
    MirroredTaps(i, dst, |line|);
  }

  /** Row `y` of one colour component. */
  function RowOf(img: Image, sw: nat, sh: nat, y: nat, c: nat): seq<real>
    requires HasSize(img, sw, sh) && y < sh && c < 3
  {
    seq(sw, x requires 0 <= x < sw => img[y][x].Component(c) as real)
  }

  /** Row `y` of one colour component, interpolated at `t`. */
  function AcrossRow(img: Image, sw: nat, sh: nat, t: Taps, y: nat, c: nat): real
    requires HasSize(img, sw, sh) && 0 <= t.lo < sw && 0 <= t.hi < sw && y < sh && c < 3
  {
    Lerp(img[y][t.lo].Component(c) as real, img[y][t.hi].Component(c) as real, t.weight)
  }

  lemma MirroredValueX(img: Image, flipped: Image, sw: nat, sh: nat, dw: nat, dh: nat, x: nat, y: nat, c: nat)
    requires HasSize(img, sw, sh) && 0 < sw && 0 < sh && x < dw && y < dh && c < 3
    requires HasSize(flipped, sw, sh) && flipped == MirroredX(img)
    ensures ResizedValue(flipped, sw, sh, dw, dh, dw - 1 - x, y, c) == ResizedValue(img, sw, sh, dw, dh, x, y, c)
  {
    var ty := TapsOf(y, dh, sh);
    MirroredLerp(RowOf(img, sw, sh, ty.lo, c), RowOf(flipped, sw, sh, ty.lo, c), x, dw);
    MirroredLerp(RowOf(img, sw, sh, ty.hi, c), RowOf(flipped, sw, sh, ty.hi, c), x, dw);
  }

  lemma MirroredValueY(img: Image, flipped: Image, sw: nat, sh: nat, dw: nat, dh: nat, x: nat, y: nat, c: nat)
    requires HasSize(img, sw, sh) && 0 < sw && 0 < sh && x < dw && y < dh && c < 3
    requires HasSize(flipped, sw, sh) && flipped == MirroredY(img)
    ensures ResizedValue(flipped, sw, sh, dw, dh, x, dh - 1 - y, c) == ResizedValue(img, sw, sh, dw, dh, x, y, c)
  {
    var tx := TapsOf(x, dw, sw);
    var column := seq(sh, k requires 0 <= k < sh => AcrossRow(img, sw, sh, tx, k, c));
    var upturned := seq(sh, k requires 0 <= k < sh => AcrossRow(flipped, sw, sh, tx, k, c));
    MirroredLerp(column, upturned, y, dh);
  }

  lemma MirroredPixelX(img: Image, flipped: Image, sw: nat, sh: nat, dw: nat, dh: nat, x: nat, y: nat)
    requires HasSize(img, sw, sh) && 0 < sw && 0 < sh && x < dw && y < dh
    requires HasSize(flipped, sw, sh) && flipped == MirroredX(img)
    ensures ResizedPixel(flipped, sw, sh, dw, dh, dw - 1 - x, y) == ResizedPixel(img, sw, sh, dw, dh, x, y)
  {
    MirroredValueX(img, flipped, sw, sh, dw, dh, x, y, 0);
    MirroredValueX(img, flipped, sw, sh, dw, dh, x, y, 1);
    MirroredValueX(img, flipped, sw, sh, dw, dh, x, y, 2);
  }

  lemma MirroredPixelY(img: Image, flipped: Image, sw: nat, sh: nat, dw: nat, dh: nat, x: nat, y: nat)
    requires HasSize(img, sw, sh) && 0 < sw && 0 < sh && x < dw && y < dh
    requires HasSize(flipped, sw, sh) && flipped == MirroredY(img)
    ensures ResizedPixel(flipped, sw, sh, dw, dh, x, dh - 1 - y) == ResizedPixel(img, sw, sh, dw, dh, x, y)
  {
    MirroredValueY(img, flipped, sw, sh, dw, dh, x, y, 0);
    MirroredValueY(img, flipped, sw, sh, dw, dh, x, y, 1);
    MirroredValueY(img, flipped, sw, sh, dw, dh, x, y, 2);
  }

  /** Resizing commutes with a left-right flip, for every image and every pair of sizes. */
  lemma ResizeCommutesWithMirrorX(img: Image, sw: nat, sh: nat, dw: nat, dh: nat)
    requires HasSize(img, sw, sh) && 0 < sw && 0 < sh
    ensures HasSize(MirroredX(img), sw, sh)
    ensures Resized(MirroredX(img), sw, sh, dw, dh) == MirroredX(Resized(img, sw, sh, dw, dh))
  {
    var flipped, small := MirroredX(img), Resized(img, sw, sh, dw, dh);
    forall x, y | 0 <= x < dw && 0 <= y < dh
      ensures Resized(flipped, sw, sh, dw, dh)[y][x] == MirroredX(small)[y][x]
    {
      MirroredPixelX(img, flipped, sw, sh, dw, dh, dw - 1 - x, y);
    }
    SamePixels(Resized(flipped, sw, sh, dw, dh), MirroredX(small), dw, dh);
  }

  /** Resizing commutes with a top-bottom flip, for every image and every pair of sizes. */
  lemma ResizeCommutesWithMirrorY(img: Image, sw: nat, sh: nat, dw: nat, dh: nat)
    requires HasSize(img, sw, sh) && 0 < sw && 0 < sh
    ensures HasSize(MirroredY(img), sw, sh)
    ensures Resized(MirroredY(img), sw, sh, dw, dh) == MirroredY(Resized(img, sw, sh, dw, dh))
  {
    var flipped, small := MirroredY(img), Resized(img, sw, sh, dw, dh);
    forall x, y | 0 <= x < dw && 0 <= y < dh
      ensures Resized(flipped, sw, sh, dw, dh)[y][x] == MirroredY(small)[y][x]
    {
      MirroredPixelY(img, flipped, sw, sh, dw, dh, x, dh - 1 - y);
    }
    SamePixels(Resized(flipped, sw, sh, dw, dh), MirroredY(small), dw, dh);
  }

  // ------------------------------------------------------------------ resize as a weighted sum

  /** The position on the source axis, no further out than the outermost pixels. */
  function Centre(i: nat, dst: nat, src: nat): real
    requires 0 < dst && 0 < src
  {
    var s := SourcePos(i, dst, src);
    if s < 0.0 then 0.0 else if s > (src - 1) as real then (src - 1) as real else s
  }

  /** Falls from 1 at no distance to 0 at the distance of one pixel. */
  function Tent(distance: real): real {
    if distance <= -1.0 || 1.0 <= distance then 0.0 else if distance < 0.0 then 1.0 + distance else 1.0 - distance
  }

  /** All values of a line, each weighted by how near it is to `p`. */
  function Weighted(line: seq<real>, p: real): real {
    if line == [] then 0.0
    else Weighted(line[..|line| - 1], p) + line[|line| - 1] * Tent(p - (|line| - 1) as real)
  }

  lemma {:induction false} WeightedBelow(line: seq<real>, p: real)
    requires |line| as real <= p
    ensures Weighted(line, p) == 0.0
  {
    if line != [] {
      WeightedBelow(line[..|line| - 1], p);
    }
  }

  lemma WeightedAtEnd(line: seq<real>, w: real)
    requires line != [] && 0.0 <= w < 1.0
    ensures Weighted(line, (|line| - 1) as real + w) == line[|line| - 1] * (1.0 - w)
  {
    var n := |line| - 1;
    WeightedBelow(line[..n], n as real + w);
    assert n as real + w - n as real == w && Tent(w) == 1.0 - w;
  }

  /** Of a weighted sum at `lo + w` only the values at `lo` and behind it count. */
  lemma {:induction false} WeightedAt(line: seq<real>, lo: nat, w: real)
    requires lo + 1 < |line| && 0.0 <= w < 1.0
    ensures Weighted(line, lo as real + w) == Lerp(line[lo], line[lo + 1], w)
  {
    var p, n := lo as real + w, |line| - 1;
    var front := line[..n];
    if lo + 1 == n {
      WeightedAtEnd(front, w);
      assert Tent(p - n as real) == w;
    } else {
      WeightedAt(front, lo, w);
      assert Tent(p - n as real) == 0.0;
    }
  }

  lemma {:induction false} WeightedOn(line: seq<real>, lo: nat)
    requires lo < |line|
    ensures Weighted(line, lo as real) == line[lo]
  {
    var n := |line| - 1;
    if lo == n {
      WeightedAtEnd(line, 0.0);
    } else {
      WeightedOn(line[..n], lo);
      assert Tent(lo as real - n as real) == 0.0;
    }
  }

  lemma LerpSame(a: real, w: real)
    ensures Lerp(a, a, w) == a
  {
    assert a * (1.0 - w) == a - a * w;
  }

  /** The taps are around the centre, and the weight is how far it is behind the first. */
  lemma CentreOfTaps(i: nat, dst: nat, src: nat)
    requires i < dst && 0 < src
    ensures var t, p := TapsOf(i, dst, src), Centre(i, dst, src);
      if t.lo == t.hi then p == t.lo as real
      else t.hi == t.lo + 1 && p == t.lo as real + t.weight && t.weight < 1.0
  {
    SourcePosRange(i, dst, src);
  }

  /** Interpolating between the taps is weighting the whole line. */
  lemma TapsWeigh(line: seq<real>, i: nat, dst: nat)
    requires i < dst && line != []
    ensures var t := TapsOf(i, dst, |line|);
      Lerp(line[t.lo], line[t.hi], t.weight) == Weighted(line, Centre(i, dst, |line|))
  {
    CentreOfTaps(i, dst, |line|);
    var t := TapsOf(i, dst, |line|);
    if t.lo == t.hi {
      WeightedOn(line, t.lo);
      LerpSame(line[t.lo], t.weight);
    } else {
      WeightedAt(line, t.lo, t.weight);
    }
  }

  /**
    What a resize computes, independently of taps: all source pixels, weighted on each axis by how near
    they are to the centre of the destination pixel.
   */
  lemma ResizedIsWeighted(img: Image, sw: nat, sh: nat, dw: nat, dh: nat, x: nat, y: nat, c: nat)
    requires HasSize(img, sw, sh) && 0 < sw && 0 < sh && x < dw && y < dh && c < 3
    ensures ResizedValue(img, sw, sh, dw, dh, x, y, c) ==
      Weighted(seq(sh, v requires 0 <= v < sh => Weighted(RowOf(img, sw, sh, v, c), Centre(x, dw, sw))), Centre(y, dh, sh))
  {
    var tx, ty := TapsOf(x, dw, sw), TapsOf(y, dh, sh);
    var column := seq(sh, v requires 0 <= v < sh => Weighted(RowOf(img, sw, sh, v, c), Centre(x, dw, sw)));
    TapsWeigh(RowOf(img, sw, sh, ty.lo, c), x, dw);
    TapsWeigh(RowOf(img, sw, sh, ty.hi, c), x, dw);
    TapsWeigh(column, y, dh);
  }

  /** Two pixels, black and red, widened to four: a quarter and three quarters of the way in between. */
  lemma WidenedExample(black: Color, red: Color)
    requires black.red == 0 && red.red == 255
    ensures var out := Resized([[black, red]], 2, 1, 4, 1);
      |out| == 1 && |out[0]| == 4 && out[0][0].red == 0 && out[0][1].red == 64 && out[0][2].red == 191 && out[0][3].red == 255
  {
    assert SourcePos(0, 4, 2) == -0.25 && SourcePos(1, 4, 2) == 0.25 && SourcePos(2, 4, 2) == 0.75 && SourcePos(3, 4, 2) == 1.25;
    assert TapsOf(0, 4, 2) == Taps(0, 0, 1.0) && TapsOf(1, 4, 2) == Taps(0, 1, 0.25);
    assert TapsOf(2, 4, 2) == Taps(0, 1, 0.75) && TapsOf(3, 4, 2) == Taps(1, 1, 0.25);
    assert SourcePos(0, 1, 1) == 0.0 && TapsOf(0, 1, 1) == Taps(0, 0, 0.0);
  }
}
