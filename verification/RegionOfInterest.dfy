/**
  The region of interest of a frame: given in pixels of the inference input, scaled to the raw
  image in 32-bit arithmetic, and cropped from it into a buffer of exactly the scaled size.
 */
module RegionOfInterest {
  import opened Arithmetic
  import opened Basics
  import opened Images
  import opened DrawBuffers

  datatype CropProperty = CropProperty(left: uint32, top: uint32, width: uint32, height: uint32)

  function Scale(v: uint32, to: uint32, from: uint32): uint32 {
    if from == 0 then v else ScaleDown(v * to % UINT32, from)
  }

  function ScaleDown(v: uint32, from: uint32): (r: uint32)
    requires from != 0
    ensures r <= v
  {
    QuotientBounds(v, from);
    v / from
  }

  lemma FloorsAddUp(p: nat, q: nat, a: nat, b: nat, t: nat, d: nat)
    requires 0 < d && p * d <= a && q * d <= b && a + b <= t * d
    ensures p + q <= t
  {
    assert (p + q) * d == p * d + q * d;
    if t < p + q {
      ProductGrows(t, p + q, d);
    }
  }

  lemma ProductLimited(start: nat, extent: nat, from: nat, to: nat)
    requires start + extent <= from
    ensures start * to + extent * to <= to * from
  {
    var d: nat := from - (start + extent);
    assert 0 <= d * to;
    assert to * from == to * (start + extent + d) == start * to + extent * to + d * to;
  }

  /** The extent is limited to the inference input, then everything is scaled to the raw image. */
  function Scaled(roi: CropProperty, inWidth: uint32, inHeight: uint32, rawWidth: uint32, rawHeight: uint32): CropProperty {
    CropProperty(Scale(roi.left, rawWidth, inWidth), Scale(roi.top, rawHeight, inHeight),
                 Scale(if roi.width > inWidth then inWidth else roi.width, rawWidth, inWidth),
                 Scale(if roi.height > inHeight then inHeight else roi.height, rawHeight, inHeight))
  }

  /** The region lies inside an image of that size. */
  predicate Inside(roi: CropProperty, width: nat, height: nat) {
    roi.left + roi.width <= width && roi.top + roi.height <= height
  }

  /** The four products of the scaling stay below 2^32. */
  predicate ScalesExactly(roi: CropProperty, inWidth: uint32, inHeight: uint32, rawWidth: uint32, rawHeight: uint32) {
    && roi.left * rawWidth < UINT32 && roi.top * rawHeight < UINT32
    && (if roi.width > inWidth then inWidth else roi.width) * rawWidth < UINT32
    && (if roi.height > inHeight then inHeight else roi.height) * rawHeight < UINT32
  }

  lemma ScaleIs(v: uint32, to: uint32, from: uint32, product: nat)
    requires 0 < from && product == v * to && product < UINT32
    ensures Scale(v, to, from) == product / from
  {
    RemainderOf(product, UINT32);
  }

  /** `s` is the place of `v` of `from` on an axis of `to`, rounded down. */
  predicate IsPlace(s: int, v: int, to: int, from: int) {
    s * from <= v * to < (s + 1) * from
  }

  lemma ScaleIsPlace(v: uint32, to: uint32, from: uint32)
    requires 0 < from && v * to < UINT32
    ensures IsPlace(Scale(v, to, from), v, to, from)
  {
    var product: nat := v * to;
    ScaleIs(v, to, from, product);
    QuotientIsPlace(product, from);
  }

  lemma QuotientIsPlace(product: nat, from: nat)
    requires 0 < from
    ensures product / from * from <= product < (product / from + 1) * from
  {
    QuotientBounds(product, from);
    Distributes(product / from, from);
  }

  lemma Distributes(s: nat, from: nat)
    ensures (s + 1) * from == s * from + from
  {
  }

  /** Each side of the region goes to its own place in the raw image; an extent is first limited to the input. */
  lemma ScaledPlaces(roi: CropProperty, inWidth: uint32, inHeight: uint32, rawWidth: uint32, rawHeight: uint32)
    requires 0 < inWidth && 0 < inHeight && ScalesExactly(roi, inWidth, inHeight, rawWidth, rawHeight)
    ensures var s := Scaled(roi, inWidth, inHeight, rawWidth, rawHeight);
      && IsPlace(s.left, roi.left, rawWidth, inWidth) && IsPlace(s.top, roi.top, rawHeight, inHeight)
      && (roi.width <= inWidth ==> IsPlace(s.width, roi.width, rawWidth, inWidth))
      && (roi.height <= inHeight ==> IsPlace(s.height, roi.height, rawHeight, inHeight))
      && (inWidth <= roi.width ==> s.width == rawWidth) && (inHeight <= roi.height ==> s.height == rawHeight)
  {
    var w, h := if roi.width > inWidth then inWidth else roi.width, if roi.height > inHeight then inHeight else roi.height;
    ScaleIsPlace(roi.left, rawWidth, inWidth);
    ScaleIsPlace(roi.top, rawHeight, inHeight);
    ScaleIsPlace(w, rawWidth, inWidth);
    ScaleIsPlace(h, rawHeight, inHeight);
    if inWidth <= roi.width {
      FullScales(inWidth, rawWidth);
    }
    if inHeight <= roi.height {
      FullScales(inHeight, rawHeight);
    }
  }

  lemma FullScales(from: uint32, to: uint32)
    requires 0 < from && from * to < UINT32
    ensures Scale(from, to, from) == to
  {
    ScaleIs(from, to, from, from * to);
    WholeScales(from, to);
  }

  /** Without an input size nothing is scaled. */
  lemma UnknownInputKeeps(roi: CropProperty, rawWidth: uint32, rawHeight: uint32)
    ensures Scaled(roi, 0, 0, rawWidth, rawHeight) == roi.(width := 0, height := 0)
  {
  }

  lemma WholeScales(extent: nat, to: nat)
    requires 0 < extent
    ensures extent * to / extent == to
  {
    DivModIs(extent * to, extent, to, 0);
  }

  lemma ScaleAxis(start: uint32, extent: uint32, to: uint32, from: uint32)
    requires start + extent <= from && 0 < from && start * to < UINT32 && extent * to < UINT32
    ensures Scale(start, to, from) + Scale(extent, to, from) <= to
    ensures extent == from ==> Scale(extent, to, from) == to
  {
    var a: nat, b: nat := start * to, extent * to;
    ProductLimited(start, extent, from, to);
    ScaledSum(a, b, to, from);
    ScaleIs(start, to, from, a);
    ScaleIs(extent, to, from, b);
    if extent == from {
      WholeScales(from, to);
    }
  }

  lemma ScaledSum(a: nat, b: nat, t: nat, d: nat)
    requires 0 < d && a + b <= t * d
    ensures a / d + b / d <= t
  {
    QuotientBounds(a, d);
    QuotientBounds(b, d);
    FloorsAddUp(a / d, b / d, a, b, t, d);
  }

  /** A region inside the inference input scales to a region inside the raw image; the whole input to the whole image. */
  lemma ScaledRoiInside(roi: CropProperty, inWidth: uint32, inHeight: uint32, rawWidth: uint32, rawHeight: uint32)
    requires 0 < inWidth && 0 < inHeight && Inside(roi, inWidth, inHeight)
    requires ScalesExactly(roi, inWidth, inHeight, rawWidth, rawHeight)
    ensures Inside(Scaled(roi, inWidth, inHeight, rawWidth, rawHeight), rawWidth, rawHeight)
    ensures roi == CropProperty(0, 0, inWidth, inHeight) ==>
              Scaled(roi, inWidth, inHeight, rawWidth, rawHeight) == CropProperty(0, 0, rawWidth, rawHeight)
  {
    ScaleAxis(roi.left, roi.width, rawWidth, inWidth);
    ScaleAxis(roi.top, roi.height, rawHeight, inHeight);
    if roi == CropProperty(0, 0, inWidth, inHeight) {
      DivModIs(0, inWidth, 0, 0);
      DivModIs(0, inHeight, 0, 0);
    }
  }

  /** The rectangle that the crop is asked for. */
  function RectOf(roi: CropProperty): Rect
    requires 0 < roi.width && 0 < roi.height
  {
    Rect(roi.left, roi.top, roi.left + roi.width - 1, roi.top + roi.height - 1)
  }

  /** Clamping to the image never makes a non-empty region larger or turns it inside out. */
  lemma ClampShrinks(roi: CropProperty, width: nat, height: nat)
    requires 0 < roi.width && 0 < roi.height && 0 < width && 0 < height
    ensures var q := Clamped(RectOf(roi), width, height);
            && q.left <= q.right && q.right + 1 - q.left <= roi.width
            && q.top <= q.bottom && q.bottom + 1 - q.top <= roi.height
    ensures Inside(roi, width, height) ==> Clamped(RectOf(roi), width, height) == RectOf(roi)
  {
  }

  /** What the sizes must satisfy for the buffer of the crop: no 32-bit overflow, offsets fit `int`. */
  predicate CropFits(roi: CropProperty) {
    && roi.left + roi.width <= UINT32 && roi.top + roi.height <= UINT32
    && roi.width * roi.height * 3 < INT32
  }

  /** Scales the region, and crops the packed raw image `src` to it or, if it is empty, falls back to the full frame. */
  method CropToRoi(src: DrawBuffer, inWidth: uint32, inHeight: uint32, roi: CropProperty)
    returns (dst: DrawBuffer, used: CropProperty)
    requires src.format == RGB8 && src.Sound()
    requires CropFits(Scaled(roi, inWidth, inHeight, src.width, src.height))
    modifies src`strideByte
    ensures var s := Scaled(roi, inWidth, inHeight, src.width, src.height);
            if s.width == 0 || s.height == 0 then
              used == s.(width := src.width, height := src.height)
              && dst.address == src.address && dst.size == src.size && dst.width == src.width && dst.height == src.height
            else
              used == s && fresh(dst.address) && dst.width == s.width && dst.height == s.height && dst.Accepted() && dst.Sound()
    ensures var s := Scaled(roi, inWidth, inHeight, src.width, src.height);
            old(src.Accepted()) && s.width != 0 && s.height != 0 ==>
              CornerShows(dst.Shown(), old(src.Shown()), Clamped(RectOf(s), src.width, src.height))
    ensures var s := Scaled(roi, inWidth, inHeight, src.width, src.height);
            old(src.Accepted()) && s.width != 0 && s.height != 0 && Inside(s, src.width, src.height) ==>
              dst.Shown() == Cropped(old(src.Shown()), s.left, s.top, s.width, s.height)
  {
    used := Scaled(roi, inWidth, inHeight, src.width, src.height);
    if used.width == 0 || used.height == 0 {
      dst := new DrawBuffer(src.address, src.size, UNDEFINED, src.width, src.height, src.strideByte);
      used := used.(width := src.width, height := src.height);
      return;
    }
    dst := CropFresh(src, used);
  }

  method CropFresh(src: DrawBuffer, roi: CropProperty) returns (dst: DrawBuffer)
    requires src.format == RGB8 && src.Sound()
    requires 0 < roi.width && 0 < roi.height && CropFits(roi)
    modifies src`strideByte
    ensures fresh(dst) && fresh(dst.address) && dst.width == roi.width && dst.height == roi.height
    ensures dst.Accepted() && dst.Sound()
    ensures old(src.Accepted()) ==> CornerShows(dst.Shown(), old(src.Shown()), Clamped(RectOf(roi), src.width, src.height))
    ensures old(src.Accepted()) && Inside(roi, src.width, src.height) ==>
              dst.Shown() == Cropped(old(src.Shown()), roi.left, roi.top, roi.width, roi.height)
  {
    dst := CropCorner(src, roi);
    if old(src.Accepted()) && Inside(roi, src.width, src.height) {
      CornerIsAll(dst.Shown(), old(src.Shown()), roi, src.width, src.height);
    }
  }

  /** A region inside the image fills a buffer of its size. */
  lemma CornerIsAll(img: Image, from: Image, roi: CropProperty, width: nat, height: nat)
    requires 0 < roi.width && 0 < roi.height && 0 < width && 0 < height && Inside(roi, width, height)
    requires HasSize(img, roi.width, roi.height) && HasSize(from, width, height)
    requires CornerShows(img, from, Clamped(RectOf(roi), width, height))
    ensures img == Cropped(from, roi.left, roi.top, roi.width, roi.height)
  {
    ClampShrinks(roi, width, height);
    CropWhole(img, roi.width, roi.height);
  }

  method CropCorner(src: DrawBuffer, roi: CropProperty) returns (dst: DrawBuffer)
    requires src.format == RGB8 && src.Sound()
    requires 0 < roi.width && 0 < roi.height && CropFits(roi)
    modifies src`strideByte
    ensures fresh(dst) && fresh(dst.address) && dst.width == roi.width && dst.height == roi.height
    ensures dst.Accepted() && dst.Sound()
    ensures old(src.Accepted()) ==> CornerShows(dst.Shown(), old(src.Shown()), Clamped(RectOf(roi), src.width, src.height))
  {
    dst := NewPacked(roi.width, roi.height);
    ghost var bytes := dst.address[..];
    var r := RectOf(roi);
    if src.Accepted() {
      ClampShrinks(roi, src.width, src.height);
    }
    var ret := CropRectangle(src, dst, r.left, r.top, r.right, r.bottom);
    if ret == 0 {
      ShownCorner(dst.address[..], dst.OwnLayout(), bytes, old(src.Shown()), Clamped(r, src.width, src.height));
    }
  }

  lemma ShownCorner(s: seq<byte>, l: Layout, original: seq<byte>, from: Image, q: Rect)
    requires q.left <= q.right && q.top <= q.bottom && HasSizeAtLeast(from, q.right + 1, q.bottom + 1)
    requires l.Fits() && |original| == l.Size() && q.right + 1 - q.left <= l.width && q.bottom + 1 - q.top <= l.height
    requires Shows(s, l, Pasted(Picture(original, l), CroppedTo(from, q)), original)
    ensures CornerShows(Picture(s, l), from, q)
  {
    CornerPasted(Picture(original, l), l.width, l.height, from, q);
  }

  /** The top left corner of `img` is the part `q` of `from`. */
  ghost predicate CornerShows(img: Image, from: Image, q: Rect) {
    && q.left <= q.right && q.top <= q.bottom
    && HasSizeAtLeast(from, q.right + 1, q.bottom + 1)
    && HasSizeAtLeast(img, q.right + 1 - q.left, q.bottom + 1 - q.top)
    && Cropped(img, 0, 0, q.right + 1 - q.left, q.bottom + 1 - q.top) == CroppedTo(from, q)
  }

  lemma CornerPasted(img: Image, width: nat, height: nat, from: Image, q: Rect)
    requires q.left <= q.right && q.top <= q.bottom && HasSizeAtLeast(from, q.right + 1, q.bottom + 1)
    requires HasSize(img, width, height) && q.right + 1 - q.left <= width && q.bottom + 1 - q.top <= height
    ensures CornerShows(Pasted(img, CroppedTo(from, q)), from, q)
  {
    CropOfPasted(img, width, height, CroppedTo(from, q), q.right + 1 - q.left, q.bottom + 1 - q.top);
  }

  method NewPacked(width: uint32, height: uint32) returns (dst: DrawBuffer)
    requires 0 < width && 0 < height && width * height * 3 < INT32
    ensures fresh(dst) && dst.address != null && fresh(dst.address)
    ensures dst.width == width && dst.height == height && dst.format == RGB8
    ensures dst.Accepted() && dst.Sound()
  {
    CropSizes(width, height);
    var size := width * height * 3;
    var bytes := new byte[size];
    dst := new DrawBuffer(bytes, size, RGB8, width, height, width * 3);
    assert dst.OwnLayout() == Layout(false, width, height, width * 3);
  }

  lemma CropSizes(width: nat, height: nat)
    requires 0 < width && 0 < height && width * height * 3 < INT32
    ensures 0 < width * 3 < INT32
    ensures width * 3 * height == width * height * 3
    ensures width * 3 * height % UINT32 == width * height * 3
  {
    assert width * (height - 1) >= 0;
    assert width * height == width * (height - 1) + width;
  }
}
