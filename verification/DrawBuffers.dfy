/**
  Draw buffers: one block of bytes holding a packed or a planar RGB image with an arbitrary stride,
  and the loops that draw, crop and resize in it. `Picture` is the image a buffer shows; every
  operation is proved against the same function of `Images` in both formats.
 */
module DrawBuffers {
  import opened Arithmetic
  import opened Basics
  import opened Images

  const UNDEFINED: int := 0
  const RGB8: int := 1
  const RGB8_PLANAR: int := 2

  // ------------------------------------------------------------------ addressing

  datatype Layout = Layout(planar: bool, width: nat, height: nat, stride: nat) {
    /** Bytes from a component to the same component of the next pixel. */
    function Step(): nat {
      if planar then 1 else 3
    }

    function Size(): nat {
      if planar then stride * height * 3 else stride * height
    }

    /** What the operations need and do not check: rows do not overlap, and no offset overflows. */
    predicate Fits() {
      && 0 < width && 0 < height && width * Step() <= stride
      && stride * height < INT32 && Size() < UINT32
    }

    predicate Holds(x: int, y: int) {
      0 <= x < width && 0 <= y < height
    }

    /** Where component `c` of the first pixel is. */
    function Base(c: nat): nat {
      if planar then stride * height * c else c
    }

    function Index(x: nat, y: nat, c: nat): nat {
      Base(c) + (y * stride + x * Step())
    }
  }

  /** A 32-bit pattern read back as a signed number. */
  function ToInt32(n: int): int {
    var u := n % UINT32;
    if u < INT32 then u else u - UINT32
  }

  function PixelOffset(l: Layout, x: int, y: int): int {
    ToInt32(y * l.stride + x * l.Step())
  }

  /** With rows that do not overlap, a pixel ends inside its plane. */
  lemma PixelInPlane(l: Layout, x: int, y: int)
    requires l.width * l.Step() <= l.stride && l.Holds(x, y)
    ensures 0 <= x * l.Step() && x * l.Step() + l.Step() <= l.stride
    ensures 0 <= y * l.stride + x * l.Step()
    ensures y * l.stride + x * l.Step() + l.Step() <= l.stride * l.height
  {
    ProductGrows(y, l.height, l.stride);
  }

  lemma OffsetInPlane(l: Layout, x: int, y: int)
    requires l.Fits() && l.Holds(x, y)
    ensures 0 <= x * l.Step() && x * l.Step() + l.Step() <= l.stride
    ensures 0 <= y * l.stride + x * l.Step()
    ensures y * l.stride + x * l.Step() + l.Step() <= l.stride * l.height
    ensures PixelOffset(l, x, y) == y * l.stride + x * l.Step()
  {
    PixelInPlane(l, x, y);
  }

  predicate InBlock(l: Layout, x: nat, y: nat, c: nat) {
    l.Index(x, y, c) < l.Size()
  }

  lemma RowsFit(l: Layout, x: nat, y: nat, c: nat)
    requires l.width * l.Step() <= l.stride && l.Holds(x, y) && c < 3
    ensures InBlock(l, x, y, c)
  {
    PixelInPlane(l, x, y);
    if l.planar {
      ProductGrows(c, 3, l.stride * l.height);
    }
  }

  /** With overlapping rows the last component of the picture lies behind the block. */
  lemma LastOutside(l: Layout)
    requires 0 < l.width && 0 < l.height && l.stride < l.width * l.Step()
    ensures !InBlock(l, l.width - 1, l.height - 1, 2)
  {
    var h: nat := l.height - 1;
    assert l.stride * l.height == h * l.stride + l.stride;
    if l.planar {
      assert l.Base(2) == l.stride * l.height * 2;
    }
  }

  /** The whole picture lies inside the block iff rows do not overlap, which the validity check does not see. */
  lemma InsideBlockIff(l: Layout)
    requires 0 < l.width && 0 < l.height
    ensures (forall x: nat, y: nat, c: nat :: l.Holds(x, y) && c < 3 ==> InBlock(l, x, y, c)) <==> l.width * l.Step() <= l.stride
  {
    if l.width * l.Step() <= l.stride {
      forall x: nat, y: nat, c: nat | l.Holds(x, y) && c < 3 ensures InBlock(l, x, y, c) {
        RowsFit(l, x, y, c);
      }
    } else {
      LastOutside(l);
      assert l.Holds(l.width - 1, l.height - 1);
    }
  }

  lemma IndexInRange(l: Layout, x: int, y: int, c: nat)
    requires l.Fits() && l.Holds(x, y) && c < 3
    ensures l.Index(x, y, c) < l.Size()
  {
    RowsFit(l, x, y, c);
  }

  lemma QuotientsDiffer(q: nat, r: nat, q': nat, r': nat, d: nat)
    requires r < d && r' < d && q < q'
    ensures q * d + r < q' * d + r'
  {
    ProductGrows(q, q', d);
  }

  /** No two components of the picture share a byte. */
  lemma IndexInjective(l: Layout, x: int, y: int, c: nat, x': int, y': int, c': nat)
    requires l.Fits() && l.Holds(x, y) && l.Holds(x', y') && c < 3 && c' < 3
    requires l.Index(x, y, c) == l.Index(x', y', c')
    ensures x == x' && y == y' && c == c'
  {
    OffsetInPlane(l, x, y);
    OffsetInPlane(l, x', y');
    var p, p' := y * l.stride + x * l.Step(), y' * l.stride + x' * l.Step();
    var plane := l.stride * l.height;
    if l.planar {
      if c < c' {
        QuotientsDiffer(c, p, c', p', plane);
      } else if c' < c {
        QuotientsDiffer(c', p', c, p, plane);
      }
    }
    var r := x * l.Step() + if l.planar then 0 else c;
    var r' := x' * l.Step() + if l.planar then 0 else c';
    if y < y' {
      QuotientsDiffer(y, r, y', r', l.stride);
    } else if y' < y {
      QuotientsDiffer(y', r', y, r, l.stride);
    }
  }

  // ------------------------------------------------------------------ what the bytes show

  function ByteAt(s: seq<byte>, l: Layout, x: nat, y: nat, c: nat): byte
    requires l.Fits() && |s| == l.Size() && l.Holds(x, y) && c < 3
  {
    IndexInRange(l, x, y, c);
    s[l.Index(x, y, c)]
  }

  function PixelAt(s: seq<byte>, l: Layout, x: nat, y: nat): Color
    requires l.Fits() && |s| == l.Size() && l.Holds(x, y)
  {
    Color(ByteAt(s, l, x, y, 0), ByteAt(s, l, x, y, 1), ByteAt(s, l, x, y, 2))
  }

  /** Packed, the three components of a pixel follow one another; planar, each has a plane of its own, red first. */
  lemma PixelBytes(s: seq<byte>, l: Layout, x: nat, y: nat)
    requires l.Fits() && |s| == l.Size() && l.Holds(x, y)
    ensures var i, plane := y * l.stride + (if l.planar then x else 3 * x), l.stride * l.height;
      if l.planar then
        i + 2 * plane < |s| && PixelAt(s, l, x, y) == Color(s[i], s[i + plane], s[i + 2 * plane])
      else
        i + 2 < |s| && PixelAt(s, l, x, y) == Color(s[i], s[i + 1], s[i + 2])
  {
    IndexInRange(l, x, y, 0);
    IndexInRange(l, x, y, 1);
    IndexInRange(l, x, y, 2);
  }

  function Picture(s: seq<byte>, l: Layout): (img: Image)
    requires l.Fits() && |s| == l.Size()
    ensures HasSize(img, l.width, l.height)
  {
    seq(l.height, y requires 0 <= y < l.height => seq(l.width, x requires 0 <= x < l.width => PixelAt(s, l, x, y)))
  }

  /** Byte `i` belongs to a pixel; the other bytes are padding. */
  ghost predicate Visible(l: Layout, i: int) {
    exists x: nat, y: nat, c: nat :: l.Holds(x, y) && c < 3 && l.Index(x, y, c) == i
  }

  ghost predicate SamePadding(l: Layout, s: seq<byte>, t: seq<byte>) {
    |s| == |t| && forall i {:trigger Visible(l, i)} | 0 <= i < |s| :: !Visible(l, i) ==> s[i] == t[i]
  }

  /** Picture and padding together are the whole block of bytes. */
  lemma PictureAndPaddingAreAll(l: Layout, s: seq<byte>, t: seq<byte>)
    requires l.Fits() && |s| == |t| == l.Size()
    requires Picture(s, l) == Picture(t, l) && SamePadding(l, s, t)
    ensures s == t
  {
    forall i | 0 <= i < |s|
      ensures s[i] == t[i]
    {
      if Visible(l, i) {
        var x: nat, y: nat, c: nat :| l.Holds(x, y) && c < 3 && l.Index(x, y, c) == i;
        assert Picture(s, l)[y][x] == Picture(t, l)[y][x];
        assert PixelAt(s, l, x, y) == PixelAt(t, l, x, y);
        assert PixelAt(s, l, x, y).Component(c) == s[i] && PixelAt(t, l, x, y).Component(c) == t[i];
      }
    }
  }

  // ------------------------------------------------------------------ one pixel

  lemma PixelWritten(l: Layout, s: seq<byte>, t: seq<byte>, x: int, y: int, color: Color)
    requires l.Fits() && |s| == |t| == l.Size() && l.Holds(x, y)
    requires forall i | 0 <= i < |s| :: t[i] == if i == l.Index(x, y, 0) then color.red
                                                else if i == l.Index(x, y, 1) then color.green
                                                else if i == l.Index(x, y, 2) then color.blue else s[i]
    ensures forall px, py | l.Holds(px, py) :: PixelAt(t, l, px, py) == if px == x && py == y then color else PixelAt(s, l, px, py)
    ensures SamePadding(l, s, t)
  {
    IndexInRange(l, x, y, 0);
    IndexInRange(l, x, y, 1);
    IndexInRange(l, x, y, 2);
    forall px, py, pc: nat | l.Holds(px, py) && pc < 3
      ensures ByteAt(t, l, px, py, pc) == if px == x && py == y then color.Component(pc) else ByteAt(s, l, px, py, pc)
    {
      IndexInRange(l, px, py, pc);
      forall c: nat | c < 3 && l.Index(px, py, pc) == l.Index(x, y, c)
        ensures px == x && py == y && pc == c
      {
        IndexInjective(l, px, py, pc, x, y, c);
      }
    }
    forall i | 0 <= i < |s| && !Visible(l, i)
      ensures s[i] == t[i]
    {
      assert l.Holds(x, y);
    }
  }

  /** The block shows `img`, and its padding is that of `original`. */
  ghost predicate Shows(s: seq<byte>, l: Layout, img: Image, original: seq<byte>) {
    && l.Fits() && |s| == |original| == l.Size()
    && Picture(s, l) == img && SamePadding(l, original, s)
  }

  method PutPixel(a: array<byte>, l: Layout, x: int, y: int, color: Color, ghost img: Image, ghost original: seq<byte>)
    requires Shows(a[..], l, img, original) && l.Holds(x, y)
    modifies a
    ensures HasSize(img, l.width, l.height) && Shows(a[..], l, WithPixel(img, x, y, color), original)
  {
    OffsetInPlane(l, x, y);
    IndexInRange(l, x, y, 0);
    IndexInRange(l, x, y, 1);
    IndexInRange(l, x, y, 2);
    ghost var s := a[..];
    var i := PixelOffset(l, x, y);
    a[l.Base(0) + i] := color.red;
    a[l.Base(1) + i] := color.green;
    a[l.Base(2) + i] := color.blue;
    PixelWritten(l, s, a[..], x, y, color);
    SamePixels(Picture(a[..], l), WithPixel(img, x, y, color), l.width, l.height);
  }

  method GetPixel(a: array<byte>, l: Layout, x: int, y: int) returns (color: Color)
    requires l.Fits() && a.Length == l.Size() && l.Holds(x, y)
    ensures color == Picture(a[..], l)[y][x]
  {
    OffsetInPlane(l, x, y);
    IndexInRange(l, x, y, 0);
    IndexInRange(l, x, y, 1);
    IndexInRange(l, x, y, 2);
    var i := PixelOffset(l, x, y);
    color := Color(a[l.Base(0) + i], a[l.Base(1) + i], a[l.Base(2) + i]);
    assert color == PixelAt(a[..], l, x, y);
  }

  // ------------------------------------------------------------------ the loops

  method DrawHorizontals(a: array<byte>, l: Layout, r: Rect, color: Color, ghost img: Image, ghost original: seq<byte>)
    returns (ghost hx: nat)
    requires l.Holds(r.left, r.top) && l.Holds(r.right, r.bottom)
    requires Shows(a[..], l, PartOutlined(img, r, r.left, r.top, color), original) && HasSize(img, l.width, l.height)
    modifies a
    ensures hx == if r.left <= r.right then r.right + 1 else r.left
    ensures Shows(a[..], l, PartOutlined(img, r, hx, r.top, color), original)
  {
    var x := r.left;
    while x <= r.right
      invariant r.left <= x && (if r.left <= r.right then x <= r.right + 1 else x == r.left)
      invariant Shows(a[..], l, PartOutlined(img, r, x, r.top, color), original)
    {
      ghost var drawn := PartOutlined(img, r, x, r.top, color);
      PutPixel(a, l, x, r.top, color, drawn, original);
      PutPixel(a, l, x, r.bottom, color, WithPixel(drawn, x, r.top, color), original);
      TraceColumn(img, l.width, l.height, r, x, color);
      x := x + 1;
    }
    hx := x;
  }

  method DrawVerticals(a: array<byte>, l: Layout, r: Rect, color: Color, ghost hx: nat, ghost img: Image, ghost original: seq<byte>)
    returns (ghost vy: nat)
    requires l.Holds(r.left, r.top) && l.Holds(r.right, r.bottom)
    requires Shows(a[..], l, PartOutlined(img, r, hx, r.top, color), original) && HasSize(img, l.width, l.height)
    modifies a
    ensures vy == if r.top <= r.bottom then r.bottom + 1 else r.top
    ensures Shows(a[..], l, PartOutlined(img, r, hx, vy, color), original)
  {
    var y := r.top;
    while y <= r.bottom
      invariant r.top <= y && (if r.top <= r.bottom then y <= r.bottom + 1 else y == r.top)
      invariant Shows(a[..], l, PartOutlined(img, r, hx, y, color), original)
    {
      ghost var drawn := PartOutlined(img, r, hx, y, color);
      PutPixel(a, l, r.left, y, color, drawn, original);
      PutPixel(a, l, r.right, y, color, WithPixel(drawn, r.left, y, color), original);
      TraceRow(img, l.width, l.height, r, hx, y, color);
      y := y + 1;
    }
    vy := y;
  }

  method DrawOutline(a: array<byte>, l: Layout, r: Rect, color: Color)
    requires l.Fits() && a.Length == l.Size()
    requires l.Holds(r.left, r.top) && l.Holds(r.right, r.bottom)
    modifies a
    ensures Shows(a[..], l, Outlined(old(Picture(a[..], l)), r, color), old(a[..]))
  {
    ghost var original, img := a[..], Picture(a[..], l);
    TraceStart(img, l.width, l.height, r, color);
    ghost var hx := DrawHorizontals(a, l, r, color, img, original);
    ghost var vy := DrawVerticals(a, l, r, color, hx, img, original);
    TraceEnd(img, l.width, l.height, r, hx, vy, color);
  }

  method CopyRow(src: array<byte>, ls: Layout, dst: array<byte>, ld: Layout, left: nat, row: nat, width: nat, y: nat,
                 ghost img: Image, ghost patch: Image, ghost h: nat, ghost original: seq<byte>)
    requires src != dst && ls.Fits() && src.Length == ls.Size()
    requires HasSize(img, ld.width, ld.height) && HasSize(patch, width, h) && h <= ld.height
    requires left + width <= ls.width && row < ls.height && width <= ld.width && y < h
    requires patch[y] == Picture(src[..], ls)[row][left..left + width]
    requires Shows(dst[..], ld, PartPasted(img, patch, y, 0), original)
    modifies dst
    ensures Shows(dst[..], ld, PartPasted(img, patch, y + 1, 0), original)
  {
    ghost var s := src[..];
    var x := 0;
    while x < width
      invariant x <= width && src[..] == s
      invariant Shows(dst[..], ld, PartPasted(img, patch, y, x), original)
    {
      var pixel := GetPixel(src, ls, left + x, row);
      PutPixel(dst, ld, x, y, pixel, PartPasted(img, patch, y, x), original);
      PasteStep(img, ld.width, ld.height, patch, width, h, y, x);
      x := x + 1;
    }
    PasteRow(img, ld.width, ld.height, patch, width, h, y);
  }

  method CopyRegion(src: array<byte>, ls: Layout, dst: array<byte>, ld: Layout,
                    left: nat, top: nat, width: nat, height: nat)
    requires src != dst && ls.planar == ld.planar
    requires ls.Fits() && src.Length == ls.Size() && ld.Fits() && dst.Length == ld.Size()
    requires left + width <= ls.width && top + height <= ls.height && width <= ld.width && height <= ld.height
    modifies dst
    ensures Shows(dst[..], ld, Pasted(old(Picture(dst[..], ld)), Cropped(Picture(src[..], ls), left, top, width, height)), old(dst[..]))
  {
    ghost var original, img, s := dst[..], Picture(dst[..], ld), src[..];
    ghost var patch := Cropped(Picture(src[..], ls), left, top, width, height);
    PasteStart(img, ld.width, ld.height, patch);
    var y := 0;
    while y < height
      invariant y <= height && src[..] == s
      invariant Shows(dst[..], ld, PartPasted(img, patch, y, 0), original)
    {
      assert patch[y] == Picture(s, ls)[top + y][left..left + width];
      CopyRow(src, ls, dst, ld, left, top + y, width, y, img, patch, height, original);
      y := y + 1;
    }
    PasteEnd(img, ld.width, ld.height, patch, width, height);
  }

  /** Steps of the resize loop that find the two samples of one axis and their weight. */
  method FindTaps(i: nat, dst: nat, src: nat) returns (t: Taps)
    requires i < dst && 0 < src
    ensures t == TapsOf(i, dst, src)
  {
    SourcePosRange(i, dst, src);
    var scale := src as real / dst as real;
    var s := (i as real + 0.5) * scale - 0.5;
    var i0 := s.Floor;
    var w := s - i0 as real;
    var i1 := i0 + 1;
    if i0 < 0 {
      i0, w := 0, 1.0;
    }
    if i1 >= src {
      i1 := src - 1;
    }
    if i0 >= src {
      i0 := src - 1;
    }
    t := Taps(i0, i1, w);
  }

  function BlendByte(a: byte, b: byte, c: byte, d: byte, wx: real, wy: real): byte {
    Quantized(Blend(a as real, b as real, c as real, d as real, wx, wy))
  }

  method ResizePixel(src: array<byte>, ls: Layout, tx: Taps, ty: Taps) returns (color: Color)
    requires ls.Fits() && src.Length == ls.Size()
    requires 0 <= tx.lo < ls.width && 0 <= tx.hi < ls.width && 0 <= ty.lo < ls.height && 0 <= ty.hi < ls.height
    ensures var img := Picture(src[..], ls);
            forall c | 0 <= c < 3 :: color.Component(c)
              == BlendByte(img[ty.lo][tx.lo].Component(c), img[ty.lo][tx.hi].Component(c),
                           img[ty.hi][tx.lo].Component(c), img[ty.hi][tx.hi].Component(c), tx.weight, ty.weight)
  {
    var p00 := GetPixel(src, ls, tx.lo, ty.lo);
    var p10 := GetPixel(src, ls, tx.hi, ty.lo);
    var p01 := GetPixel(src, ls, tx.lo, ty.hi);
    var p11 := GetPixel(src, ls, tx.hi, ty.hi);
    var red := BlendByte(p00.red, p10.red, p01.red, p11.red, tx.weight, ty.weight);
    var green := BlendByte(p00.green, p10.green, p01.green, p11.green, tx.weight, ty.weight);
    var blue := BlendByte(p00.blue, p10.blue, p01.blue, p11.blue, tx.weight, ty.weight);
    color := Color(red, green, blue);
  }

  lemma ResizedPixelIs(img: Image, sw: nat, sh: nat, dw: nat, dh: nat, x: nat, y: nat, color: Color)
    requires HasSize(img, sw, sh) && 0 < sw && 0 < sh && x < dw && y < dh
    requires var tx, ty := TapsOf(x, dw, sw), TapsOf(y, dh, sh);
             forall c | 0 <= c < 3 :: color.Component(c)
               == BlendByte(img[ty.lo][tx.lo].Component(c), img[ty.lo][tx.hi].Component(c),
                            img[ty.hi][tx.lo].Component(c), img[ty.hi][tx.hi].Component(c), tx.weight, ty.weight)
    ensures color == Resized(img, sw, sh, dw, dh)[y][x]
  {
    assert color.Component(0) == color.red && color.Component(1) == color.green && color.Component(2) == color.blue;
  }

  /** One pixel of the destination. */
  method ResizeAt(src: array<byte>, ls: Layout, dst: array<byte>, ld: Layout, x: nat, y: nat, ty: Taps,
                  ghost img: Image, ghost patch: Image, ghost original: seq<byte>)
    requires src != dst && ls.Fits() && src.Length == ls.Size()
    requires HasSize(img, ld.width, ld.height) && ld.Holds(x, y) && ty == TapsOf(y, ld.height, ls.height)
    requires patch == Resized(Picture(src[..], ls), ls.width, ls.height, ld.width, ld.height)
    requires Shows(dst[..], ld, PartPasted(img, patch, y, x), original)
    modifies dst
    ensures Shows(dst[..], ld, PartPasted(img, patch, y, x + 1), original)
  {
    var tx := FindTaps(x, ld.width, ls.width);
    var pixel := ResizePixel(src, ls, tx, ty);
    ResizedPixelIs(Picture(src[..], ls), ls.width, ls.height, ld.width, ld.height, x, y, pixel);
    PutPixel(dst, ld, x, y, pixel, PartPasted(img, patch, y, x), original);
    PasteStep(img, ld.width, ld.height, patch, ld.width, ld.height, y, x);
  }

  method ResizeRow(src: array<byte>, ls: Layout, dst: array<byte>, ld: Layout, y: nat, ty: Taps,
                   ghost img: Image, ghost patch: Image, ghost original: seq<byte>)
    requires src != dst && ls.Fits() && src.Length == ls.Size()
    requires HasSize(img, ld.width, ld.height) && y < ld.height && ty == TapsOf(y, ld.height, ls.height)
    requires patch == Resized(Picture(src[..], ls), ls.width, ls.height, ld.width, ld.height)
    requires Shows(dst[..], ld, PartPasted(img, patch, y, 0), original)
    modifies dst
    ensures Shows(dst[..], ld, PartPasted(img, patch, y + 1, 0), original)
  {
    ghost var s := src[..];
    var x := 0;
    while x < ld.width
      invariant x <= ld.width && src[..] == s
      invariant Shows(dst[..], ld, PartPasted(img, patch, y, x), original)
    {
      ResizeAt(src, ls, dst, ld, x, y, ty, img, patch, original);
      x := x + 1;
    }
    PasteRow(img, ld.width, ld.height, patch, ld.width, ld.height, y);
  }

  method ResizeInto(src: array<byte>, ls: Layout, dst: array<byte>, ld: Layout)
    requires src != dst
    requires ls.Fits() && src.Length == ls.Size() && ld.Fits() && dst.Length == ld.Size()
    modifies dst
    ensures Shows(dst[..], ld, Resized(Picture(src[..], ls), ls.width, ls.height, ld.width, ld.height), old(dst[..]))
  {
    ghost var original, img, s := dst[..], Picture(dst[..], ld), src[..];
    ghost var patch := Resized(Picture(src[..], ls), ls.width, ls.height, ld.width, ld.height);
    PasteStart(img, ld.width, ld.height, patch);
    var y := 0;
    while y < ld.height
      invariant y <= ld.height && src[..] == s
      invariant Shows(dst[..], ld, PartPasted(img, patch, y, 0), original)
    {
      var ty := FindTaps(y, ld.height, ls.height);
      ResizeRow(src, ls, dst, ld, y, ty, img, patch, original);
      y := y + 1;
    }
    PasteEnd(img, ld.width, ld.height, patch, ld.width, ld.height);
    PasteAll(img, patch, ld.width, ld.height);
  }

  // ------------------------------------------------------------------ the public operations

  class DrawBuffer {
    var address: array?<byte>
    var size: nat
    var format: int
    var width: uint32
    var height: uint32
    var strideByte: uint32

    constructor (address: array?<byte>, size: nat, format: int, width: uint32, height: uint32, strideByte: uint32)
      ensures this.address == address && this.size == size && this.format == format
      ensures this.width == width && this.height == height && this.strideByte == strideByte
    {
      this.address, this.size, this.format := address, size, format;
      this.width, this.height, this.strideByte := width, height, strideByte;
    }

    predicate Shaped()
      reads this
    {
      width != 0 && height != 0 && (format == RGB8 || format == RGB8_PLANAR)
    }

    /** The stride in force: a zero stride stands for rows without padding. */
    function Stride(): uint32
      reads this
    {
      if Shaped() && strideByte == 0 then (if format == RGB8 then width * 3 % UINT32 else width) else strideByte
    }

    /** What the validity check decides. The expected size is computed in 32 bits. */
    predicate Accepted()
      reads this
    {
      && Shaped() && address != null
      && size == (if format == RGB8_PLANAR then Stride() * height * 3 else Stride() * height) % UINT32
    }

    function FormatLayout(planar: bool): Layout
      reads this
    {
      Layout(planar, width, height, Stride())
    }

    function OwnLayout(): Layout
      reads this
    {
      FormatLayout(format == RGB8_PLANAR)
    }

    /** What callers owe for a buffer the check accepts: `size` bytes of memory and a layout that fits. */
    predicate Sound()
      reads this
    {
      Accepted() ==> address.Length == size && OwnLayout().Fits()
    }

    /** The image shown. */
    ghost function Shown(): Image
      requires Accepted() && Sound()
      reads this, address
    {
      Picture(address[..], OwnLayout())
    }
  }

  /** For a layout that fits, the validity check asks for memory, a known format, and the size of the layout, and no more. */
  lemma AcceptedIff(b: DrawBuffer)
    requires b.OwnLayout().Fits()
    ensures b.Accepted() <==> b.address != null && (b.format == 1 || b.format == 2) && b.size == b.OwnLayout().Size()
    ensures b.Shaped() && b.strideByte == 0 ==> b.OwnLayout().stride == b.width * b.OwnLayout().Step()
  {
    RemainderOf(b.OwnLayout().Size(), UINT32);
    RemainderOf(b.width * 3, UINT32);
  }

  function Accepts(b: DrawBuffer?): bool
    reads b
  {
    b != null && b.Accepted()
  }

  function Header(b: DrawBuffer?): set<DrawBuffer> {
    if b == null then {} else {b}
  }

  function Memory(b: DrawBuffer?): set<object?>
    reads b
  {
    if b == null then {} else {b.address as object?}
  }

  method IsValidDrawBuffer(buffer: DrawBuffer?) returns (ok: bool)
    modifies Header(buffer)`strideByte
    ensures ok == old(Accepts(buffer)) == Accepts(buffer)
    ensures buffer != null ==> buffer.strideByte == old(buffer.Stride()) == buffer.Stride()
  {
    if buffer == null || !buffer.Shaped() {
      return false;
    }
    if buffer.strideByte == 0 {
      if buffer.format == RGB8 {
        buffer.strideByte := buffer.width * 3 % UINT32;
      }
      if buffer.format == RGB8_PLANAR {
        buffer.strideByte := buffer.width;
      }
    }
    var expected := (if buffer.format == RGB8_PLANAR then buffer.strideByte * buffer.height * 3
                     else buffer.strideByte * buffer.height) % UINT32;
    ok := buffer.size == expected && buffer.address != null;
  }

  method DrawRectangle(buffer: DrawBuffer?, left: uint32, top: uint32, right: uint32, bottom: uint32, color: Color)
    returns (ret: int)
    requires buffer != null ==> buffer.Sound()
    modifies Header(buffer)`strideByte, Memory(buffer)
    ensures ret == if old(Accepts(buffer)) then 0 else -1
    ensures ret != 0 && buffer != null && buffer.address != null ==> buffer.address[..] == old(buffer.address[..])
    ensures buffer != null ==> buffer.OwnLayout() == old(buffer.OwnLayout())
    ensures ret == 0 ==>
              Shows(buffer.address[..], buffer.OwnLayout(),
                       Outlined(old(buffer.Shown()), Clamped(Rect(left, top, right, bottom), buffer.width, buffer.height), color),
                       old(buffer.address[..]))
  {
    var ok := IsValidDrawBuffer(buffer);
    if !ok {
      return -1;
    }
    var l, t, r, b := ClampToImage(left, top, right, bottom, buffer.width, buffer.height);
    DrawOutline(buffer.address, buffer.OwnLayout(), Rect(l, t, r, b), color);
    ret := 0;
  }

  method ClampToImage(left: uint32, top: uint32, right: uint32, bottom: uint32, width: uint32, height: uint32)
    returns (l: uint32, t: uint32, r: uint32, b: uint32)
    requires 0 < width && 0 < height
    ensures Rect(l, t, r, b) == Clamped(Rect(left, top, right, bottom), width, height)
  {
    l, t, r, b := left, top, right, bottom;
    if left >= width {
      l := width - 1;
    }
    if right >= width {
      r := width - 1;
    }
    if top >= height {
      t := height - 1;
    }
    if bottom >= height {
      b := height - 1;
    }
  }

  /** Two buffers that do not share a header or a block of memory. */
  ghost predicate Apart(src: DrawBuffer?, dst: DrawBuffer?)
    reads src, dst
  {
    src != null && dst != null ==> src != dst && (src.address != dst.address || src.address == null)
  }

  /** The clamped rectangle is not inside out and `dst` has room for it. */
  ghost predicate CropHasRoom(src: DrawBuffer, dst: DrawBuffer, r: Rect)
    requires src.Shaped()
    reads src, dst
  {
    var q := Clamped(r, src.width, src.height);
    && q.left <= q.right + 1 && q.right + 1 - q.left <= dst.width
    && q.top <= q.bottom + 1 && q.bottom + 1 - q.top <= dst.height
  }

  function CroppedTo(img: Image, q: Rect): Image
    requires q.left <= q.right + 1 && q.top <= q.bottom + 1 && HasSizeAtLeast(img, q.right + 1, q.bottom + 1)
  {
    Cropped(img, q.left, q.top, q.right + 1 - q.left, q.bottom + 1 - q.top)
  }

  ghost predicate HasSizeAtLeast(img: Image, width: nat, height: nat) {
    height <= |img| && forall y | 0 <= y < height :: width <= |img[y]|
  }

  /** The pixels from one coordinate to another, counted in 32 bits. */
  function Extent(from: uint32, to: uint32): (n: uint32)
    ensures from <= to + 1 < UINT32 ==> n == to + 1 - from
  {
    (to - from + 1) % UINT32
  }

  method CropBytes(src: array<byte>, ls: Layout, dst: array<byte>, ld: Layout, left: uint32, top: uint32, right: uint32, bottom: uint32)
    requires src != dst && ls.planar == ld.planar
    requires ls.Fits() && src.Length == ls.Size() && ld.Fits() && dst.Length == ld.Size()
    requires left <= right + 1 <= ls.width && top <= bottom + 1 <= ls.height && ls.width < UINT32 && ls.height < UINT32
    requires right + 1 - left <= ld.width && bottom + 1 - top <= ld.height
    modifies dst
    ensures Shows(dst[..], ld, Pasted(old(Picture(dst[..], ld)), CroppedTo(Picture(src[..], ls), Rect(left, top, right, bottom))), old(dst[..]))
  {
    var cropWidth := Extent(left, right);
    var cropHeight := Extent(top, bottom);
    CopyRegion(src, ls, dst, ld, left, top, cropWidth, cropHeight);
  }

  /** The crop proper, once both buffers are valid and the rectangle is clamped. */
  method CropInto(src: DrawBuffer, dst: DrawBuffer, left: uint32, top: uint32, right: uint32, bottom: uint32)
    requires src.Accepted() && src.Sound() && dst.Accepted() && dst.Sound()
    requires src.address != dst.address && src.format == dst.format
    requires left <= right + 1 <= src.width && top <= bottom + 1 <= src.height
    requires right + 1 - left <= dst.width && bottom + 1 - top <= dst.height
    modifies dst.address
    ensures Shows(dst.address[..], dst.OwnLayout(),
                  Pasted(old(dst.Shown()), CroppedTo(old(src.Shown()), Rect(left, top, right, bottom))),
                  old(dst.address[..]))
  {
    var ls, ld := src.OwnLayout(), dst.FormatLayout(src.format == RGB8_PLANAR);
    assert ld == dst.OwnLayout();
    CropBytes(src.address, ls, dst.address, ld, left, top, right, bottom);
  }

  method CropRectangle(src: DrawBuffer?, dst: DrawBuffer?, left: uint32, top: uint32, right: uint32, bottom: uint32)
    returns (ret: int)
    requires src != null ==> src.Sound()
    requires dst != null ==> dst.Sound()
    requires Apart(src, dst)
    requires Accepts(src) && Accepts(dst) ==>
               src.format == dst.format && CropHasRoom(src, dst, Rect(left, top, right, bottom))
    modifies Header(src)`strideByte, Header(dst)`strideByte, Memory(dst)
    ensures ret == if old(Accepts(src) && Accepts(dst)) then 0 else -1
    ensures ret != 0 && dst != null && dst.address != null ==> dst.address[..] == old(dst.address[..])
    ensures src != null ==> src.OwnLayout() == old(src.OwnLayout())
    ensures dst != null ==> dst.OwnLayout() == old(dst.OwnLayout())
    ensures ret == 0 ==>
              Shows(dst.address[..], dst.OwnLayout(),
                       Pasted(old(dst.Shown()),
                              CroppedTo(old(src.Shown()), Clamped(Rect(left, top, right, bottom), src.width, src.height))),
                       old(dst.address[..]))
  {
    var ok := IsValidDrawBuffer(src);
    if ok {
      ok := IsValidDrawBuffer(dst);
    }
    if !ok {
      return -1;
    }
    var l, t, r, b := ClampToImage(left, top, right, bottom, src.width, src.height);
    CropInto(src, dst, l, t, r, b);
    ret := 0;
  }

  method CopyBytes(src: array<byte>, dst: array<byte>, n: nat)
    requires src != dst && n <= src.Length && n <= dst.Length
    modifies dst
    ensures dst[..] == src[..n] + old(dst[..])[n..]
    ensures n == src.Length ==> dst[..] == src[..] + old(dst[..])[n..]
  {
    ghost var was := dst[..];
    var i := 0;
    while i < n
      invariant i <= n
      invariant forall k | 0 <= k < dst.Length :: dst[k] == if k < i then src[k] else was[k]
    {
      dst[i] := src[i];
      i := i + 1;
    }
  }

  method ResizeBuffers(src: DrawBuffer, dst: DrawBuffer)
    requires src.Accepted() && src.Sound() && dst.Accepted() && dst.Sound()
    requires src.address != dst.address && src.format == dst.format
    modifies dst.address
    ensures Shows(dst.address[..], dst.OwnLayout(),
                  Resized(old(src.Shown()), src.width, src.height, dst.width, dst.height), old(dst.address[..]))
  {
    ResizeInto(src.address, src.OwnLayout(), dst.address, dst.OwnLayout());
  }

  method ResizeRectangle(src: DrawBuffer?, dst: DrawBuffer?) returns (ret: int)
    requires src != null ==> src.Sound()
    requires dst != null ==> dst.Sound()
    requires Apart(src, dst)
    requires Accepts(src) && Accepts(dst) && src.width == dst.width && src.height == dst.height ==> src.size <= dst.size
    modifies Header(src)`strideByte, Header(dst)`strideByte, Memory(dst)
    ensures ret == if old(Accepts(src) && Accepts(dst)) && src.format == dst.format then 0 else -1
    ensures ret != 0 && dst != null && dst.address != null ==> dst.address[..] == old(dst.address[..])
    ensures src != null ==> src.OwnLayout() == old(src.OwnLayout())
    ensures dst != null ==> dst.OwnLayout() == old(dst.OwnLayout())
    ensures ret == 0 && src.width == dst.width && src.height == dst.height ==>
              dst.address[..] == old(src.address[..]) + old(dst.address[..])[src.size..]
    ensures ret == 0 && !(src.width == dst.width && src.height == dst.height) ==>
              Shows(dst.address[..], dst.OwnLayout(),
                    Resized(old(src.Shown()), src.width, src.height, dst.width, dst.height), old(dst.address[..]))
  {
    var ok := IsValidDrawBuffer(src);
    if ok {
      ok := IsValidDrawBuffer(dst);
    }
    if !ok || src.format != dst.format {
      return -1;
    }
    if src.width == dst.width && src.height == dst.height {
      CopyBytes(src.address, dst.address, src.size);
      return 0;
    }
    ResizeBuffers(src, dst);
    ret := 0;
  }

  // ------------------------------------------------------------------ the copy shortcut of the resize

  /** The block of `dst` after the bytes of a smaller or equal `src` are copied over its start. */
  function Overlaid(src: seq<byte>, dst: seq<byte>): seq<byte>
    requires |src| <= |dst|
  {
    src + dst[|src|..]
  }

  /** Layouts of one size and format for which copying bytes copies pictures. */
  predicate SameGrid(ls: Layout, ld: Layout) {
    ls.stride == ld.stride || (!ls.planar && ls.height == 1)
  }

  ghost predicate CopyIsResize(ls: Layout, ld: Layout)
    requires ls.Fits() && ld.Fits() && ls.Size() <= ld.Size()
  {
    forall s: seq<byte>, d: seq<byte> :: |s| == ls.Size() && |d| == ld.Size() ==>
      Picture(Overlaid(s, d), ld) == Resized(Picture(s, ls), ls.width, ls.height, ld.width, ld.height)
  }

  lemma CopyOnSameGrid(ls: Layout, ld: Layout, s: seq<byte>, d: seq<byte>)
    requires ls.Fits() && ld.Fits() && ls.Size() <= ld.Size() && |s| == ls.Size() && |d| == ld.Size()
    requires ls.planar == ld.planar && ls.width == ld.width && ls.height == ld.height && SameGrid(ls, ld)
    ensures Picture(Overlaid(s, d), ld) == Resized(Picture(s, ls), ls.width, ls.height, ld.width, ld.height)
  {
    var out := Overlaid(s, d);
    forall x, y | 0 <= x < ld.width && 0 <= y < ld.height
      ensures Picture(out, ld)[y][x] == Picture(s, ls)[y][x]
    {
      forall c: nat | c < 3
        ensures ByteAt(out, ld, x, y, c) == ByteAt(s, ls, x, y, c)
      {
        IndexInRange(ls, x, y, c);
        IndexInRange(ld, x, y, c);
        assert ls.Index(x, y, c) == ld.Index(x, y, c);
      }
      assert PixelAt(out, ld, x, y) == PixelAt(s, ls, x, y);
    }
    SamePixels(Picture(out, ld), Picture(s, ls), ld.width, ld.height);
    ResizeToOwnSize(Picture(s, ls), ls.width, ls.height);
  }

  lemma PicturesDiffer(s: seq<byte>, ls: Layout, t: seq<byte>, lt: Layout, x: nat, y: nat, c: nat)
    requires ls.Fits() && lt.Fits() && |s| == ls.Size() && |t| == lt.Size()
    requires ls.Holds(x, y) && lt.Holds(x, y) && c < 3 && ByteAt(s, ls, x, y, c) != ByteAt(t, lt, x, y, c)
    ensures Picture(s, ls) != Picture(t, lt)
  {
    assert Picture(s, ls)[y][x].Component(c) != Picture(t, lt)[y][x].Component(c);
  }

  /** A component of one layout that is at another byte in the other layout. */
  lemma CopyOffGrid(ls: Layout, ld: Layout, x: nat, y: nat, c: nat)
    requires ls.Fits() && ld.Fits() && ls.Size() <= ld.Size()
    requires ls.planar == ld.planar && ls.width == ld.width && ls.height == ld.height
    requires ls.Holds(x, y) && c < 3 && ls.Index(x, y, c) != ld.Index(x, y, c)
    ensures !CopyIsResize(ls, ld)
  {
    IndexInRange(ls, x, y, c);
    IndexInRange(ld, x, y, c);
    var s := seq(ls.Size(), i => if i == ls.Index(x, y, c) then 1 else 0);
    var d := seq(ld.Size(), i => 0);
    PicturesDiffer(s, ls, Overlaid(s, d), ld, x, y, c);
    ResizeToOwnSize(Picture(s, ls), ls.width, ls.height);
  }

  /**
    The shortcut taken for equal sizes shows what the general resize would show, for every content
    of both buffers, exactly when the strides agree or a packed image has a single row.
   */
  lemma CopyIsResizeIff(ls: Layout, ld: Layout)
    requires ls.Fits() && ld.Fits() && ls.Size() <= ld.Size()
    requires ls.planar == ld.planar && ls.width == ld.width && ls.height == ld.height
    ensures CopyIsResize(ls, ld) <==> SameGrid(ls, ld)
  {
    if SameGrid(ls, ld) {
      forall s: seq<byte>, d: seq<byte> | |s| == ls.Size() && |d| == ld.Size()
        ensures Picture(Overlaid(s, d), ld) == Resized(Picture(s, ls), ls.width, ls.height, ld.width, ld.height)
      {
        CopyOnSameGrid(ls, ld, s, d);
      }
    } else if ls.planar {
      assert ls.stride * ls.height != ld.stride * ls.height;
      CopyOffGrid(ls, ld, 0, 0, 1);
    } else {
      CopyOffGrid(ls, ld, 0, 1, 0);
    }
  }

  // ------------------------------------------------------------------ converting between formats and strides

  predicate SameSize(l: Layout, to: Layout) {
    l.Fits() && to.Fits() && l.width == to.width && l.height == to.height
  }

  ghost function ConvertedByte(s: seq<byte>, l: Layout, to: Layout, i: nat): byte
    requires SameSize(l, to) && |s| == l.Size()
  {
    if Visible(to, i) then
      var x: nat, y: nat, c: nat :| to.Holds(x, y) && c < 3 && to.Index(x, y, c) == i;
      ByteAt(s, l, x, y, c)
    else 0
  }

  /** The picture of `s` in the layout `to`, with padding of zeros. */
  ghost function Converted(s: seq<byte>, l: Layout, to: Layout): seq<byte>
    requires SameSize(l, to) && |s| == l.Size()
  {
    seq(to.Size(), i requires 0 <= i < to.Size() => ConvertedByte(s, l, to, i))
  }

  ghost predicate ZeroPadded(l: Layout, s: seq<byte>) {
    forall i {:trigger Visible(l, i)} | 0 <= i < |s| :: !Visible(l, i) ==> s[i] == 0
  }

  lemma ConvertedByteAt(s: seq<byte>, l: Layout, to: Layout, x: nat, y: nat, c: nat)
    requires SameSize(l, to) && |s| == l.Size() && to.Holds(x, y) && c < 3
    ensures ByteAt(Converted(s, l, to), to, x, y, c) == ByteAt(s, l, x, y, c)
  {
    IndexInRange(to, x, y, c);
    var i := to.Index(x, y, c);
    assert Visible(to, i);
    var x': nat, y': nat, c': nat :| to.Holds(x', y') && c' < 3 && to.Index(x', y', c') == i
      && ConvertedByte(s, l, to, i) == ByteAt(s, l, x', y', c');
    IndexInjective(to, x, y, c, x', y', c');
  }

  /** A converted block shows the same picture. */
  lemma ConvertedShows(s: seq<byte>, l: Layout, to: Layout)
    requires SameSize(l, to) && |s| == l.Size()
    ensures |Converted(s, l, to)| == to.Size() && ZeroPadded(to, Converted(s, l, to))
    ensures Picture(Converted(s, l, to), to) == Picture(s, l)
  {
    var t := Converted(s, l, to);
    forall x, y | 0 <= x < l.width && 0 <= y < l.height
      ensures Picture(t, to)[y][x] == Picture(s, l)[y][x]
    {
      ConvertedByteAt(s, l, to, x, y, 0);
      ConvertedByteAt(s, l, to, x, y, 1);
      ConvertedByteAt(s, l, to, x, y, 2);
    }
    SamePixels(Picture(t, to), Picture(s, l), l.width, l.height);
  }

  /** A block with padding of zeros is what its picture is converted to. */
  lemma ConvertedIs(s: seq<byte>, l: Layout, to: Layout, t: seq<byte>)
    requires SameSize(l, to) && |s| == l.Size() && |t| == to.Size()
    requires Picture(t, to) == Picture(s, l) && ZeroPadded(to, t)
    ensures t == Converted(s, l, to)
  {
    ConvertedShows(s, l, to);
    PictureAndPaddingAreAll(to, t, Converted(s, l, to));
  }

  /** Converting there and back gives a block back iff its padding is zero. */
  lemma ConvertedBackIff(s: seq<byte>, l: Layout, to: Layout)
    requires SameSize(l, to) && |s| == l.Size()
    ensures |Converted(s, l, to)| == to.Size()
    ensures Converted(Converted(s, l, to), to, l) == s <==> ZeroPadded(l, s)
  {
    ConvertedShows(s, l, to);
    ConvertedShows(Converted(s, l, to), to, l);
    if ZeroPadded(l, s) {
      ConvertedIs(Converted(s, l, to), to, l, s);
    }
  }

  /** Whatever shows `img` and keeps the padding, before or after a conversion, gives the same bytes. */
  lemma ConversionCommutes(s: seq<byte>, l: Layout, to: Layout, img: Image, after: seq<byte>, converted: seq<byte>)
    requires SameSize(l, to) && |s| == l.Size()
    requires Shows(after, l, img, s) && Shows(converted, to, img, Converted(s, l, to))
    ensures converted == Converted(after, l, to)
  {
    ConvertedShows(s, l, to);
    ConvertedIs(after, l, to, converted);
  }

  /** Drawing on a converted buffer is converting the buffer drawn on, byte for byte. */
  lemma DrawCommutes(s: seq<byte>, l: Layout, to: Layout, r: Rect, color: Color, drawn: seq<byte>, converted: seq<byte>)
    requires SameSize(l, to) && |s| == l.Size() && |Converted(s, l, to)| == to.Size()
    requires Shows(drawn, l, Outlined(Picture(s, l), r, color), s)
    requires Shows(converted, to, Outlined(Picture(Converted(s, l, to), to), r, color), Converted(s, l, to))
    ensures converted == Converted(drawn, l, to)
  {
    ConvertedShows(s, l, to);
    ConversionCommutes(s, l, to, Outlined(Picture(s, l), r, color), drawn, converted);
  }

  /** So is cropping, with both buffers converted. */
  lemma CropCommutes(s: seq<byte>, ls: Layout, tos: Layout, d: seq<byte>, ld: Layout, tod: Layout, q: Rect, cropped: seq<byte>, converted: seq<byte>)
    requires SameSize(ls, tos) && |s| == ls.Size() && |Converted(s, ls, tos)| == tos.Size()
    requires SameSize(ld, tod) && |d| == ld.Size() && |Converted(d, ld, tod)| == tod.Size()
    requires q.left <= q.right + 1 <= ls.width && q.top <= q.bottom + 1 <= ls.height
    requires q.right + 1 - q.left <= ld.width && q.bottom + 1 - q.top <= ld.height
    requires Shows(cropped, ld, Pasted(Picture(d, ld), CroppedTo(Picture(s, ls), q)), d)
    requires Shows(converted, tod, Pasted(Picture(Converted(d, ld, tod), tod), CroppedTo(Picture(Converted(s, ls, tos), tos), q)), Converted(d, ld, tod))
    ensures converted == Converted(cropped, ld, tod)
  {
    ConvertedShows(s, ls, tos);
    ConvertedShows(d, ld, tod);
    ConversionCommutes(d, ld, tod, Pasted(Picture(d, ld), CroppedTo(Picture(s, ls), q)), cropped, converted);
  }

  /** And resizing. */
  lemma ResizeCommutes(s: seq<byte>, ls: Layout, tos: Layout, d: seq<byte>, ld: Layout, tod: Layout, resized: seq<byte>, converted: seq<byte>)
    requires SameSize(ls, tos) && |s| == ls.Size() && |Converted(s, ls, tos)| == tos.Size()
    requires SameSize(ld, tod) && |d| == ld.Size()
    requires Shows(resized, ld, Resized(Picture(s, ls), ls.width, ls.height, ld.width, ld.height), d)
    requires Shows(converted, tod, Resized(Picture(Converted(s, ls, tos), tos), tos.width, tos.height, tod.width, tod.height), Converted(d, ld, tod))
    ensures converted == Converted(resized, ld, tod)
  {
    ConvertedShows(s, ls, tos);
    ConversionCommutes(d, ld, tod, Resized(Picture(s, ls), ls.width, ls.height, ld.width, ld.height), resized, converted);
  }
}
