/**
  The shapes of the output tensors travel in one array of 192 numbers: for every tensor its number of
  dimensions and then the dimensions, and a zero after the last tensor. Three loops decode it, one
  with a bound on the inner loop and two without; two computations cut the output data along it.
 */
module TensorShapes {
  import opened Arithmetic
  import opened Basics

  const LENGTH: nat := 192

  type Shape = seq<uint32>

  // ------------------------------------------------------------------ the encoding

  function Encoded(shapes: seq<Shape>): seq<int> {
    if shapes == [] then [] else [|shapes[0]|] + shapes[0] + Encoded(shapes[1..])
  }

  /** `a` carries `shapes`: their encoding, and a zero if there is room for it. */
  ghost predicate Carries(a: seq<uint32>, shapes: seq<Shape>) {
    && (forall s | s in shapes :: s != [])
    && Encoded(shapes) <= a
    && (|Encoded(shapes)| < |a| ==> a[|Encoded(shapes)|] == 0)
  }

  function Pad(s: seq<uint32>, length: nat): seq<uint32>
    requires |s| <= length
  {
    s + seq(length - |s|, _ => 0)
  }

  /** What the loop with the inner bound computes from position `i` on. */
  function DecodedFrom(a: seq<uint32>, i: nat): seq<Shape>
    requires i <= |a|
    decreases |a| - i
  {
    if i == |a| || a[i] == 0 then []
    else
      var end := if i + 1 + a[i] <= |a| then i + 1 + a[i] else |a|;
      [a[i + 1..end]] + DecodedFrom(a, end)
  }

  function Decoded(a: seq<uint32>): seq<Shape> {
    DecodedFrom(a, 0)
  }

  /** Every shape from position `i` on is complete. */
  predicate WellFormedFrom(a: seq<uint32>, i: nat)
    requires i <= |a|
    decreases |a| - i
  {
    i == |a| || a[i] == 0 || (i + 1 + a[i] <= |a| && WellFormedFrom(a, i + 1 + a[i]))
  }

  predicate WellFormed(a: seq<uint32>) {
    WellFormedFrom(a, 0)
  }

  /** The first shape is read off the front, and what follows carries the others. */
  lemma CarriesTail(b: seq<uint32>, shapes: seq<Shape>)
    requires shapes != [] && Carries(b, shapes)
    ensures var n := |shapes[0]|;
            0 < n < |b| && b[0] == n && b[1..1 + n] == shapes[0] && Carries(b[1 + n..], shapes[1..])
  {
    var s, rest, code := shapes[0], Encoded(shapes[1..]), Encoded(shapes);
    assert s in shapes && forall t | t in shapes[1..] :: t in shapes;
    assert code == [|s|] + s + rest;
    assert b[..|code|] == code;
    assert b[1..1 + |s|] == code[1..1 + |s|] == s;
    assert rest == code[1 + |s|..];
    assert b[1 + |s|..][..|rest|] == rest;
  }

  lemma SuffixParts(a: seq<uint32>, i: nat, n: nat)
    requires i + n < |a|
    ensures a[i..][0] == a[i] && a[i..][1..1 + n] == a[i + 1..i + 1 + n] && a[i..][1 + n..] == a[i + 1 + n..]
  {
  }

  /** A complete shape is decoded off the front. */
  lemma DecodeStep(a: seq<uint32>, i: nat, shapes: seq<Shape>)
    requires shapes != [] && shapes[0] != []
    requires i + 1 + |shapes[0]| <= |a| && a[i] == |shapes[0]| && a[i + 1..i + 1 + |shapes[0]|] == shapes[0]
    requires DecodedFrom(a, i + 1 + |shapes[0]|) == shapes[1..] && WellFormedFrom(a, i + 1 + |shapes[0]|)
    ensures DecodedFrom(a, i) == shapes && WellFormedFrom(a, i)
  {
    assert shapes == [shapes[0]] + shapes[1..];
  }

  /** The same from position `i` on. */
  lemma CarriesAt(a: seq<uint32>, i: nat, shapes: seq<Shape>)
    requires i <= |a| && shapes != [] && Carries(a[i..], shapes)
    ensures var n := |shapes[0]|;
      && 0 < n && i + 1 + n <= |a| && a[i] == n
      && a[i + 1..i + 1 + n] == shapes[0] && Carries(a[i + 1 + n..], shapes[1..])
  {
    CarriesTail(a[i..], shapes);
    SuffixParts(a, i, |shapes[0]|);
  }

  lemma CarriesNothing(a: seq<uint32>, i: nat)
    requires i <= |a| && Carries(a[i..], [])
    ensures i == |a| || a[i] == 0
  {
    assert i < |a| ==> a[i..][0] == 0;
  }

  lemma {:induction false} DecodeEncodedFrom(a: seq<uint32>, i: nat, shapes: seq<Shape>)
    requires i <= |a| && Carries(a[i..], shapes)
    ensures DecodedFrom(a, i) == shapes && WellFormedFrom(a, i)
    decreases |shapes|
  {
    if shapes == [] {
      CarriesNothing(a, i);
    } else {
      CarriesAt(a, i, shapes);
      DecodeEncodedFrom(a, i + 1 + |shapes[0]|, shapes[1..]);
      DecodeStep(a, i, shapes);
    }
  }

  lemma {:induction false} EncodeDecodedFrom(a: seq<uint32>, i: nat)
    requires i <= |a| && WellFormedFrom(a, i)
    ensures Carries(a[i..], DecodedFrom(a, i))
    decreases |a| - i
  {
    if i < |a| && a[i] != 0 {
      var end := i + 1 + a[i];
      EncodeDecodedFrom(a, end);
      var rest := Encoded(DecodedFrom(a, end));
      var shapes := DecodedFrom(a, i);
      assert shapes[1..] == DecodedFrom(a, end);
      assert Encoded(shapes) == [a[i]] + a[i + 1..end] + rest;
      assert a[i..] == [a[i]] + a[i + 1..end] + a[end..];
      assert a[i..][..|Encoded(shapes)|] == Encoded(shapes);
      assert |Encoded(shapes)| < |a[i..]| ==> a[i..][|Encoded(shapes)|] == a[end..][|rest|];
    }
  }

  /**
    Decoding inverts the encoding for every list of non-empty shapes that fits, and the arrays it
    inverts exactly are the well-formed ones.
   */
  lemma DecodedIff(a: seq<uint32>, shapes: seq<Shape>)
    ensures Carries(a, shapes) <==> WellFormed(a) && Decoded(a) == shapes
  {
    assert a[0..] == a;
    if Carries(a, shapes) {
      DecodeEncodedFrom(a, 0, shapes);
    }
    if WellFormed(a) && Decoded(a) == shapes {
      EncodeDecodedFrom(a, 0);
    }
  }

  /** The zero-padded encoding of shapes that fit decodes to them. */
  lemma RoundTrip(shapes: seq<Shape>, code: seq<uint32>)
    requires forall s | s in shapes :: s != []
    requires code == Encoded(shapes) && |code| <= 192
    ensures Decoded(Pad(code, 192)) == shapes
  {
    DecodedIff(Pad(code, LENGTH), shapes);
  }

  // ------------------------------------------------------------------ the three loops

  /** No tensor from position `i` on announces more than `room` dimensions. */
  predicate AnnouncesFrom(a: seq<uint32>, i: nat, room: nat)
    requires i <= |a|
    decreases |a| - i
  {
    i == |a| || a[i] == 0
    || (a[i] <= room && AnnouncesFrom(a, if i + 1 + a[i] <= |a| then i + 1 + a[i] else |a|, room))
  }

  /** Complete shapes announce no more dimensions than the array holds. */
  lemma {:induction false} CompleteAnnounce(a: seq<uint32>, i: nat, room: nat)
    requires i <= |a| <= room && WellFormedFrom(a, i)
    ensures AnnouncesFrom(a, i, room)
    decreases |a| - i
  {
    if i < |a| && a[i] != 0 {
      CompleteAnnounce(a, i + 1 + a[i], room);
    }
  }

  /**
    The loop that bounds the dimensions of a tensor by the end of the array. It asks for memory for as
    many dimensions as are announced; `room` is the most that can be had, and nothing else can fail.
   */
  method DecodeBounded(a: seq<uint32>, room: nat) returns (reserved: bool, shapes: seq<Shape>)
    requires |a| == LENGTH
    ensures reserved <==> AnnouncesFrom(a, 0, room)
    ensures reserved ==> shapes == Decoded(a)
  {
    shapes := [];
    var index := 0;
    while index < LENGTH
      invariant index <= LENGTH
      invariant Decoded(a) == shapes + DecodedFrom(a, index)
      invariant AnnouncesFrom(a, 0, room) == AnnouncesFrom(a, index, room)
      decreases LENGTH - index
    {
      ghost var start := index;
      var dimension := a[index];
      index := index + 1;
      if dimension == 0 {
        break;
      }
      if dimension > room {
        return false, shapes;
      }
      var shape := [];
      var j := 0;
      while j < dimension && index < LENGTH
        invariant index == start + 1 + j <= LENGTH && j <= dimension
        invariant shape == a[start + 1..index]
      {
        shape := shape + [a[index]];
        index := index + 1;
        j := j + 1;
      }
      shapes := shapes + [shape];
    }
    reserved := true;
  }

  /** The loop without that bound. `inRange` tells whether every index it read was inside the array. */
  method DecodeUnbounded(a: seq<uint32>) returns (inRange: bool, shapes: seq<Shape>)
    requires |a| == LENGTH
    ensures inRange <==> WellFormed(a)
    ensures inRange ==> shapes == Decoded(a)
  {
    shapes := [];
    var index := 0;
    while index < LENGTH
      invariant index <= LENGTH
      invariant Decoded(a) == shapes + DecodedFrom(a, index)
      invariant WellFormed(a) == WellFormedFrom(a, index)
      decreases LENGTH - index
    {
      ghost var start := index;
      var dimension := a[index];
      index := index + 1;
      if dimension == 0 {
        break;
      }
      var shape := [];
      var j := 0;
      while j < dimension
        invariant index == start + 1 + j <= LENGTH && j <= dimension
        invariant shape == a[start + 1..index]
      {
        if index >= LENGTH {
          return false, shapes;
        }
        shape := shape + [a[index]];
        index := index + 1;
        j := j + 1;
      }
      shapes := shapes + [shape];
    }
    inRange := true;
  }

  // ------------------------------------------------------------------ cutting the data along the shapes

  /** The number of elements of a shape. */
  function Elements(shape: Shape): nat {
    if shape == [] then 1 else Elements(shape[..|shape| - 1]) * shape[|shape| - 1]
  }

  /** A shape of one dimension has that many elements, and appending shapes multiplies their numbers. */
  lemma {:induction false} ElementsMultiply(a: Shape, b: Shape)
    ensures Elements(a + b) == Elements(a) * Elements(b)
    decreases |b|
  {
    if b == [] {
      assert a + b == a;
    } else {
      var n := |b| - 1;
      assert (a + b)[..|a| + n] == a + b[..n];
      ElementsMultiply(a, b[..n]);
      assert Elements(a) * (Elements(b[..n]) * b[n]) == Elements(a) * Elements(b[..n]) * b[n];
    }
  }

  lemma ElementsOfOne(n: uint32)
    ensures Elements([]) == 1 && Elements([n]) == n
  {
    assert [n][..0] == [];
  }

  /** An element is addressed by one index for each dimension. */
  predicate IsIndex(shape: Shape, index: seq<nat>) {
    |index| == |shape| && forall i | 0 <= i < |shape| :: index[i] < shape[i]
  }

  /** The place of an element in the data, the last index counting fastest. */
  function Place(shape: Shape, index: seq<nat>): nat
    requires IsIndex(shape, index)
  {
    if shape == [] then 0
    else
      var n := |shape| - 1;
      Place(shape[..n], index[..n]) * shape[n] + index[n]
  }

  lemma {:induction false} PlaceBelow(shape: Shape, index: seq<nat>)
    requires IsIndex(shape, index)
    ensures Place(shape, index) < Elements(shape)
  {
    if shape != [] {
      var n := |shape| - 1;
      PlaceBelow(shape[..n], index[..n]);
      ProductGrows(Place(shape[..n], index[..n]), Elements(shape[..n]), shape[n]);
    }
  }

  lemma {:induction false} PlaceInjective(shape: Shape, index: seq<nat>, other: seq<nat>)
    requires IsIndex(shape, index) && IsIndex(shape, other) && Place(shape, index) == Place(shape, other)
    ensures index == other
  {
    if shape != [] {
      var n := |shape| - 1;
      QuotientUnique(Place(shape[..n], index[..n]), index[n], Place(shape[..n], other[..n]), other[n], shape[n]);
      PlaceInjective(shape[..n], index[..n], other[..n]);
      assert index == index[..n] + [index[n]] && other == other[..n] + [other[n]];
    }
  }

  /** Every place has an index: there are as many elements as indices inside the shape. */
  lemma {:induction false} IndexAt(shape: Shape, place: nat) returns (index: seq<nat>)
    requires place < Elements(shape)
    ensures IsIndex(shape, index) && Place(shape, index) == place
  {
    if shape == [] {
      index := [];
    } else {
      var n := |shape| - 1;
      var d: nat := shape[n];
      QuotientBounds(place, d);
      if Elements(shape[..n]) <= place / d {
        AtMostTimes(Elements(shape[..n]), place / d, d);
      }
      var front := IndexAt(shape[..n], place / d);
      index := front + [place % d];
      assert index[..n] == front;
    }
  }

  lemma AtMostTimes(a: nat, b: nat, d: nat)
    requires a <= b
    ensures a * d <= b * d
  {
    if a < b {
      ProductGrows(a, b, d);
    }
  }

  /** The number of elements before tensor `k`. */
  function Before(shapes: seq<Shape>, k: nat): nat
    requires k <= |shapes|
  {
    if k == 0 then 0 else Before(shapes, k - 1) + Elements(shapes[k - 1])
  }

  function Total(shapes: seq<Shape>): nat {
    Before(shapes, |shapes|)
  }

  const FLOAT: nat := 4
  const MAX_DIMS: nat := 4

  /** A tensor: where its data starts relative to the raw data, its size in bytes, and its shape. */
  datatype Tensor = Tensor(offset: nat, size: nat, ndim: nat, dims: seq<uint32>)

  /** `size_t` is 32 bits wide on the target and 64 bits wide on a development host. */
  const SIZE32: int := UINT32
  const SIZE64: int := UINT32 * UINT32
  /** The number of elements that 64 bits can address. */
  const ELEMENTS64: int := 0x4000_0000 * UINT32

  function DimsOf(shape: Shape): seq<uint32> {
    if |shape| <= MAX_DIMS then shape else shape[..MAX_DIMS]
  }

  /** Slice `k` as the C++ interface computes it with `size_t` modulo `w`. */
  function Slice(shapes: seq<Shape>, k: nat, w: nat): Tensor
    requires k < |shapes| && 0 < w
  {
    Tensor(Before(shapes, k) * FLOAT % w, Elements(shapes[k]) * FLOAT % w, |shapes[k]|, DimsOf(shapes[k]))
  }

  method CountElements(shape: Shape, w: nat) returns (elements: nat)
    requires 1 < w
    ensures elements == Elements(shape) % w
  {
    elements := 1;
    var i := 0;
    while i < |shape|
      invariant i <= |shape| && elements == Elements(shape[..i]) % w
    {
      ReducedFactor(Elements(shape[..i]), shape[i], w);
      assert shape[..i + 1][..i] == shape[..i];
      elements := elements * shape[i] % w;
      i := i + 1;
    }
    assert shape[..i] == shape;
  }

  /** The offset of one tensor, recomputed from the first shape on. */
  method OffsetOf(shapes: seq<Shape>, k: nat, w: nat) returns (offset: nat)
    requires k < |shapes| && 1 < w
    ensures offset == Before(shapes, k) * FLOAT % w
  {
    offset := 0;
    var i := 0;
    while i < k
      invariant i <= k && offset == Before(shapes, i) * FLOAT % w
    {
      var elements := CountElements(shapes[i], w);
      var bytes := elements * FLOAT % w;
      ReducedFactor(Elements(shapes[i]), FLOAT, w);
      AddReduced(Before(shapes, i) * FLOAT, Elements(shapes[i]) * FLOAT, w);
      offset := (offset + bytes) % w;
      i := i + 1;
    }
  }

  lemma AddReduced(a: nat, b: nat, w: nat)
    requires 0 < w
    ensures (a % w + b % w) % w == (a + b) % w
  {
    ReducedSummand(a, b % w, w);
    ReducedSummand(b, a, w);
  }

  method GetOutputs(shapes: seq<Shape>, w: nat) returns (outputs: seq<Tensor>)
    requires 1 < w
    ensures |outputs| == |shapes| && forall k | 0 <= k < |shapes| :: outputs[k] == Slice(shapes, k, w)
  {
    outputs := [];
    var k := 0;
    while k < |shapes|
      invariant k <= |shapes| && |outputs| == k
      invariant forall i | 0 <= i < k :: outputs[i] == Slice(shapes, i, w)
    {
      var offset := OffsetOf(shapes, k, w);
      var size := CountElements(shapes[k], w);
      ReducedFactor(Elements(shapes[k]), FLOAT, w);
      size := size * FLOAT % w;
      var dims := [];
      var i := 0;
      while i < |shapes[k]| && i < MAX_DIMS
        invariant i <= |shapes[k]| && i <= MAX_DIMS && dims == shapes[k][..i]
      {
        dims := dims + [shapes[k][i]];
        i := i + 1;
      }
      assert dims == DimsOf(shapes[k]);
      outputs := outputs + [Tensor(offset, size, |shapes[k]|, dims)];
      k := k + 1;
    }
  }

  lemma NextOffset(shapes: seq<Shape>, k: nat, w: nat)
    requires k < |shapes| && 0 < w
    ensures (Before(shapes, k) % w + Elements(shapes[k]) % w) % w == Before(shapes, k + 1) % w
  {
    AddReduced(Before(shapes, k), Elements(shapes[k]), w);
  }

  /** The offset of tensor `k`, in elements, as 32 bits hold it. */
  function RunningOffset(shapes: seq<Shape>, k: nat): uint32
    requires k <= |shapes|
  {
    Before(shapes, k) % UINT32
  }

  method AdvanceOffset(shapes: seq<Shape>, k: nat, offset: uint32) returns (next: uint32)
    requires k < |shapes| && offset == RunningOffset(shapes, k)
    ensures next == RunningOffset(shapes, k + 1)
  {
    var elements := CountElements(shapes[k], UINT32);
    next := (offset + elements) % UINT32;
    NextOffset(shapes, k, UINT32);
  }

  /** The single running offset of the Python binding, in elements: every product and sum has 32 bits. */
  method RunningOffsets(shapes: seq<Shape>) returns (offsets: seq<uint32>)
    ensures |offsets| == |shapes| && forall k | 0 <= k < |shapes| :: offsets[k] == RunningOffset(shapes, k)
  {
    offsets := [];
    var offset := 0;
    var k := 0;
    while k < |shapes|
      invariant k <= |shapes| && |offsets| == k && offset == RunningOffset(shapes, k)
      invariant forall i | 0 <= i < k :: offsets[i] == RunningOffset(shapes, i)
    {
      offsets := offsets + [offset];
      offset := AdvanceOffset(shapes, k, offset);
      k := k + 1;
    }
  }

  // ------------------------------------------------------------------ what the slices are

  lemma {:induction false} BeforeGrows(shapes: seq<Shape>, i: nat, k: nat)
    requires i <= k <= |shapes|
    ensures Before(shapes, i) <= Before(shapes, k)
    decreases k
  {
    if i < k {
      BeforeGrows(shapes, i, k - 1);
    }
  }

  /** Without overflow slice `k` is exactly the bytes of its elements. */
  lemma SliceBounds(shapes: seq<Shape>, k: nat, w: nat)
    requires Total(shapes) * FLOAT < w && k < |shapes|
    ensures Slice(shapes, k, w).offset == Before(shapes, k) * FLOAT
    ensures Slice(shapes, k, w).size == Before(shapes, k + 1) * FLOAT - Before(shapes, k) * FLOAT
  {
    BeforeGrows(shapes, k, |shapes|);
    BeforeGrows(shapes, k + 1, |shapes|);
    DivModIs(Before(shapes, k) * FLOAT, w, 0, Before(shapes, k) * FLOAT);
    DivModIs(Elements(shapes[k]) * FLOAT, w, 0, Elements(shapes[k]) * FLOAT);
  }

  /** The slices start at 0, follow one another without a gap, and end with the last element. */
  lemma SlicesTile(shapes: seq<Shape>, w: nat)
    requires Total(shapes) * FLOAT < w
    ensures forall k | 0 <= k < |shapes| ::
              Slice(shapes, k, w).offset + Slice(shapes, k, w).size
              == if k + 1 < |shapes| then Slice(shapes, k + 1, w).offset else Total(shapes) * FLOAT
    ensures shapes != [] ==> Slice(shapes, 0, w).offset == 0
  {
    forall k | 0 <= k < |shapes|
      ensures Slice(shapes, k, w).offset == Before(shapes, k) * FLOAT
      ensures Slice(shapes, k, w).offset + Slice(shapes, k, w).size == Before(shapes, k + 1) * FLOAT
    {
      SliceBounds(shapes, k, w);
    }
  }

  /** Byte `b` of the raw data is in the slice of tensor `k`. */
  predicate InSlice(shapes: seq<Shape>, k: nat, w: nat, b: nat)
    requires k < |shapes| && 0 < w
  {
    Slice(shapes, k, w).offset <= b < Slice(shapes, k, w).offset + Slice(shapes, k, w).size
  }

  lemma SlicesDisjoint(shapes: seq<Shape>, w: nat, b: nat, i: nat, k: nat)
    requires Total(shapes) * FLOAT < w && i < k < |shapes|
    ensures !(InSlice(shapes, i, w, b) && InSlice(shapes, k, w, b))
  {
    SliceBounds(shapes, i, w);
    SliceBounds(shapes, k, w);
    BeforeGrows(shapes, i + 1, k);
  }

  /** Every byte of the data is in exactly one slice, and no slice holds any other byte. */
  lemma SlicesPartition(shapes: seq<Shape>, w: nat, b: nat)
    requires Total(shapes) * FLOAT < w
    ensures b < Total(shapes) * FLOAT <==> exists k :: 0 <= k < |shapes| && InSlice(shapes, k, w, b)
    ensures forall i, k | 0 <= i < |shapes| && 0 <= k < |shapes| && InSlice(shapes, i, w, b) && InSlice(shapes, k, w, b) :: i == k
  {
    forall i, k | 0 <= i < k < |shapes|
      ensures !(InSlice(shapes, i, w, b) && InSlice(shapes, k, w, b))
    {
      SlicesDisjoint(shapes, w, b, i, k);
    }
    forall k | 0 <= k < |shapes| && InSlice(shapes, k, w, b)
      ensures b < Total(shapes) * FLOAT
    {
      SliceBounds(shapes, k, w);
      BeforeGrows(shapes, k + 1, |shapes|);
    }
    if b < Total(shapes) * FLOAT {
      var k := Find(shapes, |shapes|, b);
      SliceBounds(shapes, k, w);
      assert InSlice(shapes, k, w, b);
    }
  }

  lemma {:induction false} Find(shapes: seq<Shape>, n: nat, b: nat) returns (k: nat)
    requires n <= |shapes| && b < Before(shapes, n) * FLOAT
    ensures k < n && Before(shapes, k) * FLOAT <= b < Before(shapes, k + 1) * FLOAT
  {
    if Before(shapes, n - 1) * FLOAT <= b {
      k := n - 1;
    } else {
      k := Find(shapes, n - 1, b);
    }
  }

  /** With 32-bit sizes both computations give the same address for every shape list, overflow included. */
  lemma OffsetsAgree32(shapes: seq<Shape>, k: nat)
    requires k < |shapes|
    ensures RunningOffset(shapes, k) * FLOAT % SIZE32 == Slice(shapes, k, SIZE32).offset
  {
    ReducedFactor(Before(shapes, k), FLOAT, UINT32);
  }

  /** Multiplying by the size of an element modulo 2^64 keeps the lower 62 bits. */
  lemma LowerBits(v: nat)
    ensures v * FLOAT % SIZE64 == v % ELEMENTS64 * FLOAT
    ensures v % UINT32 == v % ELEMENTS64 % UINT32
  {
    var q, r := v / ELEMENTS64, v % ELEMENTS64;
    QuotientBounds(v, ELEMENTS64);
    DivModIs(v * FLOAT, SIZE64, q, r * FLOAT);
    assert ELEMENTS64 == 0x4000_0000 * UINT32;
    MultipleVanishes(r, q * 0x4000_0000, UINT32);
  }

  /**
    With 64-bit sizes they agree exactly while the binding's 32-bit element count has not wrapped,
    counting elements modulo the number that 64 bits address.
   */
  lemma OffsetsAgree64Iff(shapes: seq<Shape>, k: nat)
    requires k < |shapes|
    ensures RunningOffset(shapes, k) * FLOAT % SIZE64 == Slice(shapes, k, SIZE64).offset <==> Before(shapes, k) % ELEMENTS64 < UINT32
  {
    var v := Before(shapes, k);
    LowerBits(v);
    RemainderOf(v % UINT32 * FLOAT, SIZE64);
    RemainderOf(v % ELEMENTS64, UINT32);
  }

  /** The tensor tells the number of its dimensions, and those of the first four. */
  lemma SliceDims(shapes: seq<Shape>, k: nat, w: nat)
    requires k < |shapes| && 0 < w
    ensures var t := Slice(shapes, k, w);
      && t.ndim == |shapes[k]|
      && |t.dims| == (if |shapes[k]| < 4 then |shapes[k]| else 4)
      && forall i | 0 <= i < |t.dims| :: t.dims[i] == shapes[k][i]
  {
  }

  /** Tensors of 2 by 5 and of 3 elements of 4 bytes: 40 bytes at 0 and 12 bytes at 40. */
  lemma TwoTensors()
    ensures var shapes: seq<Shape> := [[2, 5], [3]];
      && Encoded(shapes) == [2, 2, 5, 1, 3]
      && Slice(shapes, 0, SIZE32) == Tensor(0, 40, 2, [2, 5]) && Slice(shapes, 1, SIZE32) == Tensor(40, 12, 1, [3])
  {
    var shapes: seq<Shape> := [[2, 5], [3]];
    assert shapes[1..] == [[3]] && |shapes[1..][1..]| == 0;
    ElementsOfOne(2);
    ElementsOfOne(5);
    ElementsOfOne(3);
    ElementsMultiply([2], [5]);
    assert [2] + [5] == [2, 5];
    assert Before(shapes, 1) == Before(shapes, 0) + Elements(shapes[0]);
  }
}
