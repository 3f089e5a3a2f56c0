/**
  Normalising an input tensor channel by channel: the samples of one channel are a stride apart, and
  the loop goes through them for one channel after the other. Reals stand for floating-point numbers.
 */
module Normalise {
  import opened Arithmetic
  import opened Basics
  import opened Images

  /** A tensor of `n` images of `h` rows of `w` pixels of `c` samples. */
  datatype Dimensions = Dimensions(n: nat, h: nat, w: nat, c: nat) {
    function Elements(): nat {
      n * h * w * c
    }
  }

  function Product(d: Dimensions): nat {
    d.n * d.c * d.h * d.w
  }

  lemma ProductIsElements(d: Dimensions)
    ensures Product(d) == d.Elements()
  {
    assert d.n * d.c * d.h * d.w == d.n * d.h * d.w * d.c by {
      assert d.n * d.c * d.h == d.n * d.h * d.c;
      assert d.n * d.h * d.c * d.w == d.n * d.h * (d.c * d.w);
      assert d.n * d.h * (d.w * d.c) == d.n * d.h * d.w * d.c;
    }
  }

  function Normalised(v: byte, mean: real, norm: real): real
    requires norm != 0.0
  {
    (v as real / 255.0 - mean) / norm
  }

  /** The sample can be computed back. */
  lemma NormalisedInvertible(v: byte, mean: real, norm: real)
    requires norm != 0.0
    ensures (Normalised(v, mean, norm) * norm + mean) * 255.0 == v as real
  {
    var u := v as real / 255.0 - mean;
    assert u / norm * norm == u;
  }

  /** Sample `ch` of pixel `x` in row `y` of image `b`. */
  function IndexOf(d: Dimensions, b: nat, y: nat, x: nat, ch: nat): nat {
    ((b * d.h + y) * d.w + x) * d.c + ch
  }

  /** An index within the tensor, and the channel is its remainder. */
  lemma IndexInTensor(d: Dimensions, b: nat, y: nat, x: nat, ch: nat)
    requires b < d.n && y < d.h && x < d.w && ch < d.c
    ensures IndexOf(d, b, y, x, ch) < d.Elements() && IndexOf(d, b, y, x, ch) % d.c == ch
  {
    ProductGrows(b, d.n, d.h);
    ProductGrows(b * d.h + y, d.n * d.h, d.w);
    ProductGrows((b * d.h + y) * d.w + x, d.n * d.h * d.w, d.c);
    DivModIs(IndexOf(d, b, y, x, ch), d.c, (b * d.h + y) * d.w + x, ch);
  }

  // ------------------------------------------------------------------ the code

  /** The sample has had its turn when the loops stand at channel `ci` and index `i`. */
  predicate Done(k: nat, ci: nat, i: nat, c: nat)
    requires c > 0
  {
    k % c < ci || (k % c == ci && k < i)
  }

  /** Samples of one channel are at least a stride apart. */
  lemma StrideApart(k: nat, i: nat, c: nat)
    requires c > 0 && k % c == i % c && i < k
    ensures i + c <= k
  {
    QuotientBounds(k, c);
    QuotientBounds(i, c);
    if k / c <= i / c {
      AtMostProduct(k / c, i / c, c);
    } else {
      ProductGrows(i / c, k / c, c);
    }
  }

  lemma AtMostProduct(a: nat, b: nat, c: nat)
    requires a <= b
    ensures a * c <= b * c
  {
    assert 0 <= (b - a) * c;
    assert b * c == a * c + (b - a) * c;
  }

  lemma NextOfChannel(i: nat, c: nat)
    requires c > 0
    ensures (i + c) % c == i % c
  {
    MultipleVanishes(i, 1, c);
  }

  /** One more sample of the channel is done, and no other. */
  lemma DoneNext(k: nat, i: nat, ci: nat, c: nat)
    requires c > 0 && i % c == ci
    ensures Done(k, ci, i + c, c) <==> Done(k, ci, i, c) || k == i
  {
    if k % c == ci && i < k {
      StrideApart(k, i, c);
    }
  }

  lemma DoneStart(k: nat, ci: nat, c: nat)
    requires c > 0
    ensures Done(k, ci, ci, c) <==> k % c < ci
  {
    QuotientBounds(k, c);
  }

  predicate StepFits(i: nat, c: nat) {
    i + c < UINT32
  }

  /** No step of the loops over `n` elements wraps around 32 bits iff the elements and one more stride fit. */
  lemma StrideFitsIff(n: nat, c: nat)
    requires 0 < n
    ensures (forall i :: 0 <= i < n ==> StepFits(i, c)) <==> n + c <= UINT32
  {
    assert n + c > UINT32 ==> !StepFits(n - 1, c);
  }

  class Normaliser {
    const mean: seq<real>
    const norm: seq<real>

    constructor (mean: seq<real>, norm: seq<real>)
      ensures this.mean == mean && this.norm == norm
    {
      this.mean, this.norm := mean, norm;
    }

    predicate Serves(c: nat) {
      c <= |mean| && c <= |norm| && forall i :: 0 <= i < c ==> norm[i] != 0.0
    }

    function Sample(input: seq<byte>, k: nat, c: nat): real
      requires Serves(c) && c > 0 && k < |input| && k % c < c
    {
      Normalised(input[k], mean[k % c], norm[k % c])
    }

    /** How often each sample is written so far, and that those written are right. */
    ghost predicate Written(buffer: seq<real>, writes: seq<nat>, input: seq<byte>, ci: nat, i: nat, c: nat)
      requires Serves(c) && c > 0
    {
      && |buffer| == |writes| <= |input|
      && forall k :: 0 <= k < |buffer| ==> IsWritten(buffer, writes, input, k, ci, i, c)
    }

    ghost predicate IsWritten(buffer: seq<real>, writes: seq<nat>, input: seq<byte>, k: nat, ci: nat, i: nat, c: nat)
      requires Serves(c) && c > 0 && k < |buffer| && |buffer| == |writes| <= |input|
    {
      && writes[k] == (if Done(k, ci, i, c) then 1 else 0)
      && (Done(k, ci, i, c) ==> buffer[k] == Sample(input, k, c))
    }

    lemma WrittenNext(buffer: seq<real>, writes: seq<nat>, input: seq<byte>, ci: nat, i: nat, c: nat)
      requires Serves(c) && c > 0 && i < |buffer| && i % c == ci
      requires Written(buffer, writes, input, ci, i, c)
      ensures Written(buffer[i := Sample(input, i, c)], writes[i := writes[i] + 1], input, ci, i + c, c)
    {
      var i' := i + c;
      var buffer', writes' := buffer[i := Sample(input, i, c)], writes[i := writes[i] + 1];
      assert IsWritten(buffer, writes, input, i, ci, i, c);
      forall k | 0 <= k < |buffer| ensures IsWritten(buffer', writes', input, k, ci, i', c) {
        assert IsWritten(buffer, writes, input, k, ci, i, c);
        DoneNext(k, i, ci, c);
      }
    }

    /** Behind the last sample of a channel stands the first one of the next. */
    lemma WrittenChannel(buffer: seq<real>, writes: seq<nat>, input: seq<byte>, ci: nat, i: nat, c: nat)
      requires Serves(c) && c > 0 && |buffer| <= i
      requires Written(buffer, writes, input, ci, i, c)
      ensures Written(buffer, writes, input, ci + 1, ci + 1, c)
    {
      var ci' := ci + 1;
      forall k | 0 <= k < |buffer| ensures IsWritten(buffer, writes, input, k, ci', ci', c) {
        assert IsWritten(buffer, writes, input, k, ci, i, c);
        DoneStart(k, ci + 1, c);
      }
    }

    lemma WrittenAll(buffer: seq<real>, writes: seq<nat>, input: seq<byte>, c: nat)
      requires Serves(c) && c > 0 && Written(buffer, writes, input, c, c, c)
      ensures forall k :: 0 <= k < |buffer| ==> writes[k] == 1 && buffer[k] == Sample(input, k, c)
    {
      forall k | 0 <= k < |buffer| ensures writes[k] == 1 && buffer[k] == Sample(input, k, c) {
        assert IsWritten(buffer, writes, input, k, c, c, c);
      }
    }

    /** Writes the samples of channel `ci`. */
    method NormaliseChannel(buffer: array<real>, input: array<byte>, ci: uint32, c: uint32, ghost before: seq<nat>) returns (ghost writes: seq<nat>)
      requires ci < c && Serves(c) && buffer.Length + c <= UINT32
      requires Written(buffer[..], before, input[..], ci, ci, c)
      modifies buffer
      ensures Written(buffer[..], writes, input[..], ci + 1, ci + 1, c)
    {
      writes := before;
      var i: uint32 := ci;
      DivModIs(ci, c, 0, ci);
      while i < buffer.Length
        invariant i % c == ci && Written(buffer[..], writes, input[..], ci, i, c)
      {
        WrittenNext(buffer[..], writes, input[..], ci, i, c);
        ghost var was := buffer[..];
        buffer[i] := Normalised(input[i], mean[ci], norm[ci]);
        assert buffer[..] == was[i := Sample(input[..], i, c)];
        writes := writes[i := writes[i] + 1];
        NextOfChannel(i, c);
        i := i + c;
      }
      WrittenChannel(buffer[..], writes, input[..], ci, i, c);
    }

    /** Each sample is written exactly once, with its normalised value. */
    method NormaliseInto(buffer: array<real>, input: array<byte>, c: uint32) returns (ghost writes: seq<nat>)
      requires c > 0 && Serves(c) && buffer.Length <= input.Length && buffer.Length + c <= UINT32
      modifies buffer
      ensures |writes| == buffer.Length
      ensures forall k :: 0 <= k < buffer.Length ==> writes[k] == 1 && buffer[k] == Sample(input[..], k, c)
    {
      writes := seq(buffer.Length, k => 0);
      assert Written(buffer[..], writes, input[..], 0, 0, c);
      for ci := 0 to c
        invariant Written(buffer[..], writes, input[..], ci, ci, c)
      {
        writes := NormaliseChannel(buffer, input, ci, c, writes);
      }
      WrittenAll(buffer[..], writes, input[..], c);
    }

    /** The normalised tensor, or nothing if there is no memory for it. */
    method SetInput(d: Dimensions, input: array<byte>, memory: bool) returns (result: Option<array<real>>)
      requires (d.c > 0 ==> Serves(d.c)) && d.c < UINT32
      requires d.Elements() <= input.Length && d.Elements() + d.c <= UINT32
      ensures result.Some? <==> memory
      ensures result.Some? ==> fresh(result.value) && result.value.Length == d.Elements()
      ensures result.Some? ==> forall b: nat, y: nat, x: nat, ch: nat | b < d.n && y < d.h && x < d.w && ch < d.c ::
        var k := IndexOf(d, b, y, x, ch);
        k < d.Elements() && result.value[k] == Normalised(input[k], mean[ch], norm[ch])
    {
      if !memory {
        return None;
      }
      ProductIsElements(d);
      var numElements: uint32 := d.n * d.c * d.h * d.w;
      var buffer := new real[numElements];
      if d.c > 0 {
        ghost var writes := NormaliseInto(buffer, input, d.c);
      }
      forall b: nat, y: nat, x: nat, ch: nat | b < d.n && y < d.h && x < d.w && ch < d.c
        ensures var k := IndexOf(d, b, y, x, ch);
          k < d.Elements() && buffer[k] == Normalised(input[k], mean[ch], norm[ch])
      {
        IndexInTensor(d, b, y, x, ch);
      }
      return Some(buffer);
    }
  }
}
