/** Facts about products, quotients and remainders that the solver does not find unaided. */
module Arithmetic {

  lemma ProductGrows(a: nat, b: nat, c: nat)
    requires a < b
    ensures a * c + c <= b * c
  {
    var d: nat := b - (a + 1);
    assert 0 <= d * c;
    assert b * c == (a + 1 + d) * c == a * c + c + d * c;
  }

  lemma QuotientBounds(v: nat, d: nat)
    requires 0 < d
    ensures 0 <= v / d <= v && v / d * d <= v < v / d * d + d
  {
    AtMostMultiple(v / d, d);
  }

  lemma AtMostMultiple(q: nat, d: nat)
    requires 0 < d
    ensures q <= q * d
  {
    assert 0 <= q * (d - 1);
    assert q * d == q * (d - 1) + q;
  }

  /** The quotient and the remainder are determined by the product they complete. */
  lemma QuotientUnique(q: nat, r: nat, q': nat, r': nat, d: nat)
    requires r < d && r' < d && q * d + r == q' * d + r'
    ensures q == q' && r == r'
  {
    if q < q' {
      ProductGrows(q, q', d);
    } else if q' < q {
      ProductGrows(q', q, d);
    }
  }

  lemma DivModIs(v: nat, d: nat, q: nat, r: nat)
    requires 0 < d && v == q * d + r && r < d
    ensures v / d == q && v % d == r
  {
    QuotientBounds(v, d);
    QuotientUnique(v / d, v % d, q, r, d);
  }

  lemma RemainderOf(v: nat, d: nat)
    requires 0 < d
    ensures if v < d then v % d == v else v % d < v
  {
    if v < d {
      DivModIs(v, d, 0, v);
    }
  }

  lemma MultipleVanishes(v: nat, k: nat, w: nat)
    requires 0 < w
    ensures (v + k * w) % w == v % w
  {
    QuotientBounds(v, w);
    assert v + k * w == (v / w + k) * w + v % w;
    DivModIs(v + k * w, w, v / w + k, v % w);
  }

  /** Reducing a factor or a summand first does not change the reduced result. */
  lemma ReducedFactor(a: nat, b: nat, w: nat)
    requires 0 < w
    ensures a % w * b % w == a * b % w
  {
    QuotientBounds(a, w);
    var k, r := a / w * b, a % w;
    assert a * b == (a / w * w + r) * b == r * b + k * w;
    assert 0 <= k && 0 <= r * b;
    MultipleVanishes(r * b, k, w);
  }

  lemma ReducedSummand(a: nat, b: nat, w: nat)
    requires 0 < w
    ensures (a % w + b) % w == (a + b) % w
  {
    QuotientBounds(a, w);
    MultipleVanishes(a % w + b, a / w, w);
  }

  lemma NextRemainder(k: nat, n: nat)
    requires 1 < n
    ensures k % n <= k && (k + 1) % n == if k % n == n - 1 then 0 else k % n + 1
  {
    QuotientBounds(k, n);
    if k % n == n - 1 {
      assert (k / n + 1) * n == k / n * n + n;
      DivModIs(k + 1, n, k / n + 1, 0);
    } else {
      DivModIs(k + 1, n, k / n, k % n + 1);
    }
  }
}
