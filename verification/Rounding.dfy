/** Integer division rounded down and up, as the fixed-point formulas use it.
    `n / d` with a positive divisor is already the floor in Dafny. */
module Rounding {

  function Min(a: int, b: int): int { if a <= b then a else b }

  function Max(a: int, b: int): int { if a <= b then b else a }

  /** Division rounded towards positive infinity. */
  function DivUp(n: nat, d: nat): (q: nat)
    requires d > 0
    ensures (q as int - 1) * d < n <= q * d
  {
    if n % d == 0 then n / d else n / d + 1
  }

  /** What n lacks to the next multiple of d. */
  function Shortfall(n: int, d: int): nat
    requires 0 < d
  {
    (-n) % d
  }

  lemma MulMono(a: int, b: int, c: int)
    requires a <= b && 0 <= c
    ensures a * c <= b * c
  {
  }

  /** A common positive factor can be cancelled from a strict inequality. */
  lemma MulCancelLess(a: int, b: int, c: int)
    requires a * c < b * c && 0 < c
    ensures a < b
  {
    if b <= a {
      MulMono(b, a, c);
    }
  }

  lemma FloorBounds(n: int, d: int)
    requires 0 < d
    ensures (n / d) * d <= n < (n / d + 1) * d
  {
  }

  /** The floor is the only integer q with q * d <= n < (q + 1) * d. */
  lemma FloorUnique(n: int, d: int, q: int)
    requires 0 < d && q * d <= n < (q + 1) * d
    ensures n / d == q
  {
    var f := n / d;
    assert f * d <= n < (f + 1) * d;
    MulCancelLess(f, q + 1, d);
    MulCancelLess(q, f + 1, d);
  }

  lemma DivUpUnique(n: nat, d: nat, q: nat)
    requires 0 < d && (q as int - 1) * d < n <= q * d
    ensures DivUp(n, d) == q
  {
    var u: int := DivUp(n, d);
    MulCancelLess(u - 1, q, d);
    MulCancelLess(q - 1, u, d);
  }

  /** Floors keep the order of fractions, compared by cross-multiplication. */
  lemma FloorMono(n: int, d: int, n': int, d': int)
    requires 0 < d && 0 < d'
    requires n * d' <= n' * d
    ensures n / d <= n' / d'
  {
    var f, f' := n / d, n' / d';
    assert f * d <= n by { FloorBounds(n, d); }
    assert n' < (f' + 1) * d' by { FloorBounds(n', d'); }
    CrossLess(f, n, d, f' + 1, n', d');
  }

  /** From f <= n/d <= n'/d' < g conclude f < g. */
  lemma CrossLess(f: int, n: int, d: int, g: int, n': int, d': int)
    requires 0 < d && 0 < d'
    requires f * d <= n && n' < g * d' && n * d' <= n' * d
    ensures f < g
  {
    assert f * (d * d') <= n * d' by { MulMono(f * d, n, d'); assert f * d * d' == f * (d * d'); }
    assert n' * d < g * (d * d') by { MulMono(n' + 1, g * d', d); assert g * d' * d == g * (d * d'); }
    MulCancelLess(f, g, d * d');
  }

  /** The same for division rounded up. */
  lemma DivUpMono(n: nat, d: nat, n': nat, d': nat)
    requires 0 < d && 0 < d'
    requires n * d' <= n' * d
    ensures DivUp(n, d) <= DivUp(n', d')
  {
    var u: int, u': int := DivUp(n, d), DivUp(n', d');
    CrossLessUp(u - 1, n, d, u', n', d');
  }

  /** From f < n/d <= n'/d' <= g conclude f < g. */
  lemma CrossLessUp(f: int, n: int, d: int, g: int, n': int, d': int)
    requires 0 < d && 0 < d'
    requires f * d < n && n' <= g * d' && n * d' <= n' * d
    ensures f < g
  {
    assert f * (d * d') < n * d' by { MulMono(f * d + 1, n, d'); assert f * d * d' == f * (d * d'); }
    assert n' * d <= g * (d * d') by { MulMono(n', g * d', d); assert g * d' * d == g * (d * d'); }
    MulCancelLess(f, g, d * d');
  }

  /** Rounding up twice is rounding up once by the product: the library's
      two nested roundings for token0 cost no more than one. */
  lemma NestedDivUp(n: nat, a: nat, b: nat)
    requires 0 < a && 0 < b
    ensures DivUp(DivUp(n, a), b) == DivUp(n, a * b)
  {
    var m: int := DivUp(n, a);
    var q: int := DivUp(m, b);
    assert n <= q * (a * b) by { ScaleUp(n, m, q, a, b); }
    assert (q - 1) * (a * b) < n by { ScaleDown(n, m - 1, q - 1, a, b); }
    DivUpUnique(n, a * b, q);
  }

  lemma ScaleUp(n: int, m: int, q: int, a: int, b: int)
    requires 0 < a && n <= m * a && m <= q * b
    ensures n <= q * (a * b)
  {
    MulMono(m, q * b, a);
    assert q * b * a == q * (a * b);
  }

  lemma ScaleDown(n: int, m: int, q: int, a: int, b: int)
    requires 0 < a && m * a < n && q * b <= m
    ensures q * (a * b) < n
  {
    MulMono(q * b, m, a);
    assert q * b * a == q * (a * b);
  }

  /** floor(u/d) + floor(v/e) is the floor of the sum of the two fractions or one less. */
  lemma FloorSum(u: int, d: int, v: int, e: int, w: int, f: int)
    requires 0 < d && 0 < e && 0 < f
    requires w * (d * e) == (u * e + v * d) * f
    ensures u / d + v / e <= w / f <= u / d + v / e + 1
  {
    var x, y, t, k := u / d, v / e, w / f, d * e;
    var p, q := u * e, v * d;
    assert x * k <= p < (x + 1) * k by { FloorScaledBounds(u, d, e); }
    assert y * k <= q < (y + 1) * k by { FloorScaledBounds(v, e, d); }
    assert t * k <= p + q < (t + 1) * k by {
      FloorScaled(p + q, k, w, f);
      FloorBounds(p + q, k);
    }
    SumOfFloors(x, p, y, q, t, k);
  }

  lemma SumOfFloors(x: int, p: int, y: int, q: int, t: int, k: int)
    requires 0 < k
    requires x * k <= p < (x + 1) * k && y * k <= q < (y + 1) * k
    requires t * k <= p + q < (t + 1) * k
    ensures x + y <= t <= x + y + 1
  {
    assert x + y < t + 1 by { MulCancelLess(x + y, t + 1, k); }
    assert t < x + y + 2 by { MulCancelLess(t, x + y + 2, k); }
  }

  lemma FloorScaledBounds(u: int, d: int, e: int)
    requires 0 < d && 0 < e
    ensures (u / d) * (d * e) <= u * e < (u / d + 1) * (d * e)
    ensures (u / d) * (e * d) <= u * e < (u / d + 1) * (e * d)
  {
    var x := u / d;
    assert x * d <= u < (x + 1) * d by { FloorBounds(u, d); }
    ScaledLeq(x, d, u, e);
    ScaledLess(x + 1, d, u, e);
  }

  lemma ScaledLeq(x: int, d: int, u: int, e: int)
    requires 0 < e && x * d <= u
    ensures x * (d * e) <= u * e && x * (e * d) <= u * e
  {
    MulMono(x * d, u, e);
    assert x * d * e == x * (d * e) == x * (e * d);
  }

  lemma ScaledLess(x: int, d: int, u: int, e: int)
    requires 0 < e && u < x * d
    ensures u * e < x * (d * e) && u * e < x * (e * d)
  {
    MulMono(u + 1, x * d, e);
    assert x * d * e == x * (d * e) == x * (e * d);
  }

  /** Equal fractions have equal floors. */
  lemma FloorScaled(n: int, d: int, w: int, f: int)
    requires 0 < d && 0 < f && w * d == n * f
    ensures n / d == w / f
  {
    FloorMono(n, d, w, f);
    FloorMono(w, f, n, d);
  }
}
