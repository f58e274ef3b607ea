/** The unrounded cost of moving the price, summed tick by tick. */
module TickSum {
  import opened SwapMath
  import opened PoolModel

  ghost function Clip(p: Pool, k: int, lo: SqrtPrice, hi: SqrtPrice): SqrtPrice
    requires lo <= hi
  {
    if p.ratio(k) <= lo then lo else if hi <= p.ratio(k) then hi else p.ratio(k)
  }

  /** Every tick from k on contributes the part of [lo, hi] inside it, at its own liquidity. */
  ghost function CostFrom(p: Pool, token: Token, k: int, lo: SqrtPrice, hi: SqrtPrice): real
    requires lo <= hi
    decreases p.maxTick - k
  {
    if p.maxTick <= k then 0.0
    else ExactCost(token, Active(p, k), Clip(p, k, lo, hi), Clip(p, k + 1, lo, hi)) + CostFrom(p, token, k + 1, lo, hi)
  }

  ghost function TickCost(p: Pool, token: Token, lo: SqrtPrice, hi: SqrtPrice): real
    requires lo <= hi
  {
    CostFrom(p, token, p.minTick, lo, hi)
  }

  /** The cost of an interval is the sum of the costs of its parts. */
  lemma {:induction false} CostSplits(p: Pool, token: Token, k: int, lo: SqrtPrice, mid: SqrtPrice, hi: SqrtPrice)
    requires lo <= mid <= hi
    ensures CostFrom(p, token, k, lo, hi) == CostFrom(p, token, k, lo, mid) + CostFrom(p, token, k, mid, hi)
    decreases p.maxTick - k
  {
    if p.maxTick <= k {
    } else {
      CostSplits(p, token, k + 1, lo, mid, hi);
      TermSplits(p, token, k, lo, mid, hi);
    }
  }

  lemma TermSplits(p: Pool, token: Token, k: int, lo: SqrtPrice, mid: SqrtPrice, hi: SqrtPrice)
    requires lo <= mid <= hi
    ensures ExactCost(token, Active(p, k), Clip(p, k, lo, hi), Clip(p, k + 1, lo, hi))
         == ExactCost(token, Active(p, k), Clip(p, k, lo, mid), Clip(p, k + 1, lo, mid))
          + ExactCost(token, Active(p, k), Clip(p, k, mid, hi), Clip(p, k + 1, mid, hi))
  {
    var a, b := Clip(p, k, lo, hi), Clip(p, k + 1, lo, hi);
    if p.ratio(k) <= mid && p.ratio(k + 1) <= mid {
      assert Clip(p, k, mid, hi) == Clip(p, k + 1, mid, hi) == mid;
      ZeroCost(token, Active(p, k), mid);
    } else if mid < p.ratio(k) && mid < p.ratio(k + 1) {
      assert Clip(p, k, lo, mid) == Clip(p, k + 1, lo, mid) == mid;
      ZeroCost(token, Active(p, k), mid);
    } else {
      CostsJoin(token, Active(p, k), a, mid, b);
    }
  }

  lemma NoIntervalNoCost(p: Pool, token: Token, x: SqrtPrice)
    ensures TickCost(p, token, x, x) == 0.0
  {
    CostSplits(p, token, p.minTick, x, x, x);
  }

  /** Tick k overlaps the inside of [lo, hi]. */
  ghost predicate Overlaps(p: Pool, k: int, lo: SqrtPrice, hi: SqrtPrice) {
    p.ratio(k) < hi && lo < p.ratio(k + 1)
  }

  /** Where all overlapping ticks share one liquidity, the sum telescopes. */
  lemma {:induction false} FlatCost(p: Pool, token: Token, k: int, lo: SqrtPrice, hi: SqrtPrice, liquidity: int)
    requires IncreasingRatios(p) && lo <= hi <= p.ratio(p.maxTick) && p.minTick <= k <= p.maxTick
    requires forall j | k <= j < p.maxTick && Overlaps(p, j, lo, hi) :: Active(p, j) == liquidity
    ensures CostFrom(p, token, k, lo, hi) == ExactCost(token, liquidity, Clip(p, k, lo, hi), hi)
    decreases p.maxTick - k
  {
    if k == p.maxTick {
      assert Clip(p, k, lo, hi) == hi;
    } else {
      FlatCost(p, token, k + 1, lo, hi, liquidity);
      var a, b := Clip(p, k, lo, hi), Clip(p, k + 1, lo, hi);
      assert p.ratio(k) < p.ratio(k + 1);
      if Overlaps(p, k, lo, hi) {
        CostsJoin(token, liquidity, a, b, hi);
      } else {
        assert a == b;
        ZeroCost(token, Active(p, k), a);
      }
    }
  }

  lemma CostsJoin(token: Token, liquidity: int, a: SqrtPrice, b: SqrtPrice, c: SqrtPrice)
    ensures ExactCost(token, liquidity, a, b) + ExactCost(token, liquidity, b, c) == ExactCost(token, liquidity, a, c)
  {
    var l, u, v := liquidity as real, Worth(token, b) - Worth(token, a), Worth(token, c) - Worth(token, b);
    assert l * u + l * v == l * (u + v);
  }

  lemma ZeroCost(token: Token, liquidity: int, a: SqrtPrice)
    ensures ExactCost(token, liquidity, a, a) == 0.0
  {
    var u := Worth(token, a) - Worth(token, a);
    assert u == 0.0;
  }
}
