/** The tick-by-tick cost summed the other way: over the crossed ticks, each
    weighing the liquidity it adds by the distance still to go. */
module Crossings {
  import opened SwapMath
  import opened PoolModel
  import opened TickSum

  /** liquidityNet of each tick from k up, carried from the tick to hi. */
  ghost function NetFrom(p: Pool, token: Token, k: int, lo: SqrtPrice, hi: SqrtPrice): real
    requires lo <= hi
    decreases p.maxTick - k
  {
    if p.maxTick < k then 0.0
    else ExactCost(token, NetAt(p, k), Clip(p, k, lo, hi), hi) + NetFrom(p, token, k + 1, lo, hi)
  }

  /** liquidityNet of each tick up to k, carried from lo to the tick. */
  ghost function NetTo(p: Pool, token: Token, k: int, lo: SqrtPrice, hi: SqrtPrice): real
    requires lo <= hi
    decreases k - p.minTick
  {
    if k < p.minTick then 0.0
    else ExactCost(token, NetAt(p, k), lo, Clip(p, k, lo, hi)) + NetTo(p, token, k - 1, lo, hi)
  }

  lemma CostsAdd(token: Token, l: int, l': int, a: SqrtPrice, b: SqrtPrice)
    ensures ExactCost(token, l, a, b) + ExactCost(token, l', a, b) == ExactCost(token, l + l', a, b)
  {
    var u, v, w := l as real, l' as real, Worth(token, b) - Worth(token, a);
    assert u * w + v * w == (u + v) * w;
  }

  lemma NoLiquidityNoCost(token: Token, a: SqrtPrice, b: SqrtPrice)
    ensures ExactCost(token, 0, a, b) == 0.0
  {
    var w := Worth(token, b) - Worth(token, a);
    assert 0.0 * w == 0.0;
  }

  /** Summation by parts. */
  lemma {:induction false} CostByCrossings(p: Pool, token: Token, k: int, lo: SqrtPrice, hi: SqrtPrice)
    requires lo <= hi <= p.ratio(p.maxTick) && p.minTick <= k <= p.maxTick
    ensures CostFrom(p, token, k, lo, hi)
         == ExactCost(token, Active(p, k - 1), Clip(p, k, lo, hi), hi) + NetFrom(p, token, k, lo, hi)
    decreases p.maxTick - k
  {
    var a := Clip(p, k, lo, hi);
    if k == p.maxTick {
      assert a == hi;
      ZeroCost(token, Active(p, k - 1), hi);
      ZeroCost(token, NetAt(p, k), hi);
      assert NetFrom(p, token, k + 1, lo, hi) == 0.0;
    } else {
      CostByCrossings(p, token, k + 1, lo, hi);
      CostsJoin(token, Active(p, k), a, Clip(p, k + 1, lo, hi), hi);
      CostsAdd(token, Active(p, k - 1), NetAt(p, k), a, hi);
    }
  }

  /** Ticks at or below lo together contribute the liquidity active there. */
  lemma {:induction false} NetBelow(p: Pool, token: Token, k: int, lo: SqrtPrice, hi: SqrtPrice)
    requires lo <= hi && p.minTick <= k <= p.maxTick + 1
    requires forall t | p.minTick <= t < k :: p.ratio(t) <= lo
    ensures NetFrom(p, token, p.minTick, lo, hi)
         == ExactCost(token, Active(p, k - 1), lo, hi) + NetFrom(p, token, k, lo, hi)
    decreases k - p.minTick
  {
    if k == p.minTick {
      NoLiquidityNoCost(token, lo, hi);
    } else {
      NetBelow(p, token, k - 1, lo, hi);
      CostsAdd(token, Active(p, k - 2), NetAt(p, k - 1), lo, hi);
    }
  }

  /** The same for any prefix, giving back what lies between lo and each tick. */
  lemma {:induction false} NetSplits(p: Pool, token: Token, k: int, lo: SqrtPrice, hi: SqrtPrice)
    requires lo <= hi && p.minTick <= k <= p.maxTick + 1
    ensures NetFrom(p, token, p.minTick, lo, hi)
         == ExactCost(token, Active(p, k - 1), lo, hi) - NetTo(p, token, k - 1, lo, hi) + NetFrom(p, token, k, lo, hi)
    decreases k - p.minTick
  {
    if k == p.minTick {
      NoLiquidityNoCost(token, lo, hi);
    } else {
      NetSplits(p, token, k - 1, lo, hi);
      CostsAdd(token, Active(p, k - 2), NetAt(p, k - 1), lo, hi);
      CostsJoin(token, NetAt(p, k - 1), lo, Clip(p, k - 1, lo, hi), hi);
    }
  }

  /** Ticks at or above hi contribute nothing. */
  lemma {:induction false} NetAbove(p: Pool, token: Token, k: int, lo: SqrtPrice, hi: SqrtPrice)
    requires lo <= hi
    requires forall t | k <= t <= p.maxTick :: hi <= p.ratio(t)
    ensures NetFrom(p, token, k, lo, hi) == 0.0
    decreases p.maxTick - k
  {
    if p.maxTick < k {
    } else {
      NetAbove(p, token, k + 1, lo, hi);
      assert Clip(p, k, lo, hi) == hi;
      ZeroCost(token, NetAt(p, k), hi);
    }
  }

  /** Ticks without liquidityNet can be skipped. */
  lemma {:induction false} NetSkips(p: Pool, token: Token, k: int, k': int, lo: SqrtPrice, hi: SqrtPrice)
    requires lo <= hi && k <= k' <= p.maxTick
    requires forall t | k <= t < k' :: NetAt(p, t) == 0
    ensures NetFrom(p, token, k, lo, hi) == NetFrom(p, token, k', lo, hi)
    decreases k' - k
  {
    if k == k' {
    } else {
      NetSkips(p, token, k + 1, k', lo, hi);
      NoLiquidityNoCost(token, Clip(p, k, lo, hi), hi);
    }
  }

  /** Upwards from a tick: its liquidity all the way, plus what each later tick adds. */
  lemma CostUpwards(p: Pool, token: Token, tick: int, lo: SqrtPrice, hi: SqrtPrice)
    requires IncreasingRatios(p) && InTick(p, tick, lo) && lo <= hi && InRange(p, lo) && InRange(p, hi)
    ensures TickCost(p, token, lo, hi)
         == ExactCost(token, Active(p, tick), lo, hi) + NetFrom(p, token, tick + 1, lo, hi)
  {
    CostByCrossings(p, token, p.minTick, lo, hi);
    NoLiquidityNoCost(token, Clip(p, p.minTick, lo, hi), hi);
    NetBelow(p, token, tick + 1, lo, hi);
  }

  /** Downwards to lo: the liquidity of the starting tick, less what each tick below added. */
  lemma CostDownwards(p: Pool, token: Token, tick: int, lo: SqrtPrice, hi: SqrtPrice)
    requires IncreasingRatios(p) && InTick(p, tick, hi) && lo <= hi && InRange(p, lo) && InRange(p, hi)
    ensures TickCost(p, token, lo, hi)
         == ExactCost(token, Active(p, tick), lo, hi) - NetTo(p, token, tick, lo, hi)
  {
    CostByCrossings(p, token, p.minTick, lo, hi);
    NoLiquidityNoCost(token, Clip(p, p.minTick, lo, hi), hi);
    NetSplits(p, token, tick + 1, lo, hi);
    NetAbove(p, token, tick + 1, lo, hi);
  }
}
