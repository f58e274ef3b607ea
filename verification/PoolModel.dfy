/** A Uniswap v3 pool with tick spacing 1, as StabilizationVault reads it. */
module PoolModel {
  import opened Evm

  /** `slot0`, `liquidity`, the initialised ticks with their liquidityNet, the fee in
      millionths, and the library's tick range and tick-to-price table. */
  datatype Pool = Pool(
    sqrtPriceX96: nat, tick: int, liquidity: nat, net: map<int, int>, fee: nat,
    minTick: int, maxTick: int, ratio: int -> nat)

  function NetAt(p: Pool, t: int): int {
    if t in p.net then p.net[t] else 0
  }

  /** Liquidity active at tick t: liquidityNet summed over the ticks up to t. */
  function Active(p: Pool, t: int): int
    decreases t - p.minTick
  {
    if t < p.minTick then 0 else Active(p, t - 1) + NetAt(p, t)
  }

  ghost predicate IncreasingRatios(p: Pool) {
    && p.minTick < 0 < p.maxTick
    && 0 < p.ratio(p.minTick)
    && forall i, j | p.minTick <= i < j <= p.maxTick :: p.ratio(i) < p.ratio(j)
  }

  ghost predicate ActiveFits(p: Pool) {
    forall t | p.minTick - 1 <= t <= p.maxTick :: 0 <= Active(p, t) < TWO_128
  }

  predicate InRange(p: Pool, sqrtPrice: nat) {
    p.ratio(p.minTick) <= sqrtPrice <= p.ratio(p.maxTick)
  }

  /** The price lies in the tick, both ends included: after a downward crossing
      the pool sits on the upper end of the tick below. */
  predicate InTick(p: Pool, t: int, sqrtPrice: nat) {
    && p.minTick - 1 <= t <= p.maxTick
    && (p.minTick <= t ==> p.ratio(t) <= sqrtPrice)
    && (t < p.maxTick ==> sqrtPrice <= p.ratio(t + 1))
  }

  /** Ticks are int24, square-root prices uint160, and a factory enables only fees
      below the whole. */
  ghost predicate WidthsFit(p: Pool) {
    p.maxTick - p.minTick < 0x100_0000 && p.ratio(p.maxTick) < TWO_160 && p.fee < 1_000_000
  }

  /** Tick 0 is price 1, and the table reaches at least price 2^64. */
  ghost predicate RatiosReach(p: Pool) {
    p.ratio(0) == TWO_96 && TWO_128 <= p.ratio(p.maxTick)
  }

  /** What Uniswap keeps for every pool; slot0 and liquidity are in step. */
  ghost predicate WellFormed(p: Pool) {
    && IncreasingRatios(p)
    && WidthsFit(p)
    && RatiosReach(p)
    && ActiveFits(p)
    && p.liquidity == Active(p, p.tick)
    && InRange(p, p.sqrtPriceX96)
    && InTick(p, p.tick, p.sqrtPriceX96)
  }

  /** Next stop at or below t: an initialised tick or the start of its 256-tick word. */
  function StopBelow(p: Pool, t: int): (n: int)
    ensures n <= t && n / 256 == t / 256
    ensures n in p.net || n % 256 == 0
    ensures forall k | n < k <= t :: k !in p.net
    decreases t % 256
  {
    if t in p.net || t % 256 == 0 then t else StopBelow(p, t - 1)
  }

  /** Next stop at or above t: an initialised tick or the end of its 256-tick word. */
  function StopAbove(p: Pool, t: int): (n: int)
    ensures t <= n && n / 256 == t / 256
    ensures n in p.net || n % 256 == 255
    ensures forall k | t <= k < n :: k !in p.net
    decreases 255 - t % 256
  {
    if t in p.net || t % 256 == 255 then t else StopAbove(p, t + 1)
  }

  /** _nextInitializedTick followed by the clamps to the tick range. */
  function NextTick(p: Pool, t: int, zeroForOne: bool): int {
    var n := if zeroForOne then StopBelow(p, t) else StopAbove(p, t + 1);
    if n < p.minTick then p.minTick else if p.maxTick < n then p.maxTick else n
  }

  /** getTickAtSqrtRatio: the last tick, from t downwards, whose ratio does not exceed the price. */
  function TickAtFrom(p: Pool, sqrtPrice: nat, t: int): (r: int)
    requires p.minTick <= t && p.ratio(p.minTick) <= sqrtPrice
    ensures p.minTick <= r <= t && p.ratio(r) <= sqrtPrice
    ensures r < t ==> sqrtPrice < p.ratio(r + 1)
    decreases t - p.minTick
  {
    if p.ratio(t) <= sqrtPrice then t else TickAtFrom(p, sqrtPrice, t - 1)
  }

  function TickAt(p: Pool, sqrtPrice: nat): (r: int)
    requires p.minTick <= p.maxTick && p.ratio(p.minTick) <= sqrtPrice
    ensures p.minTick <= r <= p.maxTick && p.ratio(r) <= sqrtPrice
    ensures r < p.maxTick ==> sqrtPrice < p.ratio(r + 1)
  {
    TickAtFrom(p, sqrtPrice, p.maxTick)
  }

  /** Ticks without an entry leave the active liquidity alone. */
  lemma {:induction false} ActiveFlat(p: Pool, t: int, u: int)
    requires p.minTick - 1 <= t <= u
    requires forall k | t < k <= u :: k !in p.net
    ensures Active(p, t) == Active(p, u)
    decreases u - t
  {
    if t == u {
    } else {
      ActiveFlat(p, t, u - 1);
    }
  }
}
