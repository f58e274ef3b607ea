/** executor.GetTierPositions: three ranges around the pool's tick. */
module Tiers {
  import opened Evm
  import opened Options
  import opened Rounding
  import opened LiquidityAmounts

  /** The three pool reads; an unset pool or a failed call leaves None. */
  datatype PoolRead = PoolRead(liquidity: Option<nat>, slotTick: Option<int>, sqrtPriceX96: Option<nat>) {
    function Liquidity(): nat { if liquidity.Some? then liquidity.value else 0 }

    function Tick(): int { if slotTick.Some? then slotTick.value else 0 }

    function SqrtP(): nat { if sqrtPriceX96.Some? then sqrtPriceX96.value else 0 }
  }

  datatype Tier = Tier(name: string, amounts: Amounts, positionCount: int, liquidity: nat)

  /** Two's-complement wrap-around of Go's int32. */
  function Int32(x: int): int {
    (x + 0x8000_0000) % 0x1_0000_0000 - 0x8000_0000
  }

  function Lower(tick: int, bps: int): int { Int32(tick - Int32(bps)) }

  function Upper(tick: int, bps: int): int { Int32(tick + Int32(bps)) }

  /** `derivedTick` is the tick the float logarithm gives for the price. */
  function TierAmounts(read: PoolRead, bps: int, derivedTick: int): Amounts {
    TokenAmounts(read.Liquidity(), Lower(read.Tick(), bps), Upper(read.Tick(), bps), read.SqrtP(), derivedTick)
  }

  method GetTierPositions(read: PoolRead, coreBps: int, midBps: int, tailBps: int, derivedTick: int)
    returns (tiers: seq<Tier>)
    ensures |tiers| == 3
    ensures tiers[0].amounts == TierAmounts(read, coreBps, derivedTick) && tiers[0].positionCount == coreBps
    ensures tiers[1].amounts == TierAmounts(read, midBps, derivedTick) && tiers[1].positionCount == midBps
    ensures tiers[2].amounts == TierAmounts(read, tailBps, derivedTick) && tiers[2].positionCount == tailBps
    ensures forall t | t in tiers :: t.liquidity == read.Liquidity()
    ensures tiers[0].name == "core" && tiers[1].name == "mid" && tiers[2].name == "tail"
  {
    var poolLiquidity: nat, currentTick, sqrtPriceX96: nat := 0, 0, 0;
    if read.liquidity.Some? {
      poolLiquidity := read.liquidity.value;
    }
    if read.slotTick.Some? {
      currentTick := read.slotTick.value;
    }
    if read.sqrtPriceX96.Some? {
      sqrtPriceX96 := read.sqrtPriceX96.value;
    }
    var core := CalculateTokenAmounts(
      poolLiquidity, Lower(currentTick, coreBps), Upper(currentTick, coreBps), sqrtPriceX96, derivedTick);
    var mid := CalculateTokenAmounts(
      poolLiquidity, Lower(currentTick, midBps), Upper(currentTick, midBps), sqrtPriceX96, derivedTick);
    var tail := CalculateTokenAmounts(
      poolLiquidity, Lower(currentTick, tailBps), Upper(currentTick, tailBps), sqrtPriceX96, derivedTick);
    return [
      Tier("core", core, coreBps, poolLiquidity),
      Tier("mid", mid, midBps, poolLiquidity),
      Tier("tail", tail, tailBps, poolLiquidity)];
  }

  /** Int32 is the one 32-bit number that differs by a multiple of 2^32. */
  lemma Int32IsCongruent(x: int)
    ensures -0x8000_0000 <= Int32(x) < 0x8000_0000
    ensures (x - Int32(x)) % 0x1_0000_0000 == 0
    ensures -0x8000_0000 <= x < 0x8000_0000 ==> Int32(x) == x
  {
  }

  /** So wherever ticks fit, a tier is the given number of ticks to either side of the
      pool's, at the pool's liquidity and price; what cannot be read counts as zero. */
  lemma TierExact(read: PoolRead, bps: int, derivedTick: int)
    requires -0x4000_0000 < read.Tick() < 0x4000_0000 && -0x4000_0000 < bps < 0x4000_0000
    ensures var l, t, p := read.Liquidity(), read.Tick(), read.SqrtP();
            TierAmounts(read, bps, derivedTick) == TokenAmounts(l, t - bps, t + bps, p, derivedTick)
    ensures read.liquidity == if read.liquidity.None? then None else Some(read.Liquidity())
    ensures read.slotTick == if read.slotTick.None? then None else Some(read.Tick())
    ensures read.sqrtPriceX96 == if read.sqrtPriceX96.None? then None else Some(read.SqrtP())
    ensures read.liquidity.None? || read.sqrtPriceX96.None? ==> TierAmounts(read, bps, derivedTick) == Amounts(0, 0)
    ensures read.slotTick.None? ==> read.Tick() == 0
  {
    Int32IsCongruent(bps);
    Int32IsCongruent(read.Tick() - bps);
    Int32IsCongruent(read.Tick() + bps);
  }

  /** A wider tier around the same tick holds at least as much of both tokens,
      whatever the liquidity, the price and the sign of the tick, once the
      narrower one is in range. */
  lemma NestedTiersHoldMore(read: PoolRead, narrow: nat, wide: nat, derivedTick: int)
    requires narrow <= wide < 0x4000_0000 && -0x4000_0000 < read.Tick() < 0x4000_0000
    ensures var inner, outer := TierAmounts(read, narrow, derivedTick), TierAmounts(read, wide, derivedTick);
            InsideRange(Lower(read.Tick(), narrow), Upper(read.Tick(), narrow), derivedTick) ==>
              inner.amount0 <= outer.amount0 && inner.amount1 <= outer.amount1
  {
    var tick := read.Tick();
    WiderRange(tick, narrow, wide);
    if InsideRange(Lower(tick, narrow), Upper(tick, narrow), derivedTick) {
      NestedRanges(read.Liquidity(), Lower(tick, wide), Lower(tick, narrow), Upper(tick, narrow), Upper(tick, wide),
        read.SqrtP(), derivedTick);
    }
  }

  lemma WiderRange(tick: int, narrow: nat, wide: nat)
    requires narrow <= wide < 0x4000_0000 && -0x4000_0000 < tick < 0x4000_0000
    ensures Lower(tick, wide) <= Lower(tick, narrow) && Upper(tick, narrow) <= Upper(tick, wide)
  {
    assert Lower(tick, wide) == tick - wide && Lower(tick, narrow) == tick - narrow;
    assert Upper(tick, wide) == tick + wide && Upper(tick, narrow) == tick + narrow;
  }

  lemma NestedRanges(liquidity: nat, outerLower: int, lower: int, upper: int, outerUpper: int,
                     sqrtP: nat, currentTick: int)
    requires outerLower <= lower && upper <= outerUpper && InsideRange(lower, upper, currentTick)
    ensures var inner := TokenAmounts(liquidity, lower, upper, sqrtP, currentTick);
            var outer := TokenAmounts(liquidity, outerLower, outerUpper, sqrtP, currentTick);
            inner.amount0 <= outer.amount0 && inner.amount1 <= outer.amount1
  {
    if 0 < liquidity && 0 < sqrtP {
      TickPriceMonotone(outerLower, lower);
      TickPriceMonotone(upper, outerUpper);
      Amount0Grows(liquidity, sqrtP, TickPrice(upper), TickPrice(outerUpper));
      Amount1Grows(liquidity, TickPrice(outerLower), TickPrice(lower), sqrtP);
    }
  }

  lemma Amount0Grows(l: nat, p: nat, b: nat, b': nat)
    requires 0 < p && 0 < b <= b'
    ensures Amount0Between(l, p, b) <= Amount0Between(l, p, b')
  {
    var n, n' := l * (b - p) * TWO_96, l * (b' - p) * TWO_96;
    assert n * (p * b') <= n' * (p * b) by { CrossWider(l, p, b, b'); }
    FloorMono(n, p * b, n', p * b');
  }

  lemma CrossWider(l: nat, p: nat, b: nat, b': nat)
    requires b <= b'
    ensures l * (b - p) * TWO_96 * (p * b') <= l * (b' - p) * TWO_96 * (p * b)
  {
    var k := l * p;
    assert (b - p) * b' <= (b' - p) * b by { MulMono(b, b', p); }
    MulMono((b - p) * b', (b' - p) * b, k);
    assert l * (b - p) * (p * b') == (b - p) * b' * k;
    assert l * (b' - p) * (p * b) == (b' - p) * b * k;
  }

  lemma Amount1Grows(l: nat, a': nat, a: nat, p: nat)
    requires a' <= a
    ensures Amount1Between(l, a, p) <= Amount1Between(l, a', p)
  {
    MulMono(p - a, p - a', l);
  }
}
