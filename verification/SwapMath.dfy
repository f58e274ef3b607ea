/** Token amounts of one swap step at constant liquidity (Uniswap v3 Core
    whitepaper, section 6.2.3), rounded against the trader. */
module SwapMath {
  import opened Evm
  import opened Rounding

  /** Prices are never zero: the library reverts on them. */
  type SqrtPrice = x: int | 0 < x witness 1

  /** token1 paid to lift the price from lo to hi, rounded up. */
  function Amount1(liquidity: nat, lo: SqrtPrice, hi: SqrtPrice): nat
    requires lo <= hi
  {
    DivUp(liquidity * (hi - lo), TWO_96)
  }

  /** token0 paid to lower the price from hi to lo, rounded up twice. */
  function Amount0(liquidity: nat, lo: SqrtPrice, hi: SqrtPrice): nat
    requires lo <= hi
  {
    DivUp(DivUp(liquidity * TWO_96 * (hi - lo), hi), lo)
  }

  /** What a step that reaches its target costs before any fee; the direction
      comes from the two prices. */
  function StepAmount(liquidity: nat, price: SqrtPrice, stepTarget: SqrtPrice): nat {
    if stepTarget <= price then Amount0(liquidity, stepTarget, price) else Amount1(liquidity, price, stepTarget)
  }

  datatype Token = Token0 | Token1

  /** The token a step pays with, and the exact worth of a unit of liquidity in
      it up to a price: x for token1, -1/x for token0, both times 2^96. */
  function TokenIn(price: SqrtPrice, stepTarget: SqrtPrice): Token {
    if stepTarget <= price then Token0 else Token1
  }

  function Worth(token: Token, x: SqrtPrice): real {
    match token
    case Token0 => -(TWO_96 as real) / (x as real)
    case Token1 => x as real / (TWO_96 as real)
  }

  /** The unrounded cost of moving the price across [lo, hi] at one liquidity. */
  function ExactCost(token: Token, liquidity: int, lo: SqrtPrice, hi: SqrtPrice): real {
    liquidity as real * (Worth(token, hi) - Worth(token, lo))
  }

  /** The most that rounding can add to one step. */
  function Slack(token: Token): real {
    match token
    case Token0 => 1.0
    case Token1 => (TWO_96 - 1) as real / (TWO_96 as real)
  }

  /** What rounding n / d up adds. */
  function RoundingGain(n: nat, d: nat): real
    requires 0 < d
  {
    Shortfall(n, d) as real / d as real
  }

  lemma DivUpGain(n: nat, d: nat)
    requires 0 < d
    ensures DivUp(n, d) as real == n as real / d as real + RoundingGain(n, d)
  {
    var m, k := Shortfall(n, d), -(n as int);
    var q := -(k / d);
    assert n + m == q * d;
    assert DivUp(n, d) == q by { DivUpUnique(n, d, q); }
    RealQuotient(n + m, q, d);
    assert n as real / d as real + m as real / d as real == (n + m) as real / d as real;
  }

  lemma RealQuotient(n: int, q: int, d: int)
    requires 0 < d && n == q * d
    ensures n as real / d as real == q as real
  {
    assert (q * d) as real == q as real * d as real;
  }

  lemma RoundingGainBelowOne(n: nat, d: nat)
    requires 0 < d
    ensures 0.0 <= RoundingGain(n, d) < 1.0
  {
  }

  /** The same for a whole step, in closed form. */
  function StepGain(liquidity: nat, price: SqrtPrice, stepTarget: SqrtPrice): real {
    if stepTarget <= price then RoundingGain(liquidity * TWO_96 * (price - stepTarget), price * stepTarget)
    else RoundingGain(liquidity * (stepTarget - price), TWO_96)
  }

  lemma StepGainBelowOne(liquidity: nat, price: SqrtPrice, stepTarget: SqrtPrice)
    ensures 0.0 <= StepGain(liquidity, price, stepTarget) < 1.0
  {
    if stepTarget <= price {
      RoundingGainBelowOne(liquidity * TWO_96 * (price - stepTarget), price * stepTarget);
    } else {
      RoundingGainBelowOne(liquidity * (stepTarget - price), TWO_96);
    }
  }

  /** A step charges its exact worth and that gain, no more and no less. */
  lemma StepIsWorthAndGain(liquidity: nat, price: SqrtPrice, stepTarget: SqrtPrice)
    ensures StepAmount(liquidity, price, stepTarget) as real
         == ExactCost(TokenIn(price, stepTarget), liquidity, Min(price, stepTarget), Max(price, stepTarget))
          + StepGain(liquidity, price, stepTarget)
  {
    if stepTarget <= price {
      var n, d := liquidity * TWO_96 * (price - stepTarget), price * stepTarget;
      NestedDivUp(n, price, stepTarget);
      DivUpGain(n, d);
      Exact0(liquidity, stepTarget, price);
    } else {
      DivUpGain(liquidity * (stepTarget - price), TWO_96);
      Exact1(liquidity, price, stepTarget);
    }
  }

  lemma DivUpReal(n: nat, d: nat)
    requires 0 < d
    ensures n as real / d as real <= DivUp(n, d) as real < n as real / d as real + 1.0
  {
    var q: int := DivUp(n, d);
    RatioBelow(n, q, d);
    RatioAbove(n, q - 1, d);
  }

  lemma RatioBelow(n: int, q: int, d: int)
    requires 0 < d && n <= q * d
    ensures n as real / d as real <= q as real
  {
    var x := n as real / d as real;
    assert x * d as real == n as real;
    assert (q * d) as real == q as real * d as real;
    if q as real < x {
      assert q as real * d as real < x * d as real;
    }
  }

  lemma RatioAbove(n: int, q: int, d: int)
    requires 0 < d && q * d < n
    ensures q as real < n as real / d as real
  {
    var x := n as real / d as real;
    assert x * d as real == n as real;
    assert (q * d) as real == q as real * d as real;
    if x <= q as real {
      assert x * d as real <= q as real * d as real;
    }
  }

  /** A step costs its exact worth rounded up once, in either token. */
  lemma StepRounding(liquidity: nat, price: SqrtPrice, stepTarget: SqrtPrice)
    ensures var lo, hi := Min(price, stepTarget), Max(price, stepTarget);
            var token := TokenIn(price, stepTarget);
            var exact := ExactCost(token, liquidity, lo, hi);
            exact <= StepAmount(liquidity, price, stepTarget) as real <= exact + Slack(token)
  {
    if stepTarget <= price {
      var n, d := liquidity * TWO_96 * (price - stepTarget), price * stepTarget;
      NestedDivUp(n, price, stepTarget);
      DivUpReal(n, d);
      Exact0(liquidity, stepTarget, price);
    } else {
      var n := liquidity * (stepTarget - price);
      DivUpRealBy96(n);
      Exact1(liquidity, price, stepTarget);
    }
  }

  lemma DivUpRealBy96(n: nat)
    ensures n as real / TWO_96 as real <= DivUp(n, TWO_96) as real <= n as real / TWO_96 as real + Slack(Token1)
  {
    var q: int := DivUp(n, TWO_96);
    RatioBelow(n, q, TWO_96);
    assert q * TWO_96 <= n + (TWO_96 - 1);
  }

  lemma Exact1(liquidity: nat, lo: SqrtPrice, hi: SqrtPrice)
    ensures ExactCost(Token1, liquidity, lo, hi) == (liquidity * (hi - lo)) as real / TWO_96 as real
  {
  }

  lemma Exact0(liquidity: nat, lo: SqrtPrice, hi: SqrtPrice)
    ensures ExactCost(Token0, liquidity, lo, hi) == (liquidity * TWO_96 * (hi - lo)) as real / (hi * lo) as real
  {
    var l, h, q, m := lo as real, hi as real, TWO_96 as real, liquidity as real;
    assert (hi * lo) as real == h * l;
    assert (liquidity * TWO_96 * (hi - lo)) as real == m * q * (h - l);
    FractionDifference(l, h, q, m);
  }

  lemma FractionDifference(l: real, h: real, q: real, m: real)
    requires 0.0 < l && 0.0 < h
    ensures m * (-q / h - -q / l) == m * q * (h - l) / (h * l)
  {
    var a, b := q / l, q / h;
    assert a * l == q && b * h == q;
    assert (a - b) * (h * l) == q * (h - l);
  }

  lemma Amount1Monotone(liquidity: nat, lo: SqrtPrice, hi: SqrtPrice, hi': SqrtPrice)
    requires lo <= hi <= hi'
    ensures Amount1(liquidity, lo, hi) <= Amount1(liquidity, lo, hi')
  {
    var n, n' := liquidity * (hi - lo), liquidity * (hi' - lo);
    assert n <= n' by { MulMono(hi - lo, hi' - lo, liquidity); }
    DivUpMono(n, TWO_96, n', TWO_96);
  }

  lemma Amount0Monotone(liquidity: nat, lo': SqrtPrice, lo: SqrtPrice, hi: SqrtPrice)
    requires lo' <= lo <= hi
    ensures Amount0(liquidity, lo, hi) <= Amount0(liquidity, lo', hi)
  {
    var k := liquidity * TWO_96;
    var n, n' := k * (hi - lo), k * (hi - lo');
    assert n <= n' by { MulMono(hi - lo, hi - lo', k); }
    var m, m' := DivUp(n, hi), DivUp(n', hi);
    assert m <= m' by { MulMono(n, n', hi); DivUpMono(n, hi, n', hi); }
    assert m * lo' <= m' * lo by { MulMono(m, m', lo'); MulMono(lo', lo, m'); }
    DivUpMono(m, lo, m', lo');
  }

  /** A farther step target in the same direction never costs less. */
  lemma StepMonotone(liquidity: nat, price: SqrtPrice, near: SqrtPrice, far: SqrtPrice)
    requires far <= near <= price || price <= near <= far
    ensures StepAmount(liquidity, price, near) <= StepAmount(liquidity, price, far)
  {
    if far <= near <= price {
      Amount0Monotone(liquidity, far, near, price);
    } else {
      if near == price {
        NoMoveIsFree(liquidity, price);
      } else {
        Amount1Monotone(liquidity, price, near, far);
      }
    }
  }

  lemma NoMoveIsFree(liquidity: nat, price: SqrtPrice)
    ensures StepAmount(liquidity, price, price) == 0
  {
    var n := liquidity * TWO_96 * (price - price);
    assert n == 0;
    DivUpUnique(n, price, 0);
  }

  const MAX_STEP: int := 0x1_0000_0000_0000_0000_0000_0000_0000_0000_0000_0000_0000_0000_0000_0000

  /** A step costs at most 2^224 units. */
  lemma StepAmountFits(liquidity: nat, price: SqrtPrice, stepTarget: SqrtPrice)
    requires liquidity < TWO_128 && price < TWO_160 && stepTarget < TWO_160
    ensures StepAmount(liquidity, price, stepTarget) <= MAX_STEP
  {
    if stepTarget <= price {
      Amount0Bound(liquidity, stepTarget, price);
    } else {
      Amount1Bound(liquidity, price, stepTarget);
    }
  }

  lemma Amount1Bound(liquidity: nat, lo: SqrtPrice, hi: SqrtPrice)
    requires liquidity < TWO_128 && lo <= hi < TWO_160
    ensures Amount1(liquidity, lo, hi) <= MAX_STEP
  {
    var n := liquidity * (hi - lo);
    assert n <= TWO_128 * TWO_160 by {
      MulMono(liquidity, TWO_128, hi - lo);
      MulMono(hi - lo, TWO_160, TWO_128);
    }
    AtMost(n, TWO_96, MAX_STEP);
  }

  lemma Amount0Bound(liquidity: nat, lo: SqrtPrice, hi: SqrtPrice)
    requires liquidity < TWO_128 && lo <= hi
    ensures Amount0(liquidity, lo, hi) <= MAX_STEP
  {
    var k := liquidity * TWO_96;
    var n := k * (hi - lo);
    var m := DivUp(n, hi);
    assert m <= k by { SpreadBelow(k, lo, hi); AtMost(n, hi, k); }
    assert m <= k * lo by { MulMono(1, lo, k); }
    AtMost(m, lo, k);
  }

  lemma AtMost(n: nat, d: nat, k: nat)
    requires 0 < d && n <= k * d
    ensures DivUp(n, d) <= k
  {
    var q: int := DivUp(n, d);
    MulCancelLess(q - 1, k, d);
  }

  lemma SpreadBelow(k: nat, lo: SqrtPrice, hi: SqrtPrice)
    ensures k * (hi - lo) <= k * hi
  {
    MulMono(hi - lo, hi, k);
  }

  const PIPS: int := 1_000_000

  const MAX_INT256: int := 0x7fff_ffff_ffff_ffff_ffff_ffff_ffff_ffff_ffff_ffff_ffff_ffff_ffff_ffff_ffff_ffff

  /** What is left of an input for the curve, with a fee in millionths. */
  function LessFee(amount: nat, fee: nat): nat
    requires fee < PIPS
  {
    amount * (PIPS - fee) / PIPS
  }

  /** The fee on top of a step's input, rounded up. */
  function FeeOn(step: nat, fee: nat): nat
    requires fee < PIPS
  {
    DivUp(step * fee, PIPS - fee)
  }

  datatype SwapStep = Reaches(amountIn: nat, feeAmount: nat) | FallsShort

  /** SwapMath.computeSwapStep for an exact input: it reaches the step target when
      the input left after the fee pays for the move. */
  function ComputeSwapStep(price: SqrtPrice, stepTarget: SqrtPrice, liquidity: nat, amountLeft: nat, fee: nat): SwapStep
    requires fee < PIPS
  {
    var amountIn := StepAmount(liquidity, price, stepTarget);
    if amountIn <= LessFee(amountLeft, fee) then Reaches(amountIn, FeeOn(amountIn, fee)) else FallsShort
  }

  /** With the largest int256 as its input every step reaches its target, at any
      fee: the input it reports is the same for all of them. */
  lemma UnlimitedStepReaches(price: SqrtPrice, stepTarget: SqrtPrice, liquidity: nat, fee: nat)
    requires fee < PIPS && liquidity < TWO_128 && price < TWO_160 && stepTarget < TWO_160
    ensures var step := ComputeSwapStep(price, stepTarget, liquidity, MAX_INT256, fee);
            step.Reaches? && step.amountIn == StepAmount(liquidity, price, stepTarget)
  {
    StepAmountFits(liquidity, price, stepTarget);
    var kept: nat := PIPS - fee;
    assert MAX_STEP * PIPS <= MAX_INT256 * kept by { MulMono(1, kept, MAX_INT256); }
    FloorAtLeast(MAX_STEP, MAX_INT256 * kept, PIPS);
  }

  lemma FloorAtLeast(q: int, n: int, d: int)
    requires 0 < d
    ensures q * d <= n <==> q <= n / d
  {
    FloorBounds(n, d);
    if q * d <= n {
      MulCancelLess(q, n / d + 1, d);
    }
    if q <= n / d {
      MulMono(q, n / d, d);
    }
  }

  /** An input pays for a step at a fee exactly when it covers the step and the fee on it. */
  lemma PayableIff(step: nat, amount: nat, fee: nat)
    requires fee < PIPS
    ensures step <= LessFee(amount, fee) <==> step + FeeOn(step, fee) <= amount
    ensures step <= LessFee(amount, fee) <==> PIPS * step <= (PIPS - fee) * amount
  {
    var kept := PIPS - fee;
    var n, whole := step * fee, amount * kept;
    FloorAtLeast(step, whole, PIPS);
    assert step * PIPS == step * kept + n;
    assert whole - step * kept == (amount - step) * kept;
    CeilAtMost(n, kept, amount - step);
  }

  lemma CeilAtMost(n: nat, d: nat, k: int)
    requires 0 < d
    ensures DivUp(n, d) <= k <==> n <= k * d
  {
    var q: int := DivUp(n, d);
    if n <= k * d {
      MulCancelLess(q - 1, k, d);
    }
    if q <= k {
      MulMono(q, k, d);
    }
  }
}
