/** The bot's liquidity amounts: executor.calculateTokenAmounts and GetTierPositions. */
module LiquidityAmounts {
  import opened Evm
  import opened Rounding
  import opened Powers

  /** Price of a tick: 2^96 multiplied by 10001/10000 tick times, rounding down
      each time. Ticks at or below zero never enter the loop. */
  function TickPrice(tick: int): (p: nat)
    ensures TWO_96 <= p
  {
    if tick <= 0 then TWO_96 else TickPrice(tick - 1) * 10001 / 10000
  }

  /** Token amounts of a liquidity between two root prices. Go's big.Int Div is
      Euclidean, as `/` is here. */
  function Amount0Between(liquidity: int, lo: int, hi: int): int
    requires lo != 0 && hi != 0
  {
    liquidity * (hi - lo) * TWO_96 / (lo * hi)
  }

  function Amount1Between(liquidity: int, lo: int, hi: int): int {
    liquidity * (hi - lo) / TWO_96
  }

  datatype Amounts = Amounts(amount0: int, amount1: int)

  function TokenAmounts(liquidity: int, tickLower: int, tickUpper: int, sqrtP: int, currentTick: int): Amounts {
    if liquidity == 0 || sqrtP == 0 then Amounts(0, 0)
    else
      var a, b := TickPrice(tickLower), TickPrice(tickUpper);
      if currentTick <= tickLower then Amounts(Amount0Between(liquidity, a, b), 0)
      else if tickUpper <= currentTick then Amounts(0, Amount1Between(liquidity, a, b))
      else Amounts(Amount0Between(liquidity, sqrtP, b), Amount1Between(liquidity, a, sqrtP))
  }

  /** The two price loops and the three branches. */
  method CalculateTokenAmounts(liquidity: int, tickLower: int, tickUpper: int, sqrtP: int, currentTick: int)
    returns (r: Amounts)
    ensures r == TokenAmounts(liquidity, tickLower, tickUpper, sqrtP, currentTick)
  {
    if liquidity == 0 || sqrtP == 0 {
      return Amounts(0, 0);
    }
    var sqrtPa := PriceLoop(tickLower);
    var sqrtPb := PriceLoop(tickUpper);
    var amount0, amount1 := 0, 0;
    if currentTick <= tickLower {
      amount0 := Amount0Between(liquidity, sqrtPa, sqrtPb);
    } else if currentTick >= tickUpper {
      amount1 := Amount1Between(liquidity, sqrtPa, sqrtPb);
    } else {
      amount0 := Amount0Between(liquidity, sqrtP, sqrtPb);
      amount1 := Amount1Between(liquidity, sqrtPa, sqrtP);
    }
    return Amounts(amount0, amount1);
  }

  method PriceLoop(tick: int) returns (price: nat)
    ensures price == TickPrice(tick)
  {
    price := TWO_96;
    var i := 0;
    while i < tick
      invariant 0 <= i && (i <= tick || i == 0)
      invariant price == TickPrice(i)
    {
      price := price * 10001;
      price := price / 10000;
      i := i + 1;
    }
  }

  // ----- the price loop

  /** The loop's accumulated rounding, over the common denominator 10000^n. */
  lemma {:induction false} TickPriceError(n: nat)
    ensures 0 <= TWO_96 * Power(10001, n) - TickPrice(n) * Power(10000, n)
              <= 10000 * (Power(10001, n) - Power(10000, n))
  {
    if n == 0 {
    } else {
      TickPriceError(n - 1);
      ErrorStep(Power(10001, n - 1), Power(10000, n - 1), TickPrice(n - 1));
    }
  }

  /** One multiplication scales the error by 10001 and adds less than 10000. */
  lemma ErrorStep(x: nat, y: nat, p: nat)
    requires 0 <= TWO_96 * x - p * y <= 10000 * (x - y)
    ensures 0 <= TWO_96 * (10001 * x) - (p * 10001 / 10000) * (10000 * y) <= 10000 * (10001 * x - 10000 * y)
  {
    var q, r := p * 10001 / 10000, p * 10001 % 10000;
    assert q * 10000 == p * 10001 - r;
    assert q * (10000 * y) == (q * 10000) * y == (p * 10001 - r) * y == 10001 * (p * y) - r * y;
    assert 0 <= r * y <= 9999 * y by { MulMono(r, 9999, y); }
  }

  lemma {:induction false} TickPriceMonotone(s: int, t: int)
    requires s <= t
    ensures TickPrice(s) <= TickPrice(t)
    ensures 0 < t && s < t ==> TickPrice(s) < TickPrice(t)
    decreases t - s
  {
    if s == t {
    } else {
      TickPriceMonotone(s, t - 1);
    }
  }

  // ----- all branches

  /** The root price the amounts are taken at: the range's own end outside it. */
  function PriceInRange(tickLower: int, tickUpper: int, sqrtP: nat, currentTick: int): nat {
    if currentTick <= tickLower then TickPrice(tickLower)
    else if tickUpper <= currentTick then TickPrice(tickUpper)
    else sqrtP
  }

  /** Each token by itself, for every position and every price, inside the tick
      prices or not: the amount is the largest integer that stays on its side. */
  lemma AmountsExact(liquidity: nat, tickLower: int, tickUpper: int, sqrtP: nat, currentTick: int)
    requires 0 < liquidity && 0 < sqrtP
    ensures var r := TokenAmounts(liquidity, tickLower, tickUpper, sqrtP, currentTick);
            var a, b := TickPrice(tickLower), TickPrice(tickUpper);
            var p := PriceInRange(tickLower, tickUpper, sqrtP, currentTick);
            && p * (r.amount0 * b + liquidity * TWO_96)
                 <= liquidity * TWO_96 * b
                 < p * ((r.amount0 + 1) * b + liquidity * TWO_96)
            && r.amount1 * TWO_96 + liquidity * a <= liquidity * p < (r.amount1 + 1) * TWO_96 + liquidity * a
  {
    var a, b := TickPrice(tickLower), TickPrice(tickUpper);
    var p := PriceInRange(tickLower, tickUpper, sqrtP, currentTick);
    Token0Bracket(liquidity, p, b);
    Token1Bracket(liquidity, a, p);
  }

  lemma Token0Bracket(l: nat, p: nat, b: nat)
    requires 0 < p && 0 < b
    ensures p * (Amount0Between(l, p, b) * b + l * TWO_96) <= l * TWO_96 * b
    ensures l * TWO_96 * b < p * ((Amount0Between(l, p, b) + 1) * b + l * TWO_96)
    ensures p == b ==> Amount0Between(l, p, b) == 0
  {
    var n, d, k := l * (b - p) * TWO_96, p * b, l * TWO_96;
    assert n == k * b - k * p;
    FloorBounds(n, d);
    CurveSide(k, p, b, n / d, n);
    if p == b {
      FloorUnique(0, d, 0);
    }
  }

  lemma Token1Bracket(l: nat, a: nat, p: nat)
    ensures Amount1Between(l, a, p) * TWO_96 + l * a <= l * p < (Amount1Between(l, a, p) + 1) * TWO_96 + l * a
    ensures a == p ==> Amount1Between(l, a, p) == 0
  {
    FloorBounds(l * (p - a), TWO_96);
    assert l * (p - a) == l * p - l * a;
  }

  // ----- in range

  predicate InsideRange(tickLower: int, tickUpper: int, currentTick: int) {
    tickLower < currentTick < tickUpper
  }

  /** The product of the virtual reserves, in units of 1/b and 1/2^96. */
  function VirtualProduct(liquidity: nat, a: nat, b: nat, amount0: int, amount1: int): int {
    (amount0 * b + liquidity * TWO_96) * (amount1 * TWO_96 + liquidity * a)
  }

  /** In range the amounts sit on or just below the curve of virtual reserves
      (Uniswap v3 Core whitepaper, section 2): rounding takes less than one unit
      of each token off it. */
  lemma AmountsOnCurve(liquidity: nat, tickLower: int, tickUpper: int, sqrtP: nat, currentTick: int)
    requires 0 < liquidity && InsideRange(tickLower, tickUpper, currentTick)
    requires TickPrice(tickLower) <= sqrtP <= TickPrice(tickUpper)
    ensures var r := TokenAmounts(liquidity, tickLower, tickUpper, sqrtP, currentTick);
            var a, b := TickPrice(tickLower), TickPrice(tickUpper);
            && 0 <= r.amount0 && 0 <= r.amount1
            && VirtualProduct(liquidity, a, b, r.amount0, r.amount1) <= liquidity * (liquidity * TWO_96 * b)
            && liquidity * (liquidity * TWO_96 * b) < VirtualProduct(liquidity, a, b, r.amount0 + 1, r.amount1 + 1)
  {
    var a, b := TickPrice(tickLower), TickPrice(tickUpper);
    CurveBounds(liquidity, a, sqrtP, b);
  }

  /** Out of range the whole position is in one token, at the curve's intercept:
      token0 below the range, token1 above it. */
  lemma OneTokenOnCurve(liquidity: nat, tickLower: int, tickUpper: int, sqrtP: nat, currentTick: int)
    requires 0 < liquidity && 0 < sqrtP && tickLower <= tickUpper && !InsideRange(tickLower, tickUpper, currentTick)
    ensures var r := TokenAmounts(liquidity, tickLower, tickUpper, sqrtP, currentTick);
            var a, b := TickPrice(tickLower), TickPrice(tickUpper);
            var below := currentTick <= tickLower;
            && 0 <= r.amount0 && 0 <= r.amount1 && (if below then r.amount1 == 0 else r.amount0 == 0)
            && VirtualProduct(liquidity, a, b, r.amount0, r.amount1) <= liquidity * (liquidity * TWO_96 * b)
            && liquidity * (liquidity * TWO_96 * b)
                 < VirtualProduct(liquidity, a, b, r.amount0 + (if below then 1 else 0),
                                   r.amount1 + (if below then 0 else 1))
  {
    var a, b := TickPrice(tickLower), TickPrice(tickUpper);
    TickPriceMonotone(tickLower, tickUpper);
    if currentTick <= tickLower {
      OnlyToken0(liquidity, a, b);
    } else {
      OnlyToken1(liquidity, a, b);
    }
  }

  lemma OnlyToken0(l: nat, a: nat, b: nat)
    requires 0 < l && 0 < a <= b
    ensures var x := Amount0Between(l, a, b);
            0 <= x && VirtualProduct(l, a, b, x, 0) <= l * (l * TWO_96 * b) < VirtualProduct(l, a, b, x + 1, 0)
  {
    Token0OnCurve(l, a, b);
    var x, c := Amount0Between(l, a, b), l * TWO_96 * b;
    ScaleSide(l, a, c, x * b + l * TWO_96, (x + 1) * b + l * TWO_96);
  }

  /** a * u <= c < a * u', scaled by l. */
  lemma ScaleSide(l: nat, a: nat, c: int, u: int, u': int)
    requires 0 < l && a * u <= c < a * u'
    ensures u * (0 * TWO_96 + l * a) <= l * c < u' * (0 * TWO_96 + l * a)
  {
    assert a * u * l <= c * l by { MulMono(a * u, c, l); }
    assert (c + 1) * l <= a * u' * l by { MulMono(c + 1, a * u', l); }
  }

  lemma OnlyToken1(l: nat, a: nat, b: nat)
    requires 0 < l && 0 < a <= b
    ensures var y := Amount1Between(l, a, b);
            0 <= y && VirtualProduct(l, a, b, 0, y) <= l * (l * TWO_96 * b) < VirtualProduct(l, a, b, 0, y + 1)
  {
    Token1OnCurve(l, a, b);
    var y, k := Amount1Between(l, a, b), l * TWO_96;
    var v, v' := y * TWO_96 + l * a, (y + 1) * TWO_96 + l * a;
    assert 0 * b + k == k && k * (l * b) == l * (k * b);
    assert k * v <= k * (l * b) by { MulMono(v, l * b, k); }
    assert k * (l * b) < k * v' by { MulMono(l * b + 1, v', k); }
  }

  lemma CurveBounds(l: nat, a: nat, p: nat, b: nat)
    requires 0 < l && 0 < p && a <= p <= b
    ensures var x, y := Amount0Between(l, p, b), Amount1Between(l, a, p);
            && 0 <= x && 0 <= y
            && VirtualProduct(l, a, b, x, y) <= l * (l * TWO_96 * b) < VirtualProduct(l, a, b, x + 1, y + 1)
  {
    Token0OnCurve(l, p, b);
    Token1OnCurve(l, a, p);
    var x, y, c := Amount0Between(l, p, b), Amount1Between(l, a, p), l * TWO_96 * b;
    var u, v := x * b + l * TWO_96, y * TWO_96 + l * a;
    var u', v' := (x + 1) * b + l * TWO_96, (y + 1) * TWO_96 + l * a;
    assert u * v <= l * c by { ProductBelow(l, p, c, u, v); }
    assert l * c < u' * v' by { ProductAbove(l, p, c, u', v'); }
  }

  lemma Token0OnCurve(l: nat, p: nat, b: nat)
    requires 0 < p <= b
    ensures 0 <= Amount0Between(l, p, b)
    ensures p * (Amount0Between(l, p, b) * b + l * TWO_96) <= l * TWO_96 * b
    ensures l * TWO_96 * b < p * ((Amount0Between(l, p, b) + 1) * b + l * TWO_96)
  {
    var n, d := l * (b - p) * TWO_96, p * b;
    var x := n / d;
    assert x * d <= n < (x + 1) * d by { FloorBounds(n, d); }
    assert n == l * TWO_96 * b - l * TWO_96 * p by { Spread(l, p, b); }
    CurveSide(l * TWO_96, p, b, x, n);
    NonNegativeQuotient(l, p, b);
  }

  lemma Spread(l: nat, p: nat, b: nat)
    ensures l * (b - p) * TWO_96 == l * TWO_96 * b - l * TWO_96 * p
  {
  }

  lemma NonNegativeQuotient(l: nat, p: nat, b: nat)
    requires 0 < p <= b
    ensures 0 <= l * (b - p) * TWO_96 / (p * b)
  {
    var n := l * (b - p) * TWO_96;
    assert 0 <= n by { MulMono(0, l, b - p); }
    FloorMono(0, 1, n, p * b);
  }

  lemma CurveSide(k: nat, p: nat, b: nat, x: int, n: int)
    requires n == k * b - k * p
    requires x * (p * b) <= n < (x + 1) * (p * b)
    ensures p * (x * b + k) <= k * b < p * ((x + 1) * b + k)
  {
    assert p * (x * b + k) == x * (p * b) + k * p;
    assert p * ((x + 1) * b + k) == (x + 1) * (p * b) + k * p;
  }

  lemma Token1OnCurve(l: nat, a: nat, p: nat)
    requires a <= p
    ensures 0 <= Amount1Between(l, a, p)
    ensures Amount1Between(l, a, p) * TWO_96 + l * a <= l * p < (Amount1Between(l, a, p) + 1) * TWO_96 + l * a
  {
    var n := l * (p - a);
    assert 0 <= n by { MulMono(0, l, p - a); }
    assert n == l * p - l * a;
  }

  lemma ProductBelow(l: nat, p: nat, c: nat, u: int, v: int)
    requires 0 < p && p * u <= c && 0 <= v <= l * p
    ensures u * v <= l * c
  {
    assert p * u * v <= c * v by { MulMono(p * u, c, v); }
    assert c * v <= l * p * c by { MulMono(v, l * p, c); }
    assert (u * v) * p <= (l * c) * p;
    if l * c < u * v { MulMono(l * c + 1, u * v, p); }
  }

  lemma ProductAbove(l: nat, p: nat, c: nat, u: int, v: int)
    requires 0 < p && c < p * u && l * p < v
    ensures l * c < u * v
  {
    assert (c + 1) * v <= p * u * v by { MulMono(c + 1, p * u, v); }
    assert l * p * c <= v * c by { MulMono(l * p, v, c); }
    assert (l * c) * p < (u * v) * p;
    MulCancelLess(l * c, u * v, p);
  }

  /** Where the sign matters: in range, amounts of a positive liquidity are
      non-negative exactly when the price lies between the computed tick prices. */
  lemma SignOfAmounts(liquidity: nat, tickLower: int, tickUpper: int, sqrtP: nat, currentTick: int)
    requires 0 < liquidity && 0 < sqrtP && InsideRange(tickLower, tickUpper, currentTick)
    ensures var r := TokenAmounts(liquidity, tickLower, tickUpper, sqrtP, currentTick);
            && (0 <= r.amount0 <==> sqrtP <= TickPrice(tickUpper))
            && (0 <= r.amount1 <==> TickPrice(tickLower) <= sqrtP)
  {
    var a, b := TickPrice(tickLower), TickPrice(tickUpper);
    SignOfQuotient(liquidity * (b - sqrtP) * TWO_96, sqrtP * b);
    SignOfQuotient(liquidity * (sqrtP - a), TWO_96);
    SignOfProduct(liquidity, b - sqrtP);
    SignOfProduct(liquidity, sqrtP - a);
  }

  lemma SignOfQuotient(n: int, d: int)
    requires 0 < d
    ensures 0 <= n / d <==> 0 <= n
  {
    var q := n / d;
    assert q * d <= n < (q + 1) * d by { FloorBounds(n, d); }
    if 0 <= q { MulMono(0, q, d); } else { MulMono(q + 1, 0, d); }
  }

  lemma SignOfProduct(l: nat, m: int)
    requires 0 < l
    ensures 0 <= l * m <==> 0 <= m
  {
    if 0 <= m { MulMono(0, l, m); } else { MulMono(m, -1, l); }
  }

  /** Below price 1 it fails: both ticks of a negative range are priced at 2^96. */
  lemma NegativeTicksGoNegative(liquidity: nat, tickLower: int, tickUpper: int, sqrtP: nat, currentTick: int)
    requires 0 < liquidity && 0 < sqrtP && InsideRange(tickLower, tickUpper, currentTick) && tickUpper <= 0
    ensures var r := TokenAmounts(liquidity, tickLower, tickUpper, sqrtP, currentTick);
            (0 <= r.amount0 && 0 <= r.amount1) <==> sqrtP == TWO_96
  {
    SignOfAmounts(liquidity, tickLower, tickUpper, sqrtP, currentTick);
  }

  // ----- out of range

  /** Amounts over adjacent ranges add up, but for one unit of rounding. */
  lemma OutOfRangeAdditive(liquidity: int, ta: int, tb: int, tc: int, sqrtP: int, currentTick: int)
    requires ta <= tb <= tc && (currentTick <= ta || tc <= currentTick)
    ensures var left := TokenAmounts(liquidity, ta, tb, sqrtP, currentTick);
            var right := TokenAmounts(liquidity, tb, tc, sqrtP, currentTick);
            var whole := TokenAmounts(liquidity, ta, tc, sqrtP, currentTick);
            && left.amount0 + right.amount0 <= whole.amount0 <= left.amount0 + right.amount0 + 1
            && left.amount1 + right.amount1 <= whole.amount1 <= left.amount1 + right.amount1 + 1
  {
    var a, b, c := TickPrice(ta), TickPrice(tb), TickPrice(tc);
    Amount0Additive(liquidity, a, b, c);
    Amount1Additive(liquidity, a, b, c);
    NothingBetween(liquidity, b);
    NothingBetween(liquidity, a);
  }

  lemma NothingBetween(l: int, a: nat)
    requires 0 < a
    ensures Amount0Between(l, a, a) == 0 && Amount1Between(l, a, a) == 0
  {
    var n := l * (a - a);
    assert n == 0;
    FloorUnique(n * TWO_96, a * a, 0);
  }

  lemma Amount0Additive(l: int, a: nat, b: nat, c: nat)
    requires 0 < a && 0 < b && 0 < c
    ensures Amount0Between(l, a, b) + Amount0Between(l, b, c) <= Amount0Between(l, a, c)
              <= Amount0Between(l, a, b) + Amount0Between(l, b, c) + 1
  {
    var u, v, w := l * (b - a) * TWO_96, l * (c - b) * TWO_96, l * (c - a) * TWO_96;
    Telescope(l * TWO_96, a, b, c);
    assert u == l * TWO_96 * (b - a) && v == l * TWO_96 * (c - b) && w == l * TWO_96 * (c - a);
    FloorSum(u, a * b, v, b * c, w, a * c);
  }

  lemma Telescope(k: int, a: nat, b: nat, c: nat)
    ensures k * (c - a) * ((a * b) * (b * c)) == (k * (b - a) * (b * c) + k * (c - b) * (a * b)) * (a * c)
  {
    var lhs := (c - a) * ((a * b) * (b * c));
    var sum := (b - a) * (b * c) + (c - b) * (a * b);
    assert sum == b * b * (c - a) by { Polynomial(a, b, c); }
    assert sum * (a * c) == lhs;
    assert k * (b - a) * (b * c) + k * (c - b) * (a * b) == k * sum;
    assert k * sum * (a * c) == k * (sum * (a * c));
  }

  lemma Polynomial(a: nat, b: nat, c: nat)
    ensures (b - a) * (b * c) + (c - b) * (a * b) == b * b * (c - a)
  {
  }

  lemma Amount1Additive(l: int, a: nat, b: nat, c: nat)
    ensures Amount1Between(l, a, b) + Amount1Between(l, b, c) <= Amount1Between(l, a, c)
              <= Amount1Between(l, a, b) + Amount1Between(l, b, c) + 1
  {
    assert l * (b - a) + l * (c - b) == l * (c - a);
  }
}
