/** Prices and their Q64.96 square roots: StabilizationVault._priceToSqrtPriceX96
    and the floored price read back from slot0. */
module PriceConversion {
  import opened Evm
  import opened Rounding
  import opened IntegerSqrt

  /** `price << 192` drops the bits above 256; `uint160(...)` those above 160. */
  ghost function PriceToSqrtPriceX96(price: Uint256): nat {
    FloorSqrt(price * TWO_192 % TWO_256) % TWO_160
  }

  method ComputeSqrtPriceX96(price: Uint256) returns (r: nat)
    ensures r == PriceToSqrtPriceX96(price)
  {
    var priceX192: Uint256 := price * TWO_192 % TWO_256;
    ShiftDropsHighBits(price);
    var root, _ := Sqrt(priceX192);
    r := root.value % TWO_160;
  }

  /** `(sqrtPriceX96 * sqrtPriceX96) >> 192` in checked arithmetic. */
  function FloorPrice(sqrtPriceX96: nat): Outcome<nat> {
    match CheckedMul(sqrtPriceX96, sqrtPriceX96)
    case Ok(square) => Ok(square / TWO_192)
    case Revert => Revert
  }

  lemma ShiftDropsHighBits(price: nat)
    ensures price * TWO_192 % TWO_256 == price % TWO_64 * TWO_192
  {
    var high, low := price / TWO_64, price % TWO_64;
    assert price * TWO_192 == high * TWO_256 + low * TWO_192;
    FloorUnique(price * TWO_192, TWO_256, high);
  }

  /** The shift makes the conversion periodic: only the low 64 bits of a price matter. */
  lemma OnlyLow64BitsMatter(price: Uint256)
    ensures PriceToSqrtPriceX96(price) == PriceToSqrtPriceX96(price % TWO_64)
  {
    ShiftDropsHighBits(price);
    ShiftDropsHighBits(price % TWO_64);
  }

  /** Below 2^64 neither the shift nor the cast loses anything. */
  lemma ConversionIsExact(price: nat)
    requires price < TWO_64
    ensures PriceToSqrtPriceX96(price) == FloorSqrt(price * TWO_192) < TWO_128
  {
    var n, r: nat := price * TWO_192, FloorSqrt(price * TWO_192);
    assert n % TWO_256 == n by { ShiftDropsHighBits(price); }
    assert r < TWO_128 by {
      FloorSqrtBounds(n);
      SquareCancel(r, TWO_128);
    }
  }

  /** Strictly larger prices have strictly larger roots. */
  lemma ConversionIsMonotone(price: nat, price': nat)
    requires price < price' < TWO_64
    ensures PriceToSqrtPriceX96(price) < PriceToSqrtPriceX96(price')
  {
    ConversionIsExact(price);
    ConversionIsExact(price');
    var r, r' := FloorSqrt(price * TWO_192), FloorSqrt(price' * TWO_192);
    FloorSqrtBounds(price * TWO_192);
    FloorSqrtBounds(price' * TWO_192);
    assert (r + 1) * (r + 1) == r * r + 2 * r + 1;
    SquareCancel(r + 1, r' + 1);
  }

  ghost predicate PerfectSquare(n: nat) {
    FloorSqrt(n) * FloorSqrt(n) == n
  }

  /** Converting back loses at most one unit, and nothing exactly for perfect squares. */
  lemma ConversionNearlyInverts(price: nat)
    requires price < TWO_64
    ensures FloorPrice(PriceToSqrtPriceX96(price)).Ok?
    ensures var back := FloorPrice(PriceToSqrtPriceX96(price)).value;
            (back == price || back == price - 1) && (back == price <==> PerfectSquare(price))
  {
    ConversionIsExact(price);
    var r := FloorSqrt(price * TWO_192);
    FloorSqrtBounds(price * TWO_192);
    FloorOfSquare(price, r);
    ScaledPerfectSquare(price, r);
  }

  lemma FloorOfSquare(price: nat, r: nat)
    requires price < TWO_64 && r < TWO_128
    requires IsFloorSqrt(price * TWO_192, r)
    ensures FloorPrice(r).Ok?
    ensures FloorPrice(r).value == if r * r == price * TWO_192 then price else price - 1
  {
    var square := r * r;
    assert (r + 1) * (r + 1) == square + 2 * r + 1;
    assert square <= price * TWO_192 < square + TWO_192;
  }

  /** A perfect square stays one, and no other number becomes one, times 2^192. */
  lemma ScaledPerfectSquare(n: nat, r: nat)
    requires IsFloorSqrt(n * TWO_192, r)
    ensures r * r == n * TWO_192 <==> PerfectSquare(n)
  {
    if r * r == n * TWO_192 {
      PowerOfFour96();
      PowersOfFourCancel(n, r, 96);
    }
    if PerfectSquare(n) {
      var q := FloorSqrt(n);
      var s := q * TWO_96;
      assert s * s == q * q * TWO_192 by { assert s * s == q * q * (TWO_96 * TWO_96); }
      assert s * s < (s + 1) * (s + 1);
      FloorSqrtUnique(n * TWO_192, s);
      FloorSqrtUnique(n * TWO_192, r);
    }
  }

  function PowerOfFour(k: nat): nat {
    if k == 0 then 1 else 4 * PowerOfFour(k - 1)
  }

  lemma PowerOfFourUp8(k: nat)
    ensures PowerOfFour(k + 8) == 0x1_0000 * PowerOfFour(k)
  {
    assert PowerOfFour(k + 2) == 16 * PowerOfFour(k);
    assert PowerOfFour(k + 4) == 256 * PowerOfFour(k);
    assert PowerOfFour(k + 6) == 4096 * PowerOfFour(k);
  }

  lemma PowerOfFourUp24(k: nat)
    ensures PowerOfFour(k + 24) == 0x1_0000_0000_0000 * PowerOfFour(k)
  {
    PowerOfFourUp8(k);
    PowerOfFourUp8(k + 8);
    PowerOfFourUp8(k + 16);
  }

  lemma PowerOfFour96()
    ensures PowerOfFour(96) == TWO_192
  {
    PowerOfFourUp24(0);
    PowerOfFourUp24(24);
    PowerOfFourUp24(48);
    PowerOfFourUp24(72);
  }

  lemma {:induction false} PowersOfFourCancel(n: nat, r: nat, k: nat)
    requires r * r == n * PowerOfFour(k)
    ensures PerfectSquare(n)
  {
    if k == 0 {
      assert r * r < (r + 1) * (r + 1);
      FloorSqrtUnique(n, r);
    } else {
      var m := n * PowerOfFour(k - 1);
      assert r * r == 4 * m;
      RootIsEven(r, m);
      PowersOfFourCancel(n, r / 2, k - 1);
    }
  }

  lemma RootIsEven(r: nat, m: nat)
    requires r * r == 4 * m
    ensures (r / 2) * (r / 2) == m
  {
    var h, b := r / 2, r % 2;
    var s := h * h + h * b;
    assert r == 2 * h + b;
    assert r * r == 4 * s + b * b;
    assert b * b == b by { assert b == 0 || b == 1; }
    assert 4 * (m - s) == b;
  }

  /** Comparing a target with the floored price decides on which side of the
      target's root the pool stands. */
  lemma DirectionDecided(target: nat, sqrtPriceX96: nat)
    requires target < TWO_64 && sqrtPriceX96 < TWO_128
    requires sqrtPriceX96 != PriceToSqrtPriceX96(target)
    ensures FloorPrice(sqrtPriceX96).Ok?
    ensures target > FloorPrice(sqrtPriceX96).value <==> sqrtPriceX96 < PriceToSqrtPriceX96(target)
  {
    ConversionIsExact(target);
    FloorPriceComputed(sqrtPriceX96);
    var n := target * TWO_192;
    var r := FloorSqrt(n);
    var square := sqrtPriceX96 * sqrtPriceX96;
    assert sqrtPriceX96 < r <==> square < n by { FloorSqrtBounds(n); CompareWithRoot(n, r, sqrtPriceX96); }
    assert target > square / TWO_192 <==> square < n;
  }

  lemma FloorPriceComputed(s: nat)
    ensures FloorPrice(s).Ok? <==> s < TWO_128
    ensures s < TWO_128 ==> FloorPrice(s) == Ok(s * s / TWO_192) && s * s / TWO_192 < TWO_64
  {
    if s < TWO_128 {
      MulMono(s, TWO_128 - 1, s);
      MulMono(s, TWO_128 - 1, TWO_128 - 1);
    } else {
      MulMono(TWO_128, s, s);
      MulMono(TWO_128, s, TWO_128);
    }
  }

  lemma CompareWithRoot(n: nat, r: nat, s: nat)
    requires IsFloorSqrt(n, r) && s != r
    ensures s < r <==> s * s < n
  {
    if s < r {
      MulMono(s, r - 1, s);
      MulMono(s, r - 1, r);
    } else {
      MulMono(r + 1, s, s);
      MulMono(r + 1, s, r + 1);
    }
  }
}
