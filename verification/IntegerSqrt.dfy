/** The Newton iteration of StabilizationVault._sqrt. */
module IntegerSqrt {
  import opened Evm
  import opened Rounding
  import opened Powers

  predicate IsFloorSqrt(x: nat, r: nat) {
    r * r <= x < (r + 1) * (r + 1)
  }

  function Square(s: nat): nat {
    s * s
  }

  /** The naturals whose square is at most x are those up to r. */
  ghost predicate IsRoot(x: nat, r: nat) {
    forall s: nat :: Square(s) <= x <==> s <= r
  }

  lemma {:induction false} RootExists(x: nat)
    ensures exists r: nat :: IsRoot(x, r)
  {
    if x == 0 {
      FloorIsRoot(0, 0);
    } else {
      RootExists(x - 1);
      var r: nat :| IsRoot(x - 1, r);
      RootBounds(x - 1, r);
      assert IsFloorSqrt(x, r) || IsFloorSqrt(x, r + 1);
      FloorIsRoot(x, if IsFloorSqrt(x, r) then r else r + 1);
    }
  }

  lemma RootBounds(x: nat, r: nat)
    requires IsRoot(x, r)
    ensures IsFloorSqrt(x, r)
  {
    assert Square(r) <= x < Square(r + 1);
  }

  lemma FloorIsRoot(x: nat, r: nat)
    requires IsFloorSqrt(x, r)
    ensures IsRoot(x, r)
  {
    forall s: nat ensures Square(s) <= x <==> s <= r {
      if s <= r {
        MulMono(s, r, s);
        MulMono(s, r, r);
      } else {
        MulMono(r + 1, s, s);
        MulMono(r + 1, s, r + 1);
      }
    }
  }

  /** The largest natural whose square is at most x. */
  ghost function FloorSqrt(x: nat): nat {
    RootExists(x);
    var r: nat :| IsRoot(x, r);
    r
  }

  lemma FloorSqrtBounds(x: nat)
    ensures IsFloorSqrt(x, FloorSqrt(x))
  {
    RootExists(x);
    RootBounds(x, FloorSqrt(x));
  }

  lemma SquareCancel(a: nat, b: nat)
    requires a * a < b * b
    ensures a < b
  {
    if b <= a {
      MulMono(b, a, b);
      MulMono(b, a, a);
    }
  }

  lemma FloorSqrtUnique(x: nat, r: nat)
    requires IsFloorSqrt(x, r)
    ensures FloorSqrt(x) == r
  {
    FloorSqrtBounds(x);
    var s := FloorSqrt(x);
    SquareCancel(s, r + 1);
    SquareCancel(r, s + 1);
  }

  function NewtonStep(x: nat, z: nat): nat
    requires 0 < z
  {
    (x / z + z) / 2
  }

  /** A Newton step never falls below the root. */
  lemma NewtonStaysAbove(x: nat, z: nat)
    requires 0 < z
    ensures FloorSqrt(x) <= NewtonStep(x, z)
  {
    FloorSqrtBounds(x);
    var s, q := FloorSqrt(x), x / z;
    assert x < (q + 1) * z by { FloorBounds(x, z); }
    assert s <= (q + z) / 2 by { MeanAbove(x, s, q, z); }
  }

  /** The square of a mean is at least the product. */
  lemma MeanAbove(x: nat, s: nat, q: nat, z: nat)
    requires s * s <= x < (q + 1) * z
    ensures s <= (q + z) / 2
  {
    var a := q + 1;
    assert (a + z) * (a + z) - 4 * (a * z) == (a - z) * (a - z);
    SquareNonNegative(a - z);
    assert 4 * (s * s) == (2 * s) * (2 * s);
    SquareCancel(2 * s, a + z);
  }

  lemma SquareNonNegative(a: int)
    ensures 0 <= a * a
  {
  }

  /** Above the root, a step at least halves the distance to it. */
  lemma NewtonHalves(x: nat, z: nat)
    requires FloorSqrt(x) < z
    ensures NewtonStep(x, z) - FloorSqrt(x) <= (z - FloorSqrt(x)) / 2
  {
    FloorSqrtBounds(x);
    var s, q := FloorSqrt(x), x / z;
    assert q * z <= x by { FloorBounds(x, z); }
    assert (q + z) / 2 - s <= (z - s) / 2 by { HalvedDistance(x, s, q, z); }
  }

  lemma HalvedDistance(x: nat, s: nat, q: nat, z: nat)
    requires s < z && q * z <= x < (s + 1) * (s + 1)
    ensures (q + z) / 2 - s <= (z - s) / 2
  {
    assert q * (s + 1) < (s + 1) * (s + 1) by { MulMono(s + 1, z, q); }
    assert q < s + 1 by { MulCancelLess(q, s + 1, s + 1); }
  }

  function BitLength(n: nat): nat {
    if n == 0 then 0 else 1 + BitLength(n / 2)
  }

  /** A number of k bits lies between two neighbouring powers of two. */
  lemma {:induction false} BitLengthIsLogarithm(n: nat)
    requires 0 < n
    ensures 0 < BitLength(n) && Power(2, BitLength(n) - 1) <= n < Power(2, BitLength(n))
  {
    if n == 1 {
      assert BitLength(0) == 0 && Power(2, 1) == 2 * Power(2, 0);
    } else {
      BitLengthIsLogarithm(n / 2);
      assert Power(2, BitLength(n)) == 2 * Power(2, BitLength(n) - 1);
    }
  }

  lemma {:induction false} BitLengthMono(a: nat, b: nat)
    requires a <= b
    ensures BitLength(a) <= BitLength(b)
  {
    if a == 0 {
    } else {
      BitLengthMono(a / 2, b / 2);
    }
  }

  /** Checked arithmetic makes only the largest uint256 revert, at x + 1; every
      other input gives the exact floor root, within BitLength(x) iterations. */
  method Sqrt(x: Uint256) returns (r: Outcome<nat>, ghost steps: nat)
    ensures r.Revert? <==> x == TWO_256 - 1
    ensures r.Ok? ==> r.value == FloorSqrt(x)
    ensures steps <= BitLength(x)
  {
    steps := 0;
    if x == 0 {
      FloorSqrtUnique(0, 0);
      return Ok(0), 0;
    }
    var first := CheckedAdd(x, 1);
    if first.Revert? {
      return Revert, 0;
    }
    var z := first.value / 2;
    var y: nat := x;
    ghost var root := FloorSqrt(x);
    NewtonStart(x);
    BitLengthMono(x - root, x);
    while z < y
      invariant 0 < root <= y <= x
      invariant z == NewtonStep(x, y)
      invariant steps + BitLength(y - root) <= BitLength(x)
      decreases y
    {
      NewtonProgress(x, y);
      y := z;
      var sum := CheckedAdd(x / z, z);
      assert sum.Ok? && sum.value / 2 == NewtonStep(x, z) by { NewtonComputed(x, z); }
      z := sum.value / 2;
      steps := steps + 1;
    }
    NewtonStops(x, y);
    return Ok(y), steps;
  }

  lemma NewtonStart(x: nat)
    requires 0 < x
    ensures 0 < FloorSqrt(x) <= x
    ensures NewtonStep(x, x) == (x + 1) / 2
  {
    FloorSqrtBounds(x);
    SquareCancel(FloorSqrt(x), x + 1);
    assert x / x == 1;
  }

  /** While the loop runs, the distance to the root loses at least one bit. */
  lemma NewtonProgress(x: nat, y: nat)
    requires 0 < FloorSqrt(x) <= y <= x
    requires NewtonStep(x, y) < y
    ensures FloorSqrt(x) <= NewtonStep(x, y)
    ensures 1 + BitLength(NewtonStep(x, y) - FloorSqrt(x)) <= BitLength(y - FloorSqrt(x))
  {
    var root := FloorSqrt(x);
    NewtonStaysAbove(x, y);
    NewtonHalves(x, y);
    BitLengthMono(NewtonStep(x, y) - root, (y - root) / 2);
  }

  /** The loop only stops at the root. */
  lemma NewtonStops(x: nat, y: nat)
    requires 0 < FloorSqrt(x) <= y
    requires y <= NewtonStep(x, y)
    ensures y == FloorSqrt(x)
  {
    if FloorSqrt(x) < y {
      NewtonHalves(x, y);
    }
  }

  /** The update computes a Newton step: its sum fits in 256 bits. */
  lemma NewtonComputed(x: nat, z: nat)
    requires 0 < z <= x < TWO_256 - 1
    ensures CheckedAdd(x / z, z).Ok?
    ensures CheckedAdd(x / z, z).value / 2 == NewtonStep(x, z)
  {
    var q := x / z;
    assert q * z <= x by { FloorBounds(x, z); }
    assert q + z <= x + 1 by { SumBelowProduct(q, z); }
  }

  lemma SumBelowProduct(q: nat, z: nat)
    requires 0 < z
    ensures q + z <= q * z + 1 || q == 0
  {
    if 0 < q {
      MulMono(1, z, q - 1);
    }
  }
}
