/** Powers, by what they multiply to. */
module Powers {

  function Power(b: nat, n: nat): nat {
    if n == 0 then 1 else b * Power(b, n - 1)
  }

  /** Exponents add up; with one factor for exponent one that fixes every power. */
  lemma {:induction false} PowerJoins(b: nat, m: nat, n: nat)
    ensures Power(b, 0) == 1 && Power(b, 1) == b
    ensures Power(b, m + n) == Power(b, m) * Power(b, n)
  {
    assert Power(b, 1) == b * Power(b, 0);
    if m == 0 {
    } else {
      PowerJoins(b, m - 1, n);
      assert b * (Power(b, m - 1) * Power(b, n)) == b * Power(b, m - 1) * Power(b, n);
    }
  }

  lemma {:induction false} PowerGrows(b: nat, m: nat, n: nat)
    requires 0 < b && m <= n
    ensures 0 < Power(b, m) <= Power(b, n)
    decreases n
  {
    if n == 0 {
    } else if m == n {
      PowerGrows(b, m - 1, n - 1);
      FactorGrows(b, Power(b, n - 1));
    } else {
      PowerGrows(b, m, n - 1);
      FactorGrows(b, Power(b, n - 1));
    }
  }

  lemma FactorGrows(b: nat, x: nat)
    requires 0 < b
    ensures x <= b * x
  {
  }

  lemma PowersOfTen()
    ensures Power(10, 6) == 1_000_000
    ensures Power(10, 18) == 1_000_000_000_000_000_000
  {
    assert Power(10, 2) == 100 && Power(10, 4) == 10_000;
    PowerJoins(10, 6, 6);
    PowerJoins(10, 12, 6);
  }

  lemma SeventySevenDecimals()
    ensures Power(10, 77)
          < 0x1_0000_0000_0000_0000_0000_0000_0000_0000_0000_0000_0000_0000_0000_0000_0000_0000
         <= Power(10, 78)
  {
    PowersOfTen();
    PowerJoins(10, 18, 18);
    PowerJoins(10, 36, 36);
    assert Power(10, 2) == 100 && Power(10, 4) == 10_000 && Power(10, 5) == 100_000;
    PowerJoins(10, 72, 5);
    PowerJoins(10, 72, 6);
  }

  /** 10 ** decimals fits 256 bits up to 77 decimals. */
  lemma DecimalsFitIff(d: nat)
    ensures Power(10, d) < 0x1_0000_0000_0000_0000_0000_0000_0000_0000_0000_0000_0000_0000_0000_0000_0000_0000
       <==> d <= 77
  {
    SeventySevenDecimals();
    if d <= 77 {
      PowerGrows(10, d, 77);
    } else {
      PowerGrows(10, 78, d);
    }
  }
}
