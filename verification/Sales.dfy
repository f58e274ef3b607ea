/** Reported-successful stabilization swaps, in the order they happened. */
module Sales {
  import opened Rounding

  /** The two prices the update loop stores. */
  datatype Prices = Prices(current: real, twap: real)

  /** One swap: when it was reported, what it sold, the prices its call read when it
      decided to rebalance and when it decided to stabilize, and the stretch from..to
      of the risk engine's history that the call wrote. */
  datatype Sale = Sale(
    at: int, sellsToken0: bool, amountIn: nat, decided: Prices, stabilized: Prices, from: nat, to: nat)

  ghost predicate Spaced(sales: seq<Sale>, gap: int) {
    forall i :: 0 < i < |sales| ==> gap <= sales[i].at - sales[i - 1].at
  }

  /** Number of sales in [from, to], and what they sold together. */
  ghost function CountIn(sales: seq<Sale>, from: int, to: int): nat {
    if sales == [] then 0
    else
      var last := |sales| - 1;
      CountIn(sales[..last], from, to) + if from <= sales[last].at <= to then 1 else 0
  }

  ghost function SoldIn(sales: seq<Sale>, from: int, to: int): nat {
    if sales == [] then 0
    else
      var last := |sales| - 1;
      SoldIn(sales[..last], from, to) + if from <= sales[last].at <= to then sales[last].amountIn else 0
  }

  /** The count is the number of sales whose time lies in the window. */
  lemma {:induction false} CountIsCardinality(sales: seq<Sale>, from: int, to: int)
    ensures CountIn(sales, from, to) == |set i | 0 <= i < |sales| && from <= sales[i].at <= to|
  {
    if sales == [] {
    } else {
      var last := |sales| - 1;
      var before := sales[..last];
      CountIsCardinality(before, from, to);
      var earlier := set i | 0 <= i < |before| && from <= before[i].at <= to;
      var all := set i | 0 <= i < |sales| && from <= sales[i].at <= to;
      if from <= sales[last].at <= to {
        assert all == earlier + {last};
      } else {
        assert all == earlier;
      }
    }
  }

  /** Each sale in the window adds its amount to what was sold. */
  lemma SoldAdds(sales: seq<Sale>, s: Sale, from: int, to: int)
    ensures SoldIn([], from, to) == 0
    ensures SoldIn(sales + [s], from, to) == SoldIn(sales, from, to) + (if from <= s.at <= to then s.amountIn else 0)
  {
    assert (sales + [s])[..|sales|] == sales;
  }

  /** The k-th sale of a window comes at least k gaps after its start. */
  lemma {:induction false} CountedSalesAdvance(sales: seq<Sale>, gap: int, from: int, to: int)
    requires 0 < gap && Spaced(sales, gap) && from <= to
    ensures var n := CountIn(sales, from, to);
            0 < n ==> from + (n - 1) * gap <= Min(to, sales[|sales| - 1].at)
  {
    if sales == [] {
    } else {
      var last := |sales| - 1;
      var before := sales[..last];
      assert Spaced(before, gap);
      CountedSalesAdvance(before, gap, from, to);
      var n := CountIn(before, from, to);
      if 0 < n {
        assert before[last - 1] == sales[last - 1];
        assert n * gap == (n - 1) * gap + gap;
      }
    }
  }

  /** Any window of length w holds at most 1 + w / gap sales. */
  lemma SalesPerWindow(sales: seq<Sale>, gap: int, from: int, w: nat)
    requires 0 < gap && Spaced(sales, gap)
    ensures CountIn(sales, from, from + w) <= 1 + w / gap
  {
    var n := CountIn(sales, from, from + w);
    CountedSalesAdvance(sales, gap, from, from + w);
    if 0 < n {
      var q := w / gap;
      assert w < (q + 1) * gap by { FloorBounds(w, gap); }
      MulCancelLess(n - 1, q + 1, gap);
    }
  }

  lemma {:induction false} SoldIsCapped(sales: seq<Sale>, cap: nat, from: int, to: int)
    requires forall s | s in sales :: s.amountIn <= cap
    ensures SoldIn(sales, from, to) <= CountIn(sales, from, to) * cap
  {
    if sales == [] {
    } else {
      var last := |sales| - 1;
      SoldIsCapped(sales[..last], cap, from, to);
    }
  }

  /** So a window sells at most that many times the largest swap. */
  lemma SoldPerWindow(sales: seq<Sale>, gap: int, cap: nat, from: int, w: nat)
    requires 0 < gap && Spaced(sales, gap) && (forall s | s in sales :: s.amountIn <= cap)
    ensures SoldIn(sales, from, from + w) <= (1 + w / gap) * cap
  {
    var n, m := CountIn(sales, from, from + w), 1 + w / gap;
    SalesPerWindow(sales, gap, from, w);
    SoldIsCapped(sales, cap, from, from + w);
    MulMono(n, m, cap);
  }

  /** A swap that happened on chain, and whether the bot was told so. */
  datatype Landing = Landing(at: int, sellsToken0: bool, amountIn: nat, reported: bool)

  ghost function AsLanding(s: Sale): Landing {
    Landing(s.at, s.sellsToken0, s.amountIn, true)
  }

  ghost function AsLandings(sales: seq<Sale>): seq<Landing> {
    seq(|sales|, i requires 0 <= i < |sales| => AsLanding(sales[i]))
  }

  ghost function Reported(landed: seq<Landing>): seq<Landing> {
    if landed == [] then []
    else (if landed[0].reported then [landed[0]] else []) + Reported(landed[1..])
  }

  lemma {:induction false} ReportedJoins(a: seq<Landing>, b: seq<Landing>)
    ensures Reported(a + b) == Reported(a) + Reported(b)
  {
    if a == [] {
      assert a + b == b;
    } else {
      ReportedJoins(a[1..], b);
      assert (a + b)[1..] == a[1..] + b;
    }
  }

  lemma {:induction false} AllReportedIff(landed: seq<Landing>)
    ensures |Reported(landed)| <= |landed|
    ensures (forall l | l in landed :: l.reported) <==> Reported(landed) == landed
  {
    if landed == [] {
    } else {
      AllReportedIff(landed[1..]);
      assert landed == [landed[0]] + landed[1..];
    }
  }

  ghost predicate LandingsSpaced(landed: seq<Landing>, gap: int) {
    forall i :: 0 < i < |landed| ==> gap <= landed[i].at - landed[i - 1].at
  }

  /** Where the reported swaps are the sales, the swaps on chain are the sales, as
      far apart as those, exactly when no report was lost. */
  lemma ChainAgreesIff(landed: seq<Landing>, sales: seq<Sale>, gap: int)
    requires Reported(landed) == AsLandings(sales) && Spaced(sales, gap)
    ensures landed == AsLandings(sales) <==> forall l | l in landed :: l.reported
    ensures (forall l | l in landed :: l.reported) ==> LandingsSpaced(landed, gap)
  {
    AllReportedIff(landed);
  }
}
