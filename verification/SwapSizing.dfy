/** The amount doStabilization sells, from the balance and the configured bounds. */
module SwapSizing {

  datatype SizeConfig = SizeConfig(swapAmountBps: int, minSwapAmount: real, maxSwapAmount: real, maxSlippageBps: int)

  const UNIT := 1_000_000.0

  /** Go's conversion of a float to an integer cuts towards zero. */
  function Trunc(x: real): int {
    if 0.0 <= x then x.Floor else -((-x).Floor)
  }

  /** The clamps in the code's order: at least the minimum, at most the maximum,
      at most what is available. */
  method ClampedSwap(cfg: SizeConfig, balance: nat) returns (swapVal: real)
    ensures swapVal == Clamped(cfg, balance)
  {
    var available := balance as real / UNIT;
    swapVal := available * cfg.swapAmountBps as real / 10000.0;
    if swapVal < cfg.minSwapAmount {
      swapVal := cfg.minSwapAmount;
    }
    if swapVal > cfg.maxSwapAmount {
      swapVal := cfg.maxSwapAmount;
    }
    if swapVal > available {
      swapVal := available;
    }
  }

  function MinReal(x: real, y: real): real { if x <= y then x else y }

  function MaxReal(x: real, y: real): real { if x <= y then y else x }

  function Clamped(cfg: SizeConfig, balance: nat): real {
    var available := balance as real / UNIT;
    var share := available * cfg.swapAmountBps as real / 10000.0;
    MinReal(MinReal(MaxReal(share, cfg.minSwapAmount), cfg.maxSwapAmount), available)
  }

  function AmountIn(cfg: SizeConfig, balance: nat): int {
    Trunc(Clamped(cfg, balance) * UNIT)
  }

  /** The least output accepted; Go's Div is Euclidean. */
  function AmountOutMin(cfg: SizeConfig, amountIn: int): int {
    amountIn * (10000 - cfg.maxSlippageBps) / 10000
  }

  /** A sale never exceeds the balance or the maximum, and falls below the minimum
      only when the maximum or the balance does. */
  lemma SizeBounds(cfg: SizeConfig, balance: nat)
    ensures AmountIn(cfg, balance) <= balance
    ensures 0 < AmountIn(cfg, balance) ==> AmountIn(cfg, balance) as real <= cfg.maxSwapAmount * UNIT
    ensures 0.0 <= cfg.minSwapAmount <= cfg.maxSwapAmount && cfg.minSwapAmount * UNIT <= balance as real ==>
              (cfg.minSwapAmount * UNIT).Floor <= AmountIn(cfg, balance)
  {
    var v := Clamped(cfg, balance) * UNIT;
    assert v <= balance as real && v <= cfg.maxSwapAmount * UNIT;
    assert Trunc(v) == if 0.0 <= v then v.Floor else -((-v).Floor);
    if v < 0.0 {
      assert 0.0 <= -v;
    }
  }

  /** The sale in base units, a million to the token, one case a clamp: the whole
      balance when that is less than the rest asks for, else the maximum when the
      share and the minimum exceed it, else the larger of share and minimum. */
  lemma SizeExact(cfg: SizeConfig, balance: nat)
    requires 0.0 <= cfg.minSwapAmount && 0.0 <= cfg.maxSwapAmount && 0 <= cfg.swapAmountBps
    ensures var share := (balance * cfg.swapAmountBps) as real / 10000.0;
            var least, most := cfg.minSwapAmount * 1_000_000.0, cfg.maxSwapAmount * 1_000_000.0;
            var asked := if share < least then least else share;
            var capped := if most < asked then most else asked;
            AmountIn(cfg, balance) == if balance as real <= capped then balance else capped.Floor
  {
    var available := balance as real / UNIT;
    var share := available * cfg.swapAmountBps as real / 10000.0;
    assert available * UNIT == balance as real;
    assert share * UNIT == (balance * cfg.swapAmountBps) as real / 10000.0 by {
      assert available * cfg.swapAmountBps as real * UNIT == balance as real * cfg.swapAmountBps as real;
    }
    var clamped := Clamped(cfg, balance) * UNIT;
    assert AmountIn(cfg, balance) == clamped.Floor;
  }

  /** Nothing is sold exactly when less than one base unit is left after the clamps. */
  lemma NothingToSell(cfg: SizeConfig, balance: nat)
    ensures AmountIn(cfg, balance) <= 0 <==> Clamped(cfg, balance) * UNIT < 1.0
  {
    var v := Clamped(cfg, balance) * UNIT;
    if v < 0.0 {
      assert 0 <= (-v).Floor;
    }
  }

  /** The slippage bound concedes at most the configured share, rounded down once. */
  lemma SlippageBound(cfg: SizeConfig, amountIn: nat)
    requires 0 <= cfg.maxSlippageBps <= 10000
    ensures 0 <= AmountOutMin(cfg, amountIn) <= amountIn
    ensures AmountOutMin(cfg, amountIn) * 10000 <= amountIn * (10000 - cfg.maxSlippageBps)
              < AmountOutMin(cfg, amountIn) * 10000 + 10000
  {
    var kept := 10000 - cfg.maxSlippageBps;
    assert 0 <= amountIn * kept <= amountIn * 10000;
  }
}
