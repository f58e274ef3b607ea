/** The state machine of StabilizationVault, on values: every external call either
    gives the next state or reverts and leaves the old one. */
module VaultModel {
  import opened Evm
  import opened SwapMath
  import opened PriceConversion
  import opened PriceGuard
  import opened PoolModel
  import opened SwapQuote

  type Address = nat

  /** One pair token as the vault meets it: the recorded reserve, the vault's real
      balance and the owner's wallet. */
  datatype Holding = Holding(reserve: nat, balance: nat, wallet: nat)

  datatype VaultState = VaultState(
    owner: Address, holding0: Holding, holding1: Holding,
    circuitBreakerActive: bool, rebalanceThresholdBps: nat, targetPrice: Uint256)
  {
    function Of(token: Token): Holding {
      if token.Token0? then holding0 else holding1
    }
  }

  /** The router pulls `spent` from the approved amount, delivers `received` and
      reports `amountOut`; or the swap reverts. */
  datatype RouterReply = SwapFails | Swapped(spent: nat, received: nat, amountOut: nat)

  datatype Recipient = ZeroAddress | Vault | Owner | Stranger

  datatype Asset = PairToken(token: Token) | OtherToken

  /** Calls of the vault by `sender`, and a plain token transfer to it (Donate). */
  datatype Call =
    | Deposit(sender: Address, amount0: nat, amount1: nat, allowance0: nat, allowance1: nat)
    | Withdraw(sender: Address, amount0: nat, amount1: nat)
    | ExecuteArbitrage(sender: Address, pool: Pool, decimals0: nat, decimals1: nat, router: RouterReply)
    | TriggerCircuitBreaker(sender: Address)
    | ReleaseCircuitBreaker(sender: Address)
    | SetRebalanceThresholdBps(sender: Address, bps: nat)
    | SetTargetPrice(sender: Address, price: Uint256)
    | EmergencyWithdraw(sender: Address, asset: Asset, to: Recipient, amount: nat)
    | Donate(token: Token, amount: nat)

  ghost predicate ValidCall(call: Call) {
    call.ExecuteArbitrage? ==> WellFormed(call.pool)
  }

  /** safeTransferFrom(owner, vault) and the reserve's checked addition. */
  function TakeDeposit(h: Holding, amount: nat, allowance: nat): Outcome<Holding> {
    if 0 < amount && (h.wallet < amount || allowance < amount) then Revert
    else if TWO_256 <= h.reserve + amount then Revert
    else Ok(Holding(h.reserve + amount, h.balance + amount, h.wallet - amount))
  }

  /** The reserve check, its subtraction, and safeTransfer(owner). */
  function PayWithdrawal(h: Holding, amount: nat): Outcome<Holding> {
    if h.reserve < amount || h.balance < amount then Revert
    else Ok(Holding(h.reserve - amount, h.balance - amount, h.wallet + amount))
  }

  /** safeTransfer of any asset by the owner; the reserve is not touched. */
  function SendAway(h: Holding, to: Recipient, amount: nat): Outcome<Holding> {
    if h.balance < amount then Revert
    else match to
      case Vault => Ok(h)
      case Owner => Ok(h.(balance := h.balance - amount, wallet := h.wallet + amount))
      case _ => Ok(h.(balance := h.balance - amount))
  }

  /** After a swap both reserves are set to the real balances. */
  function Settle(h: Holding, balance: nat): Holding {
    h.(reserve := balance, balance := balance)
  }

  /** The token executeArbitrage sells. */
  function TokenSold(current: nat, target: nat): Token {
    if current > target then Token0 else Token1
  }

  /** The amount executeArbitrage sells when every check before the swap passes. */
  ghost function AmountToSell(s: VaultState, sender: Address, pool: Pool, decimals0: nat, decimals1: nat): Outcome<nat>
    requires WellFormed(pool)
  {
    if sender != s.owner || s.circuitBreakerActive || FloorPrice(pool.sqrtPriceX96).Revert? then Revert
    else
      var current := FloorPrice(pool.sqrtPriceX96).value;
      if !GuardPasses(current, s.targetPrice, s.rebalanceThresholdBps) then Revert
      else match SwapAmount(pool, s.targetPrice, decimals0, decimals1)
        case Revert => Revert
        case Ok(amountIn) =>
          if amountIn == 0 || s.Of(TokenSold(current, s.targetPrice)).balance < amountIn then Revert else Ok(amountIn)
  }

  /** Balances after the swap; the sold token never gives more than was approved. */
  function AfterSwap(s: VaultState, sold: Token, amountIn: nat, router: RouterReply): Outcome<VaultState> {
    match router
    case SwapFails => Revert
    case Swapped(spent, received, amountOut) =>
      if amountIn < spent || s.Of(sold).balance < spent || amountOut == 0 then Revert
      else if sold.Token0? then
        Ok(s.(holding0 := Settle(s.holding0, s.holding0.balance - spent),
              holding1 := Settle(s.holding1, s.holding1.balance + received)))
      else
        Ok(s.(holding0 := Settle(s.holding0, s.holding0.balance + received),
              holding1 := Settle(s.holding1, s.holding1.balance - spent)))
  }

  ghost function Step(s: VaultState, call: Call): Outcome<VaultState>
    requires ValidCall(call)
  {
    match call
    case Deposit(sender, amount0, amount1, allowance0, allowance1) =>
      var h0, h1 := TakeDeposit(s.holding0, amount0, allowance0), TakeDeposit(s.holding1, amount1, allowance1);
      if sender != s.owner || (amount0 == 0 && amount1 == 0) || h0.Revert? || h1.Revert? then Revert
      else Ok(s.(holding0 := h0.value, holding1 := h1.value))
    case Withdraw(sender, amount0, amount1) =>
      var h0, h1 := PayWithdrawal(s.holding0, amount0), PayWithdrawal(s.holding1, amount1);
      if sender != s.owner || (amount0 == 0 && amount1 == 0) || h0.Revert? || h1.Revert? then Revert
      else Ok(s.(holding0 := h0.value, holding1 := h1.value))
    case ExecuteArbitrage(sender, pool, decimals0, decimals1, router) =>
      (match AmountToSell(s, sender, pool, decimals0, decimals1)
       case Revert => Revert
       case Ok(amountIn) =>
         AfterSwap(s, TokenSold(FloorPrice(pool.sqrtPriceX96).value, s.targetPrice), amountIn, router))
    case TriggerCircuitBreaker(sender) =>
      if sender != s.owner then Revert else Ok(s.(circuitBreakerActive := true))
    case ReleaseCircuitBreaker(sender) =>
      if sender != s.owner then Revert else Ok(s.(circuitBreakerActive := false))
    case SetRebalanceThresholdBps(sender, bps) =>
      if sender != s.owner || 1000 < bps then Revert else Ok(s.(rebalanceThresholdBps := bps))
    case SetTargetPrice(sender, price) =>
      if sender != s.owner then Revert else Ok(s.(targetPrice := price))
    case EmergencyWithdraw(sender, asset, to, amount) =>
      if sender != s.owner || to.ZeroAddress? then Revert
      else (match asset
        case OtherToken => Ok(s)
        case PairToken(Token0) =>
          var h := SendAway(s.holding0, to, amount);
          if h.Revert? then Revert else Ok(s.(holding0 := h.value))
        case PairToken(Token1) =>
          var h := SendAway(s.holding1, to, amount);
          if h.Revert? then Revert else Ok(s.(holding1 := h.value)))
    case Donate(token, amount) =>
      if token.Token0? then Ok(s.(holding0 := s.holding0.(balance := s.holding0.balance + amount)))
      else Ok(s.(holding1 := s.holding1.(balance := s.holding1.balance + amount)))
  }

  /** A reverted call leaves the state alone. */
  ghost function Next(s: VaultState, call: Call): VaultState
    requires ValidCall(call)
  {
    match Step(s, call)
    case Ok(s') => s'
    case Revert => s
  }
}
