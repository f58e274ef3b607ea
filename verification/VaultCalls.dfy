/** When each of the owner's calls goes through, and what it moves. */
module VaultCalls {
  import opened Evm
  import opened SwapMath
  import opened VaultModel

  /** Nothing but the two holdings differs. */
  ghost predicate OnlyHoldings(s: VaultState, s': VaultState) {
    s' == s.(holding0 := s'.holding0, holding1 := s'.holding1)
  }

  /** `amount` went from the owner's wallet to the vault and into its reserve. */
  predicate TakenIn(h: Holding, h': Holding, amount: nat) {
    h'.wallet + amount == h.wallet && h'.balance == h.balance + amount && h'.reserve == h.reserve + amount
  }

  predicate Payable(h: Holding, amount: nat, allowance: nat) {
    (amount != 0 ==> amount <= h.wallet && amount <= allowance) && h.reserve + amount < TWO_256
  }

  /** A deposit needs the owner, something to deposit, and of each token deposited
      both the wallet and its own allowance. */
  lemma DepositIff(s: VaultState, sender: Address, amount0: nat, amount1: nat, allowance0: nat, allowance1: nat)
    ensures var next := Step(s, Deposit(sender, amount0, amount1, allowance0, allowance1));
            && (next.Ok? <==>
                  && sender == s.owner && 0 < amount0 + amount1
                  && Payable(s.holding0, amount0, allowance0) && Payable(s.holding1, amount1, allowance1))
            && (next.Ok? ==>
                  && OnlyHoldings(s, next.value)
                  && TakenIn(s.holding0, next.value.holding0, amount0)
                  && TakenIn(s.holding1, next.value.holding1, amount1))
  {
  }

  /** A withdrawal is such a transfer backwards; it needs the owner, something to
      withdraw, and of each token the recorded reserve and the real balance. */
  lemma WithdrawIff(s: VaultState, sender: Address, amount0: nat, amount1: nat)
    ensures var next := Step(s, Withdraw(sender, amount0, amount1));
            && (next.Ok? <==>
                  && sender == s.owner && 0 < amount0 + amount1
                  && amount0 <= s.holding0.reserve && amount0 <= s.holding0.balance
                  && amount1 <= s.holding1.reserve && amount1 <= s.holding1.balance)
            && (next.Ok? ==>
                  && OnlyHoldings(s, next.value)
                  && TakenIn(next.value.holding0, s.holding0, amount0)
                  && TakenIn(next.value.holding1, s.holding1, amount1))
  {
  }

  /** An emergency withdrawal needs the owner, a recipient and the real balance. It
      takes the token named and no other from the vault, gives it to the owner or to
      a stranger, and leaves both reserves. */
  lemma EmergencyWithdrawIff(s: VaultState, sender: Address, token: Token, to: Recipient, amount: nat)
    ensures var next := Step(s, EmergencyWithdraw(sender, PairToken(token), to, amount));
            && (next.Ok? <==> sender == s.owner && to != ZeroAddress && amount <= s.Of(token).balance)
            && (next.Ok? ==>
                  && OnlyHoldings(s, next.value)
                  && (if token.Token0? then next.value.holding1 == s.holding1 else next.value.holding0 == s.holding0)
                  && var h, h' := s.Of(token), next.value.Of(token);
                  && h'.reserve == h.reserve
                  && h'.balance + (if to == Recipient.Vault then 0 else amount) == h.balance
                  && h'.wallet == h.wallet + (if to == Owner then amount else 0))
  {
    match token
    case Token0 =>
    case Token1 =>
  }

  /** Any other token leaves nothing of the vault's books behind it. */
  lemma OtherTokensAreFree(s: VaultState, sender: Address, to: Recipient, amount: nat)
    ensures Step(s, EmergencyWithdraw(sender, OtherToken, to, amount))
         == if sender == s.owner && to != ZeroAddress then Ok(s) else Revert
  {
  }

  /** The four setters: the owner alone, one field each, and only the threshold bounded. */
  lemma SettersIff(s: VaultState, sender: Address, bps: nat, price: Uint256)
    ensures Step(s, TriggerCircuitBreaker(sender))
         == if sender == s.owner then Ok(s.(circuitBreakerActive := true)) else Revert
    ensures Step(s, ReleaseCircuitBreaker(sender))
         == if sender == s.owner then Ok(s.(circuitBreakerActive := false)) else Revert
    ensures Step(s, SetRebalanceThresholdBps(sender, bps))
         == if sender == s.owner && bps <= 1000 then Ok(s.(rebalanceThresholdBps := bps)) else Revert
    ensures Step(s, SetTargetPrice(sender, price)) == if sender == s.owner then Ok(s.(targetPrice := price)) else Revert
  {
  }
}
