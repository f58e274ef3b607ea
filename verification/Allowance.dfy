/** The executor's approval protocol towards one spender, for one token. */
module Allowance {
  import opened Rounding

  /** The spender's allowance on chain, and the approve transactions sent so far. */
  datatype Account = Account(allowance: nat, sent: nat)

  /** How the node answers ApproveToken: the allowance read fails, the transaction
      is not sent, its receipt is lost, or it is mined with a status. */
  datatype ApproveReply = ReadFails | SendFails | ReceiptLost(mined: bool) | Mined(success: bool)

  /** How the node answers the transaction that spends the allowance. */
  datatype TxReply = NotSent | Lost(success: bool) | Done(success: bool)

  datatype Approved = Approved(account: Account, ok: bool)

  /** ApproveToken asks for twice the amount when the allowance is short; a mined
      approve counts as done whatever its status. */
  function Approve(a: Account, amount: nat, reply: ApproveReply): Approved {
    if reply.ReadFails? then Approved(a, false)
    else if a.allowance >= amount then Approved(a, true)
    else match reply
      case Mined(success) => Approved(Account(if success then 2 * amount else a.allowance, a.sent + 1), true)
      case ReceiptLost(mined) => Approved(Account(if mined then 2 * amount else a.allowance, a.sent + 1), false)
      case _ => Approved(a, false)
  }

  /** The token lets a transaction spend no more than the allowance. */
  function Spend(a: Account, amount: nat, success: bool): Account {
    if success && amount <= a.allowance then a.(allowance := a.allowance - amount) else a
  }

  datatype Swap = Swap(approve: ApproveReply, tx: TxReply)

  /** ExecuteSwap approves ten times its input and goes on even when that fails. */
  function SwapOnce(a: Account, amountIn: nat, swap: Swap): Approved {
    var ready := Approve(a, 10 * amountIn, swap.approve).account;
    match swap.tx
    case NotSent => Approved(ready, false)
    case Lost(success) => Approved(Spend(ready, amountIn, success), false)
    case Done(success) => Approved(Spend(ready, amountIn, success), success && amountIn <= ready.allowance)
  }

  /** AddLiquidity, for one of its two tokens: the mint pulls at most what it asked for. */
  datatype Mint = Mint(desired: nat, pulled: nat)

  function MintOnce(a: Account, mint: Mint): Account {
    Spend(Approve(a, mint.desired, Mined(true)).account, mint.pulled, true)
  }

  /** A whole AddLiquidity: both approvals, then one mint that needs both. */
  datatype Pair = Pair(account0: Account, account1: Account, ok: bool)

  function MintPair(a0: Account, a1: Account, mint0: Mint, mint1: Mint,
                    reply0: ApproveReply, reply1: ApproveReply, tx: TxReply): Pair {
    var ready0 := Approve(a0, mint0.desired, reply0);
    if !ready0.ok then Pair(ready0.account, a1, false)
    else
      var ready1 := Approve(a1, mint1.desired, reply1);
      if !ready1.ok || tx.NotSent? then Pair(ready0.account, ready1.account, false)
      else if tx.success && mint0.pulled <= ready0.account.allowance && mint1.pulled <= ready1.account.allowance then
        Pair(Spend(ready0.account, mint0.pulled, true), Spend(ready1.account, mint1.pulled, true), tx.Done?)
      else Pair(ready0.account, ready1.account, false)
  }

  /** When nothing fails, each token goes through its own approve and pull. */
  lemma MintPairSplits(a0: Account, a1: Account, mint0: Mint, mint1: Mint)
    requires mint0.pulled <= mint0.desired && mint1.pulled <= mint1.desired
    ensures MintPair(a0, a1, mint0, mint1, Mined(true), Mined(true), Done(true))
         == Pair(MintOnce(a0, mint0), MintOnce(a1, mint1), true)
  {
  }

  method AddLiquidity(token0: Approvals, token1: Approvals, mint0: Mint, mint1: Mint,
                      reply0: ApproveReply, reply1: ApproveReply, tx: TxReply) returns (ok: bool)
    requires token0 != token1
    modifies token0, token1
    ensures Pair(token0.State(), token1.State(), ok)
         == MintPair(old(token0.State()), old(token1.State()), mint0, mint1, reply0, reply1, tx)
  {
    var approved := token0.ApproveToken(mint0.desired, reply0);
    if !approved {
      return false;
    }
    approved := token1.ApproveToken(mint1.desired, reply1);
    if !approved || tx.NotSent? {
      return false;
    }
    if !tx.success || token0.allowance < mint0.pulled || token1.allowance < mint1.pulled {
      return false;
    }
    token0.allowance := token0.allowance - mint0.pulled;
    token1.allowance := token1.allowance - mint1.pulled;
    return tx.Done?;
  }

  /** The wallet's standing with a spender, updated by the executor's methods. */
  class Approvals {
    var allowance: nat
    var sent: nat

    function State(): Account
      reads this
    {
      Account(allowance, sent)
    }

    constructor (allowance: nat)
      ensures State() == Account(allowance, 0)
    {
      this.allowance, sent := allowance, 0;
    }

    method ApproveToken(amount: nat, reply: ApproveReply) returns (ok: bool)
      modifies this
      ensures Approved(State(), ok) == Approve(old(State()), amount, reply)
    {
      if reply.ReadFails? {
        return false;
      }
      if allowance >= amount {
        return true;
      }
      if reply.SendFails? {
        return false;
      }
      sent := sent + 1;
      if reply == ReceiptLost(true) || reply == Mined(true) {
        allowance := amount * 2;
      }
      return reply.Mined?;
    }

    method ExecuteSwap(amountIn: nat, swap: Swap) returns (ok: bool)
      modifies this
      ensures Approved(State(), ok) == SwapOnce(old(State()), amountIn, swap)
    {
      var maxAmount := amountIn * 10;
      var _ := ApproveToken(maxAmount, swap.approve);
      if swap.tx.NotSent? {
        return false;
      }
      var done := swap.tx.success && amountIn <= allowance;
      if done {
        allowance := allowance - amountIn;
      }
      return done && swap.tx.Done?;
    }
  }

  /** What an approval may do, whatever the node answers: it is sent exactly when the
      allowance was read and is short; only a mined success moves the allowance, to
      twice the amount, heard of or not; and it reports success when covered or mined. */
  lemma ApproveExact(a: Account, amount: nat, reply: ApproveReply)
    ensures var r := Approve(a, amount, reply);
            var short := a.allowance < amount && !reply.ReadFails?;
            && r.account.sent == a.sent + (if short && !reply.SendFails? then 1 else 0)
            && r.account.allowance ==
                 (if short && (reply == Mined(true) || reply == ReceiptLost(true)) then 2 * amount else a.allowance)
            && (r.ok <==> !reply.ReadFails? && (amount <= a.allowance || reply.Mined?))
  {
  }

  /** So a reported approval covers the amount except after a failed one, which a
      caller cannot tell; one reported as failed may yet cover it. */
  lemma ReportedApprovalCovers(a: Account, amount: nat, reply: ApproveReply)
    ensures var r := Approve(a, amount, reply);
            && (r.ok && r.account.allowance < amount <==> a.allowance < amount && reply == Mined(false))
            && (!r.ok && amount <= r.account.allowance <==>
                  (reply.ReadFails? && amount <= a.allowance) || (a.allowance < amount && reply == ReceiptLost(true)))
  {
  }

  /** A swap spends its input exactly when its transaction succeeds and the allowance
      it finds covers it, and reports that only when the receipt arrives. */
  lemma SwapSpendsIff(a: Account, amountIn: nat, swap: Swap)
    ensures var ready, r := Approve(a, 10 * amountIn, swap.approve).account, SwapOnce(a, amountIn, swap);
            var lands := !swap.tx.NotSent? && swap.tx.success && amountIn <= ready.allowance;
            && r.account.sent == ready.sent
            && r.account.allowance == ready.allowance - (if lands then amountIn else 0)
            && (r.ok <==> lands && swap.tx.Done?)
  {
  }

  /** A mint needs both approvals reported, in order, and both allowances; a failed
      first approval leaves the second token alone. */
  lemma MintPairIff(a0: Account, a1: Account, mint0: Mint, mint1: Mint,
                    reply0: ApproveReply, reply1: ApproveReply, tx: TxReply)
    ensures var ready0, ready1 := Approve(a0, mint0.desired, reply0), Approve(a1, mint1.desired, reply1);
            var r := MintPair(a0, a1, mint0, mint1, reply0, reply1, tx);
            var lands := ready0.ok && ready1.ok && !tx.NotSent? && tx.success
                         && mint0.pulled <= ready0.account.allowance && mint1.pulled <= ready1.account.allowance;
            && (r.ok <==> lands && tx.Done?)
            && r.account0.allowance == ready0.account.allowance - (if lands then mint0.pulled else 0)
            && r.account0.sent == ready0.account.sent
            && (!ready0.ok ==> r.account1 == a1)
            && (ready0.ok ==>
                  && r.account1.allowance == ready1.account.allowance - (if lands then mint1.pulled else 0)
                  && r.account1.sent == ready1.account.sent)
  {
  }

  /** With a successful approval every swap starts ten times covered. */
  lemma SwapStartsCovered(a: Account, amountIn: nat, swap: Swap)
    requires swap.approve == Mined(true)
    ensures 10 * amountIn <= Approve(a, 10 * amountIn, swap.approve).account.allowance
    ensures SwapOnce(a, amountIn, swap).ok <==> swap.tx == Done(true)
  {
  }

  /** The account after a run of swaps of one size. */
  function SwapRun(a: Account, amountIn: nat, swaps: seq<Swap>): Account
    decreases |swaps|
  {
    if swaps == [] then a else SwapRun(SwapOnce(a, amountIn, swaps[0]).account, amountIn, swaps[1..])
  }

  ghost predicate ApprovalsSucceed(swaps: seq<Swap>) {
    forall s | s in swaps :: s.approve == Mined(true)
  }

  /** ceil((n - k) / 11): the approvals n swaps need when k are covered already. */
  function ApprovalsNeeded(n: nat, k: nat): nat {
    if n <= k then 0 else (n - k + 10) / 11
  }

  /** One approval lasts eleven swaps. An allowance of at least (9 + k) inputs
      saves k swaps; failed swaps only save more. */
  lemma {:induction false} ApprovalsPerRun(a: Account, amountIn: nat, swaps: seq<Swap>, k: nat)
    requires 0 < amountIn && ApprovalsSucceed(swaps)
    requires k == 0 || (9 + k) * amountIn <= a.allowance
    ensures SwapRun(a, amountIn, swaps).sent <= a.sent + ApprovalsNeeded(|swaps|, k)
    decreases |swaps|
  {
    if swaps == [] {
    } else {
      var next := SwapOnce(a, amountIn, swaps[0]).account;
      if a.allowance < 10 * amountIn {
        assert k == 0 by { if 0 < k { MulMono(10, 9 + k, amountIn); } }
        ApprovalsPerRun(next, amountIn, swaps[1..], 10);
      } else {
        var k' := if k == 0 then 0 else k - 1;
        assert k' == 0 || (9 + k') * amountIn <= next.allowance by {
          assert (9 + k) * amountIn == (8 + k) * amountIn + amountIn;
        }
        ApprovalsPerRun(next, amountIn, swaps[1..], k');
      }
    }
  }

  /** Any run of n swaps of one size sends at most ceil(n / 11) approvals. */
  lemma AtMostOneApprovalInEleven(a: Account, amountIn: nat, swaps: seq<Swap>)
    requires 0 < amountIn && ApprovalsSucceed(swaps)
    ensures 11 * (SwapRun(a, amountIn, swaps).sent - a.sent) <= |swaps| + 10
  {
    ApprovalsPerRun(a, amountIn, swaps, 0);
  }

  /** When all swaps succeed the count is exact: k is how many swaps the starting
      allowance covers. */
  lemma {:induction false} ApprovalsExact(a: Account, amountIn: nat, swaps: seq<Swap>, k: nat)
    requires 0 < amountIn && ApprovalsSucceed(swaps) && (forall s | s in swaps :: s.tx == Done(true))
    requires k == 0 || (9 + k) * amountIn <= a.allowance
    requires a.allowance < (10 + k) * amountIn
    ensures SwapRun(a, amountIn, swaps).sent == a.sent + ApprovalsNeeded(|swaps|, k)
    decreases |swaps|
  {
    if swaps == [] {
    } else {
      var next := SwapOnce(a, amountIn, swaps[0]).account;
      if k == 0 {
        assert next.allowance == 19 * amountIn;
        ApprovalsExact(next, amountIn, swaps[1..], 10);
      } else {
        MulMono(10, 9 + k, amountIn);
        assert (9 + k) * amountIn == (9 + (k - 1)) * amountIn + amountIn;
        assert (10 + k) * amountIn == (10 + (k - 1)) * amountIn + amountIn;
        ApprovalsExact(next, amountIn, swaps[1..], k - 1);
      }
    }
  }

  /** The three tier mints in order. */
  function ThreeMints(a: Account, core: Mint, mid: Mint, tail: Mint): Account {
    MintOnce(MintOnce(MintOnce(a, core), mid), tail)
  }

  /** When the starting allowance covers core but not mid after it, and tail needs
      more than mid, two approvals can be needed. */
  predicate OneApprovalEnough(allowance: nat, core: nat, mid: nat, tail: nat) {
    allowance < core || core + mid <= allowance || tail <= mid
  }

  /** With core at least mid + tail, one approval per token is enough exactly then:
      for any amounts pulled, and not even for full pulls otherwise. */
  lemma ThreeMintsOneApproval(a: Account, core: Mint, mid: Mint, tail: Mint)
    requires mid.desired + tail.desired <= core.desired
    requires core.pulled <= core.desired && mid.pulled <= mid.desired && tail.pulled <= tail.desired
    ensures OneApprovalEnough(a.allowance, core.desired, mid.desired, tail.desired) ==>
              ThreeMints(a, core, mid, tail).sent <= a.sent + 1
    ensures core.pulled == core.desired && mid.pulled == mid.desired ==>
              (OneApprovalEnough(a.allowance, core.desired, mid.desired, tail.desired)
               <==> ThreeMints(a, core, mid, tail).sent <= a.sent + 1)
  {
    var afterCore := MintOnce(a, core);
    var afterMid := MintOnce(afterCore, mid);
    assert afterMid.sent <= a.sent + 2;
  }

  /** The failing case in numbers: two approvals for amounts 10, 1 and 9. */
  lemma TwoApprovals()
    ensures ThreeMints(Account(10, 0), Mint(10, 10), Mint(1, 1), Mint(9, 9)).sent == 2
  {
  }
}
