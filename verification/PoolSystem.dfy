/** Whole runs of the pool: any interleaving of entrypoints, admin changes and outside events. */
module PoolSystem {
  import opened Wrappers
  import opened NoteTrees
  import opened Notes
  import opened Tokens
  import opened PoolSpec
  import opened PoolConservation
  import opened PoolBatch
  import opened PoolBacking
  import Positional

  const DEFAULT_MIN_SHIELD_AMOUNT: int := 1_000

  /**
    One event. `auth` is who authorized the call; `Outside` is any token activity that takes
    nothing from the pool's balances, and `Clawback` is an issuer taking some of them.
  */
  datatype Op =
    | DoShield(auth: set<Address>, payer: Address, asset: Address, item: ShieldItem)
    | DoShieldBatch(auth: set<Address>, payer: Address, asset: Address, items: seq<ShieldItem>)
    | DoTransfer(auth: set<Address>, call: TransferCall)
    | DoTransfer4(auth: set<Address>, call: TransferCall)
    | DoUnshield(withdrawal: UnshieldCall)
    | SetPaused(paused: bool)
    | SetMinShieldAmount(minimum: int)
    | SetAssetApproved(asset: Address, approved: bool)
    | SetRelayer(relayer: Address, approved: bool)
    | Outside(bank: Bank)
    | Clawback(asset: Address, taken: nat)

  function Init(self: Address, bank: Bank): Pool {
    Pool(self, false, DEFAULT_MIN_SHIELD_AMOUNT, {}, {}, Log([], []), {}, {}, map[], bank, {})
  }

  /** The host never lets the pool contract authorize a call on its own behalf. */
  predicate HostAllows(self: Address, op: Op) {
    (op.DoShield? || op.DoShieldBatch? || op.DoTransfer? || op.DoTransfer4?) ==> self !in op.auth
  }

  ghost predicate TakesNothing(s: Pool, bank: Bank) {
    forall a :: BalanceOf(s.bank, a, s.self) <= BalanceOf(bank, a, s.self)
  }

  /** One event; a failed call changes nothing. */
  ghost function Step(s: Pool, op: Op): Pool
    requires s.log.Valid()
  {
    match op
    case DoShield(auth, payer, asset, item) =>
      var r := Shield(s, auth, payer, asset, item);
      if r.Ok? then r.value.0 else s
    case DoShieldBatch(auth, payer, asset, items) =>
      var r := ShieldBatch(s, auth, payer, asset, items);
      if r.Ok? then r.value.0 else s
    case DoTransfer(auth, call) =>
      var r := Transfer(s, auth, 2, call);
      if r.Ok? then r.value.0 else s
    case DoTransfer4(auth, call) =>
      var r := Transfer(s, auth, 4, call);
      if r.Ok? then r.value.0 else s
    case DoUnshield(call) =>
      var r := Unshield(s, call);
      if r.Ok? then r.value.0 else s
    case SetPaused(b) => s.(paused := b)
    case SetMinShieldAmount(amount) => if amount > 0 then s.(minShield := amount) else s
    case SetAssetApproved(asset, on) => s.(approved := Toggle(s.approved, asset, on))
    case SetRelayer(relayer, on) => s.(relayers := Toggle(s.relayers, relayer, on))
    case Outside(bank) => if TakesNothing(s, bank) then s.(bank := bank) else s
    case Clawback(asset, amount) =>
      if amount <= s.Balance(asset) then s.(bank := s.bank[(asset, s.self) := s.Balance(asset) - amount]) else s
  }

  lemma StepKeepsSelf(s: Pool, op: Op)
    requires s.log.Valid()
    ensures Step(s, op).self == s.self
  {
  }

  lemma StepKeepsInv(s: Pool, op: Op)
    requires Inv(s) && HostAllows(s.self, op)
    ensures Inv(Step(s, op)) && Step(s, op).self == s.self
  {
    match op
    case DoShield(auth, payer, asset, item) =>
      if Shield(s, auth, payer, asset, item).Ok? { ShieldKeepsInv(s, auth, payer, asset, item); }
    case DoShieldBatch(auth, payer, asset, items) =>
      if ShieldBatch(s, auth, payer, asset, items).Ok? { ShieldBatchKeepsInv(s, auth, payer, asset, items); }
    case DoTransfer(auth, call) =>
      if Transfer(s, auth, 2, call).Ok? { TransferKeepsInv(s, auth, 2, call); }
    case DoTransfer4(auth, call) =>
      if Transfer(s, auth, 4, call).Ok? { TransferKeepsInv(s, auth, 4, call); }
    case DoUnshield(call) =>
      if Unshield(s, call).Ok? { UnshieldKeepsInv(s, call); }
    case _ =>
      InvIgnoresTheRest(s, Step(s, op));
  }

  /** Settings and balances are not part of the invariant. */
  lemma InvIgnoresTheRest(s: Pool, s': Pool)
    requires Inv(s)
    requires s' == s.(paused := s'.paused, minShield := s'.minShield, approved := s'.approved,
                      relayers := s'.relayers, bank := s'.bank)
    ensures Inv(s')
  {
    forall a
      ensures SupplyMatches(s', a)
    {
      assert SupplyMatches(s, a);
    }
  }

  lemma InitInv(self: Address, bank: Bank)
    ensures Inv(Init(self, bank))
  {
    var s := Init(self, bank);
    assert s.seen == SeqSet(s.log.leaves);
    assert forall a :: SupplyMatches(s, a);
  }

  ghost function Run(s: Pool, ops: seq<Op>): Pool
    requires Inv(s) && forall i :: 0 <= i < |ops| ==> HostAllows(s.self, ops[i])
    ensures Inv(Run(s, ops)) && Run(s, ops).self == s.self
    decreases |ops|
  {
    if ops == [] then s
    else
      StepKeepsInv(s, ops[0]);
      Run(Step(s, ops[0]), ops[1..])
  }

  /**
    Conservation in every reachable state: from an empty pool, after any run, each asset's recorded
    supply is the total value of its unconsumed notes.
  */
  lemma ReachableStatesConserve(self: Address, bank: Bank, ops: seq<Op>, asset: Address)
    requires forall i :: 0 <= i < |ops| ==> HostAllows(self, ops[i])
    ensures Inv(Init(self, bank))
    ensures var s := Run(Init(self, bank), ops);
            s.Supply(asset) == Unspent(s.log.leaves, s.consumed, asset)
  {
    InitInv(self, bank);
    assert SupplyMatches(Run(Init(self, bank), ops), asset);
  }

  // ----- no leaf is consumed twice

  /** The leaf indices an event's accepted spends use. */
  ghost function Consumption(s: Pool, op: Op): seq<nat>
    requires s.log.Valid()
  {
    match op
    case DoTransfer(auth, call) =>
      if Transfer(s, auth, 2, call).Ok? then InputIndices(call.proof.knowledge.inputs) else []
    case DoTransfer4(auth, call) =>
      if Transfer(s, auth, 4, call).Ok? then InputIndices(call.proof.knowledge.inputs) else []
    case DoUnshield(call) =>
      if Unshield(s, call).Ok? then [call.proof.knowledge.spend.index] else []
    case _ => []
  }

  /** All of a run's consumption, in order. */
  ghost function ConsumptionLog(s: Pool, ops: seq<Op>): seq<nat>
    requires Inv(s) && forall i :: 0 <= i < |ops| ==> HostAllows(s.self, ops[i])
    decreases |ops|
  {
    if ops == [] then []
    else
      StepKeepsInv(s, ops[0]);
      Consumption(s, ops[0]) + ConsumptionLog(Step(s, ops[0]), ops[1..])
  }

  lemma TransferConsumes(s: Pool, auth: set<Address>, n: nat, c: TransferCall)
    requires Inv(s) && Transfer(s, auth, n, c).Ok?
    ensures var used := InputIndices(c.proof.knowledge.inputs);
            && Distinct(used) && Disjoint(used, s.consumed)
            && Transfer(s, auth, n, c).value.0.consumed == s.consumed + SeqSet(used)
  {
    InputsAreFresh(s, n, c);
  }

  lemma UnshieldConsumes(s: Pool, c: UnshieldCall)
    requires Inv(s) && Unshield(s, c).Ok?
    ensures var used := [c.proof.knowledge.spend.index];
            && Distinct(used) && Disjoint(used, s.consumed)
            && Unshield(s, c).value.0.consumed == s.consumed + SeqSet(used)
  {
    var t := c.proof.knowledge;
    SpendIsFresh(s, c.pub.anchor, t.nk, c.nullifier, c.pub.pubAsset, t.spend);
    assert SeqSet([t.spend.index]) == {t.spend.index};
  }

  lemma ConsumptionIsFresh(s: Pool, op: Op)
    requires Inv(s) && HostAllows(s.self, op)
    ensures Distinct(Consumption(s, op)) && Disjoint(Consumption(s, op), s.consumed)
    ensures Step(s, op).consumed == s.consumed + SeqSet(Consumption(s, op))
  {
    match op
    case DoTransfer(auth, call) =>
      if Transfer(s, auth, 2, call).Ok? { TransferConsumes(s, auth, 2, call); }
    case DoTransfer4(auth, call) =>
      if Transfer(s, auth, 4, call).Ok? { TransferConsumes(s, auth, 4, call); }
    case DoUnshield(call) =>
      if Unshield(s, call).Ok? { UnshieldConsumes(s, call); }
    case _ =>
  }

  /** Over a whole run the consumed leaf indices are pairwise different, and new to the run. */
  lemma {:induction false} NoLeafConsumedTwice(s: Pool, ops: seq<Op>)
    requires Inv(s) && forall i :: 0 <= i < |ops| ==> HostAllows(s.self, ops[i])
    ensures Distinct(ConsumptionLog(s, ops)) && Disjoint(ConsumptionLog(s, ops), s.consumed)
    ensures Run(s, ops).consumed == s.consumed + SeqSet(ConsumptionLog(s, ops))
    decreases |ops|
  {
    if ops != [] {
      StepKeepsInv(s, ops[0]);
      var s', now := Step(s, ops[0]), Consumption(s, ops[0]);
      ConsumptionIsFresh(s, ops[0]);
      NoLeafConsumedTwice(s', ops[1..]);
      DistinctAppend(now, ConsumptionLog(s', ops[1..]));
    }
  }

  // ----- an accepted proof is never refused for lack of supply

  /** The supply checks of `unshield` and of the relayer fee can only guard, never refuse. */
  lemma AcceptedUnshieldIsCovered(s: Pool, c: UnshieldCall)
    requires Inv(s) && CheckUnshield(s, c).Pass?
    ensures c.pub.pubValue <= s.Supply(c.pub.pubAsset)
    ensures Unshield(s, c).Ok?
  {
    var t := c.proof.knowledge;
    SpendIsFresh(s, c.pub.anchor, t.nk, c.nullifier, c.pub.pubAsset, t.spend);
    UnshieldBalances(c.pub, t);
    CommitmentBinds(t.spend.note);
    UnspentConsume(s.log.leaves, s.consumed, t.spend.index, c.pub.pubAsset);
    assert SupplyMatches(s, c.pub.pubAsset);
    PayoutIsFair(c.pub.pubValue, s.Balance(c.pub.pubAsset), s.Supply(c.pub.pubAsset));
  }

  lemma AcceptedTransferIsCovered(s: Pool, auth: set<Address>, n: nat, c: TransferCall)
    requires Inv(s) && 1 <= n <= MAX_INSERT_BATCH && CheckTransfer(s, auth, n, c).Pass?
    ensures c.pub.fee <= s.Supply(c.pub.asset)
    ensures Transfer(s, auth, n, c).Ok?
  {
    var t := c.proof.knowledge;
    InputsAreFresh(s, n, c);
    TransferBalances(n, c.pub, t);
    UnspentConsumeInputs(s.log.leaves, s.consumed, t.inputs, c.pub.asset, c.pub.asset);
    assert SupplyMatches(s, c.pub.asset);
  }

  // ----- backing

  function BackingOf(s: Pool, asset: Address): real {
    Backing(s.Balance(asset), s.Supply(asset))
  }

  lemma DepositKeepsBacking(balance: nat, supply: nat, amount: nat)
    ensures Backing(balance, supply) <= Backing(balance + amount, supply + amount)
  {
    if balance < supply {
      assert balance * (supply + amount) <= (balance + amount) * supply by {
        assert (balance + amount) * supply == balance * supply + amount * supply;
        assert balance * (supply + amount) == balance * supply + balance * amount;
        Positional.MulLe(balance, supply, amount);
      }
      BackingLe(balance, supply, balance + amount, supply + amount);
    }
  }

  lemma MoreBalanceKeepsBacking(balance: nat, supply: nat, more: nat)
    ensures Backing(balance, supply) <= Backing(balance + more, supply)
  {
    if balance < supply {
      Positional.MulLe(balance, balance + more, supply);
      BackingLe(balance, supply, balance + more, supply);
    }
  }

  /** Withdrawing may pay the pool itself; then its balance does not even drop. */
  lemma UnshieldKeepsBacking(s: Pool, c: UnshieldCall, asset: Address)
    requires Inv(s) && Unshield(s, c).Ok?
    ensures BackingOf(s, asset) <= BackingOf(Unshield(s, c).value.0, asset)
  {
    var s' := Unshield(s, c).value.0;
    var a := c.pub.pubAsset;
    var p := Payout(c.pub.pubValue, s.Balance(a), s.Supply(a));
    PayMoves(s.bank, a, s.self, c.payee, p, asset, s.self);
    if asset == a {
      PayoutIsFair(c.pub.pubValue, s.Balance(a), s.Supply(a));
      if c.payee == s.self {
        MoreBalanceKeepsBacking(s.Balance(a) - p, s'.Supply(a), p);
      }
    }
  }

  lemma TransferKeepsBacking(s: Pool, auth: set<Address>, n: nat, c: TransferCall, asset: Address)
    requires Inv(s) && Transfer(s, auth, n, c).Ok?
    ensures BackingOf(s, asset) <= BackingOf(Transfer(s, auth, n, c).value.0, asset)
  {
    if c.pub.fee > 0 {
      PayMoves(s.bank, c.pub.asset, s.self, c.relayer.value, c.pub.fee, asset, s.self);
    }
  }

  lemma ShieldKeepsBacking(s: Pool, auth: set<Address>, payer: Address, a: Address, item: ShieldItem, asset: Address)
    requires s.self !in auth && Shield(s, auth, payer, a, item).Ok?
    ensures BackingOf(s, asset) <= BackingOf(Shield(s, auth, payer, a, item).value.0, asset)
  {
    PayMoves(s.bank, a, payer, s.self, item.amount, asset, s.self);
    DepositKeepsBacking(s.Balance(asset), s.Supply(asset), item.amount);
  }

  lemma ShieldBatchKeepsBacking(
      s: Pool, auth: set<Address>, payer: Address, a: Address, items: seq<ShieldItem>, asset: Address)
    requires s.self !in auth && ShieldBatch(s, auth, payer, a, items).Ok?
    ensures BackingOf(s, asset) <= BackingOf(ShieldBatch(s, auth, payer, a, items).value.0, asset)
  {
    ShieldBatchResult(s, auth, payer, a, items);
    PayMoves(s.bank, a, payer, s.self, Total(items), asset, s.self);
    DepositKeepsBacking(s.Balance(asset), s.Supply(asset), Total(items));
  }

  /** No pool entrypoint, and nothing outside but a clawback, lowers min(1, balance / supply). */
  lemma StepKeepsBacking(s: Pool, op: Op, asset: Address)
    requires Inv(s) && HostAllows(s.self, op) && !op.Clawback?
    ensures BackingOf(s, asset) <= BackingOf(Step(s, op), asset)
  {
    match op
    case DoShield(auth, payer, a, item) =>
      if Shield(s, auth, payer, a, item).Ok? { ShieldKeepsBacking(s, auth, payer, a, item, asset); }
    case DoShieldBatch(auth, payer, a, items) =>
      if ShieldBatch(s, auth, payer, a, items).Ok? { ShieldBatchKeepsBacking(s, auth, payer, a, items, asset); }
    case DoTransfer(auth, call) =>
      if Transfer(s, auth, 2, call).Ok? { TransferKeepsBacking(s, auth, 2, call, asset); }
    case DoTransfer4(auth, call) =>
      if Transfer(s, auth, 4, call).Ok? { TransferKeepsBacking(s, auth, 4, call, asset); }
    case DoUnshield(call) =>
      if Unshield(s, call).Ok? { UnshieldKeepsBacking(s, call, asset); }
    case Outside(bank) =>
      if TakesNothing(s, bank) {
        MoreBalanceKeepsBacking(s.Balance(asset), s.Supply(asset),
                                BalanceOf(bank, asset, s.self) - s.Balance(asset));
      }
    case _ =>
  }

  lemma {:induction false} RunKeepsBacking(s: Pool, ops: seq<Op>, asset: Address)
    requires Inv(s) && forall i :: 0 <= i < |ops| ==> HostAllows(s.self, ops[i]) && !ops[i].Clawback?
    ensures BackingOf(s, asset) <= BackingOf(Run(s, ops), asset)
    decreases |ops|
  {
    if ops != [] {
      StepKeepsInv(s, ops[0]);
      StepKeepsBacking(s, ops[0], asset);
      RunKeepsBacking(Step(s, ops[0]), ops[1..], asset);
    }
  }

  /** Without clawbacks every reachable state is fully backed. */
  lemma ReachableStatesAreBacked(self: Address, bank: Bank, ops: seq<Op>, asset: Address)
    requires forall i :: 0 <= i < |ops| ==> HostAllows(self, ops[i]) && !ops[i].Clawback?
    ensures Inv(Init(self, bank))
    ensures var s := Run(Init(self, bank), ops); s.Balance(asset) >= s.Supply(asset)
  {
    InitInv(self, bank);
    var s := Run(Init(self, bank), ops);
    RunKeepsBacking(Init(self, bank), ops, asset);
    if s.Balance(asset) < s.Supply(asset) {
      DivisionLt(s.Balance(asset) as real, s.Supply(asset) as real);
    }
  }

  lemma DivisionLt(x: real, y: real)
    requires 0.0 <= x < y
    ensures x / y < 1.0
  {
  }

  // ----- runs of withdrawals

  /** One accepted withdrawal of `asset`. */
  ghost predicate Withdrawal(s: Pool, asset: Address, c: UnshieldCall, s': Pool) {
    Inv(s) && c.pub.pubAsset == asset && Unshield(s, c).Ok? && s' == Unshield(s, c).value.0
  }

  /** The successive states of a run of withdrawals. */
  ghost predicate Withdrawals(states: seq<Pool>, asset: Address, calls: seq<UnshieldCall>) {
    && |states| == |calls| + 1
    && (forall i :: 0 <= i < |calls| ==> Withdrawal(states[i], asset, calls[i], states[i + 1]))
  }

  function ValueOf(c: UnshieldCall): nat {
    if c.pub.pubValue < 0 then 0 else c.pub.pubValue
  }

  /** What a withdrawal is paid; paying the pool itself moves nothing. */
  lemma WithdrawalPays(s: Pool, asset: Address, c: UnshieldCall, s': Pool)
    requires Withdrawal(s, asset, c, s')
    ensures var p := Payout(ValueOf(c), s.Balance(asset), s.Supply(asset));
            && s'.self == s.self
            && Withdraws(s.Balance(asset), s.Supply(asset), Payment(ValueOf(c), c.payee == s.self),
                         s'.Balance(asset), s'.Supply(asset))
            && (c.payee != s.self ==>
                  BalanceOf(s'.bank, asset, c.payee) == BalanceOf(s.bank, asset, c.payee) + p)
  {
    var p := Payout(ValueOf(c), s.Balance(asset), s.Supply(asset));
    PayMoves(s.bank, asset, s.self, c.payee, p, asset, s.self);
    PayMoves(s.bank, asset, s.self, c.payee, p, asset, c.payee);
  }

  function BalancesOf(states: seq<Pool>, asset: Address): seq<nat> {
    seq(|states|, i requires 0 <= i < |states| => states[i].Balance(asset))
  }

  function SuppliesOf(states: seq<Pool>, asset: Address): seq<nat> {
    seq(|states|, i requires 0 <= i < |states| => states[i].Supply(asset))
  }

  function PaymentsOf(states: seq<Pool>, calls: seq<UnshieldCall>): seq<Payment>
    requires |states| == |calls| + 1
  {
    seq(|calls|, i requires 0 <= i < |calls| => Payment(ValueOf(calls[i]), calls[i].payee == states[i].self))
  }

  /** Consecutive accepted withdrawals, to whomever, follow the payout series step by step. */
  lemma WithdrawalsFollowTheSeries(states: seq<Pool>, asset: Address, calls: seq<UnshieldCall>)
    requires Withdrawals(states, asset, calls)
    ensures Series(BalancesOf(states, asset), SuppliesOf(states, asset), PaymentsOf(states, calls))
  {
    var bs, ts, ws := BalancesOf(states, asset), SuppliesOf(states, asset), PaymentsOf(states, calls);
    forall i | 0 <= i < |calls|
      ensures Withdraws(bs[i], ts[i], ws[i], bs[i + 1], ts[i + 1])
    {
      WithdrawalPays(states[i], asset, calls[i], states[i + 1]);
    }
  }

  /** A withdrawal to the pool itself takes out no more than the shortfall. */
  predicate FitsIfKept(s: Pool, asset: Address, c: UnshieldCall) {
    c.payee == s.self ==> s.Balance(asset) + ValueOf(c) <= s.Supply(asset)
  }

  lemma KeptWithinMeansFits(states: seq<Pool>, asset: Address, calls: seq<UnshieldCall>, n: nat)
    requires |states| == |calls| + 1 && n <= |calls|
    ensures KeptWithin(BalancesOf(states, asset), SuppliesOf(states, asset), PaymentsOf(states, calls), n)
       <==> (forall i :: 0 <= i < n ==> FitsIfKept(states[i], asset, calls[i]))
  {
    var bs, ts, ws := BalancesOf(states, asset), SuppliesOf(states, asset), PaymentsOf(states, calls);
    if KeptWithin(bs, ts, ws, n) {
      forall i | 0 <= i < n
        ensures FitsIfKept(states[i], asset, calls[i])
      {
        assert ws[i].kept ==> bs[i] + ws[i].value <= ts[i];
      }
    }
    if forall i :: 0 <= i < n ==> FitsIfKept(states[i], asset, calls[i]) {
      forall i | 0 <= i < n && ws[i].kept
        ensures bs[i] + ws[i].value <= ts[i]
      {
        assert FitsIfKept(states[i], asset, calls[i]);
      }
    }
  }

  /** After `n` of the withdrawals the pool holds no more than it owes exactly if those kept so far fitted. */
  lemma NotOverFundedIffKeptFit(states: seq<Pool>, asset: Address, calls: seq<UnshieldCall>, n: nat)
    requires Withdrawals(states, asset, calls) && n <= |calls|
    requires states[0].Balance(asset) <= states[0].Supply(asset)
    ensures states[n].Balance(asset) <= states[n].Supply(asset)
       <==> (forall i :: 0 <= i < n ==> FitsIfKept(states[i], asset, calls[i]))
  {
    WithdrawalsFollowTheSeries(states, asset, calls);
    NeverOverFunded(BalancesOf(states, asset), SuppliesOf(states, asset), PaymentsOf(states, calls), n);
    KeptWithinMeansFits(states, asset, calls, n);
  }

  /**
    Withdrawals that together take out the whole supply, in any order and split, from a pool that is
    not over-funded: they empty the balance, and leave the pool never holding more than it owes on
    the way, if and only if each one whose recipient is the pool itself fitted under the shortfall.
  */
  lemma ExhaustingTheSupplyPaysTheBalance(states: seq<Pool>, asset: Address, calls: seq<UnshieldCall>)
    requires Withdrawals(states, asset, calls)
    requires states[0].Balance(asset) <= states[0].Supply(asset)
    requires states[|calls|].Supply(asset) == 0
    ensures states[|calls|].Balance(asset) == 0
       <==> (forall i :: 0 <= i < |calls| ==> FitsIfKept(states[i], asset, calls[i]))
    ensures (forall i :: 0 <= i <= |calls| ==> states[i].Balance(asset) <= states[i].Supply(asset))
       <==> (forall i :: 0 <= i < |calls| ==> FitsIfKept(states[i], asset, calls[i]))
  {
    forall n | 0 <= n <= |calls|
      ensures states[n].Balance(asset) <= states[n].Supply(asset)
         <==> (forall i :: 0 <= i < n ==> FitsIfKept(states[i], asset, calls[i]))
    {
      NotOverFundedIffKeptFit(states, asset, calls, n);
    }
  }

  /**
    In any run of withdrawals from a pool that is not over-funded, every recipient other than the
    pool receives at least its share of the balance the run started from.
  */
  lemma EachRecipientGetsItsShare(states: seq<Pool>, asset: Address, calls: seq<UnshieldCall>, i: nat)
    requires Withdrawals(states, asset, calls) && i < |calls| && calls[i].payee != states[i].self
    requires states[0].Balance(asset) <= states[0].Supply(asset)
    ensures states[0].Supply(asset) > 0
    ensures BalanceOf(states[i + 1].bank, asset, calls[i].payee) - BalanceOf(states[i].bank, asset, calls[i].payee)
            >= ValueOf(calls[i]) * states[0].Balance(asset) / states[0].Supply(asset)
  {
    WithdrawalsFollowTheSeries(states, asset, calls);
    EachGetsItsShare(BalancesOf(states, asset), SuppliesOf(states, asset), PaymentsOf(states, calls), i);
    WithdrawalPays(states[i], asset, calls[i], states[i + 1]);
  }
}
