/** What a whole run of the pool adds up to: supply is what came in less what went out. */
module PoolFlows {
  import opened Wrappers
  import opened NoteTrees
  import opened Notes
  import opened Tokens
  import opened PoolSpec
  import opened PoolConservation
  import opened PoolBatch
  import opened PoolSystem
  import PoolEffects

  /** What an event adds to the supply of `a`: an accepted deposit; less an accepted fee or withdrawal. */
  ghost function Flow(s: Pool, op: Op, a: Address): int
    requires s.log.Valid()
  {
    match op
    case DoShield(auth, payer, asset, item) =>
      if a == asset && Shield(s, auth, payer, asset, item).Ok? then item.amount else 0
    case DoShieldBatch(auth, payer, asset, items) =>
      if a == asset && ShieldBatch(s, auth, payer, asset, items).Ok? then Total(items) else 0
    case DoTransfer(auth, c) => if a == c.pub.asset && Transfer(s, auth, 2, c).Ok? then -c.pub.fee else 0
    case DoTransfer4(auth, c) => if a == c.pub.asset && Transfer(s, auth, 4, c).Ok? then -c.pub.fee else 0
    case DoUnshield(c) => if a == c.pub.pubAsset && Unshield(s, c).Ok? then -c.pub.pubValue else 0
    case _ => 0
  }

  /** The leaves an event appends. */
  ghost function Appended(s: Pool, op: Op): seq<Field>
    requires s.log.Valid()
  {
    match op
    case DoShield(auth, payer, asset, item) =>
      if Shield(s, auth, payer, asset, item).Ok? then [item.commitment] else []
    case DoShieldBatch(auth, payer, asset, items) =>
      if ShieldBatch(s, auth, payer, asset, items).Ok? then CommitmentsOf(items) else []
    case DoTransfer(auth, c) => if Transfer(s, auth, 2, c).Ok? then c.commitments else []
    case DoTransfer4(auth, c) => if Transfer(s, auth, 4, c).Ok? then c.commitments else []
    case DoUnshield(c) => if Unshield(s, c).Ok? then [c.changeCommitment] else []
    case _ => []
  }

  /** An event changes supplies by its flow, appends its leaves, and leaves alone what it is not about. */
  lemma StepFlows(s: Pool, op: Op, a: Address)
    requires s.log.Valid()
    ensures Step(s, op).Supply(a) == s.Supply(a) + Flow(s, op, a)
    ensures Step(s, op).log.leaves == s.log.leaves + Appended(s, op)
    ensures (op.DoTransfer? ==> |Appended(s, op)| in {0, 2}) && (op.DoTransfer4? ==> |Appended(s, op)| in {0, 4})
    ensures Step(s, op).paused == (if op.SetPaused? then op.paused else s.paused)
    ensures !op.SetMinShieldAmount? ==> Step(s, op).minShield == s.minShield
    ensures !op.SetAssetApproved? ==> Step(s, op).approved == s.approved
    ensures !op.SetRelayer? ==> Step(s, op).relayers == s.relayers
  {
    match op
    case DoShield(auth, payer, asset, item) =>
      if Shield(s, auth, payer, asset, item).Ok? { PoolEffects.ShieldMoves(s, auth, payer, asset, item); }
    case DoShieldBatch(auth, payer, asset, items) =>
      if ShieldBatch(s, auth, payer, asset, items).Ok? { PoolEffects.ShieldBatchMoves(s, auth, payer, asset, items); }
    case DoTransfer(auth, c) => TransferFlows(s, auth, 2, c, a);
    case DoTransfer4(auth, c) => TransferFlows(s, auth, 4, c, a);
    case DoUnshield(c) =>
      if Unshield(s, c).Ok? { var payout := PoolEffects.UnshieldMoves(s, c); }
    case _ =>
  }

  lemma TransferFlows(s: Pool, auth: set<Address>, n: nat, c: TransferCall, a: Address)
    requires s.log.Valid()
    ensures Transfer(s, auth, n, c).Ok? ==>
              var s' := Transfer(s, auth, n, c).value.0;
              && s'.Supply(a) == s.Supply(a) - (if a == c.pub.asset then c.pub.fee else 0)
              && s'.log.leaves == s.log.leaves + c.commitments && |c.commitments| == n
              && PoolEffects.SameSettings(s, s')
  {
    if Transfer(s, auth, n, c).Ok? {
      PoolEffects.TransferMoves(s, auth, n, c);
    }
  }

  /** Deposits less fees and withdrawals, over a run. */
  ghost function NetFlow(s: Pool, ops: seq<Op>, a: Address): int
    requires Inv(s) && forall i :: 0 <= i < |ops| ==> HostAllows(s.self, ops[i])
    decreases |ops|
  {
    if ops == [] then 0
    else
      StepKeepsInv(s, ops[0]);
      Flow(s, ops[0], a) + NetFlow(Step(s, ops[0]), ops[1..], a)
  }

  /** All leaves appended over a run, in order. */
  ghost function AllAppended(s: Pool, ops: seq<Op>): seq<Field>
    requires Inv(s) && forall i :: 0 <= i < |ops| ==> HostAllows(s.self, ops[i])
    decreases |ops|
  {
    if ops == [] then []
    else
      StepKeepsInv(s, ops[0]);
      Appended(s, ops[0]) + AllAppended(Step(s, ops[0]), ops[1..])
  }

  lemma {:induction false} RunFlows(s: Pool, ops: seq<Op>, a: Address)
    requires Inv(s) && forall i :: 0 <= i < |ops| ==> HostAllows(s.self, ops[i])
    ensures Run(s, ops).Supply(a) == s.Supply(a) + NetFlow(s, ops, a)
    decreases |ops|
  {
    if ops != [] {
      StepKeepsInv(s, ops[0]);
      StepFlows(s, ops[0], a);
      RunFlows(Step(s, ops[0]), ops[1..], a);
    }
  }

  lemma Prepend(leaves: seq<Field>, first: seq<Field>, rest: seq<Field>, more: seq<Field>, all: seq<Field>)
    requires more == leaves + first && all == first + rest
    ensures more + rest == leaves + all
  {
  }

  lemma {:induction false} RunAppends(s: Pool, ops: seq<Op>)
    requires Inv(s) && forall i :: 0 <= i < |ops| ==> HostAllows(s.self, ops[i])
    ensures Run(s, ops).log.leaves == s.log.leaves + AllAppended(s, ops)
    decreases |ops|
  {
    if ops == [] {
      assert AllAppended(s, ops) == [];
    } else {
      StepKeepsInv(s, ops[0]);
      StepFlows(s, ops[0], Address(0));
      var s1, rest := Step(s, ops[0]), ops[1..];
      RunAppends(s1, rest);
      Prepend(s.log.leaves, Appended(s, ops[0]), AllAppended(s1, rest), s1.log.leaves, AllAppended(s, ops));
    }
  }

  /**
    The books balance: after any run from deployment, what was deposited of an asset, less the fees and
    withdrawals paid, is its recorded supply, and is the value of the notes nobody has spent.
  */
  lemma BooksBalance(self: Address, bank: Bank, ops: seq<Op>, a: Address)
    requires forall i :: 0 <= i < |ops| ==> HostAllows(self, ops[i])
    ensures Inv(Init(self, bank))
    ensures var s := Run(Init(self, bank), ops);
            && NetFlow(Init(self, bank), ops, a) == s.Supply(a)
            && s.Supply(a) == Unspent(AllAppended(Init(self, bank), ops), s.consumed, a)
  {
    InitInv(self, bank);
    RunFlows(Init(self, bank), ops, a);
    RunAppends(Init(self, bank), ops);
    ReachableStatesConserve(self, bank, ops, a);
    assert [] + AllAppended(Init(self, bank), ops) == AllAppended(Init(self, bank), ops);
  }
}
