/** What holds of a swap over whole runs: one settlement, fixed terms, an honest claim, a way out. */
module SwapHistory {
  import opened Wrappers
  import opened Notes
  import opened Tokens
  import PoolSpec
  import PoolConservation
  import PoolBacking
  import Positional
  import PoolSystem
  import opened SwapSpec
  import opened SwapSafety

  // ----- runs

  ghost predicate RunAllowed(w: World, ops: seq<Op>)
    requires SwapInv(w)
    decreases |ops|
  {
    ops == [] || (HostAllows(w, ops[0]) && (StepKeepsInv(w, ops[0]); RunAllowed(Step(w, ops[0]), ops[1..])))
  }

  ghost function Run(w: World, ops: seq<Op>): World
    requires SwapInv(w) && RunAllowed(w, ops)
    ensures SwapInv(Run(w, ops))
    ensures Run(w, ops).swap.self == w.swap.self && Run(w, ops).pool.self == w.pool.self
    decreases |ops|
  {
    if ops == [] then w
    else
      StepKeepsInv(w, ops[0]);
      Run(Step(w, ops[0]), ops[1..])
  }

  function Init(pool: Pool, self: Address, ledger: u32): World {
    World(pool, SwapContract(self, false, {}, map[]), ledger)
  }

  /**
    Over any interleaving of many swaps with pool calls, the swap contract's balance of each asset
    covers what every unsettled swap is owed; and while nothing is clawed back from the pool, the
    pool's balance covers its shielded supply.
  */
  lemma ReachableWorldsAreSolvent(pool: Pool, self: Address, ledger: u32, ops: seq<Op>, asset: Address)
    requires PoolConservation.Inv(pool) && self != pool.self
    ensures SwapInv(Init(pool, self, ledger))
    ensures RunAllowed(Init(pool, self, ledger), ops) ==>
              var w := Run(Init(pool, self, ledger), ops);
              Owed(w.swap.swaps, asset) <= w.Balance(asset, w.swap.self)
    ensures RunAllowed(Init(pool, self, ledger), ops) && NoClawback(ops) && pool.Supply(asset) <= pool.Balance(asset) ==>
              var w := Run(Init(pool, self, ledger), ops);
              w.pool.Supply(asset) <= w.pool.Balance(asset)
  {
    var w0 := Init(pool, self, ledger);
    assert forall a :: Owed(w0.swap.swaps, a) == 0;
    assert Solvent(w0);
    if RunAllowed(w0, ops) {
      assert SolventIn(Run(w0, ops), asset);
      if NoClawback(ops) && pool.Supply(asset) <= pool.Balance(asset) {
        PoolStaysBacked(w0, ops, asset);
      }
    }
  }

  predicate NoClawback(ops: seq<Op>) {
    forall i :: 0 <= i < |ops| ==> !(ops[i].PoolOp? && ops[i].op.Clawback?)
  }

  lemma RevealKeepsBacked(w: World, id: Digest, c: RevealCall, asset: Address)
    requires SwapInv(w) && RevealAndClaim(w, id, c).Ok? && w.pool.Supply(asset) <= w.pool.Balance(asset)
    ensures var w' := RevealAndClaim(w, id, c).value.0; w'.pool.Supply(asset) <= w'.pool.Balance(asset)
  {
    var s := w.swap.swaps[id];
    var bank1 := Pay(w.pool.bank, s.assetIn, w.swap.self, s.relayer.value, s.amountIn).value;
    PayMoves(w.pool.bank, s.assetIn, w.swap.self, s.relayer.value, s.amountIn, asset, w.pool.self);
    PaidPoolInv(w.pool, bank1);
    BackedAfter(w.pool.(bank := bank1),
                PoolSystem.DoShield({w.swap.self}, w.swap.self, s.assetOut, ClaimItem(s, c)), asset);
  }

  lemma StepKeepsBacked(w: World, op: Op, asset: Address)
    requires SwapInv(w) && HostAllows(w, op) && !(op.PoolOp? && op.op.Clawback?)
    requires w.pool.Supply(asset) <= w.pool.Balance(asset)
    ensures Step(w, op).pool.Supply(asset) <= Step(w, op).pool.Balance(asset)
  {
    match op
    case Commit(c) =>
      if CommitSwap(w, c).Ok? { BackedAfter(w.pool, PoolSystem.DoUnshield(EscrowCall(w.swap.self, c)), asset); }
    case Execute(auth, id, amount, relayer) =>
      if ExecuteSwap(w, auth, id, amount, relayer).Ok? {
        PayMoves(w.pool.bank, w.swap.swaps[id].assetOut, relayer, w.swap.self, amount, asset, w.pool.self);
      }
    case Reveal(id, c) =>
      if RevealAndClaim(w, id, c).Ok? { RevealKeepsBacked(w, id, c, asset); }
    case Cancel(id) =>
      if CancelSwap(w, id).Ok? {
        var s := w.swap.swaps[id];
        PayMoves(w.pool.bank, s.assetIn, w.swap.self, s.refundTo, s.amountIn, asset, w.pool.self);
      }
    case Reclaim(id) =>
      if ReclaimExpiredSwap(w, id).Ok? {
        var s := w.swap.swaps[id];
        var bank1 := Pay(w.pool.bank, s.assetOut, w.swap.self, s.relayer.value, s.amountOut).value;
        PayMoves(w.pool.bank, s.assetOut, w.swap.self, s.relayer.value, s.amountOut, asset, w.pool.self);
        PayMoves(bank1, s.assetIn, w.swap.self, s.refundTo, s.amountIn, asset, w.pool.self);
      }
    case PoolOp(p) => BackedAfter(w.pool, p, asset);
    case _ =>
  }

  lemma BackedAfter(s: Pool, op: PoolSystem.Op, asset: Address)
    requires PoolConservation.Inv(s) && PoolSystem.HostAllows(s.self, op) && !op.Clawback?
    requires s.Supply(asset) <= s.Balance(asset)
    ensures PoolSystem.Step(s, op).Supply(asset) <= PoolSystem.Step(s, op).Balance(asset)
  {
    PoolSystem.StepKeepsInv(s, op);
    PoolSystem.StepKeepsBacking(s, op, asset);
    var s' := PoolSystem.Step(s, op);
    if s'.Balance(asset) < s'.Supply(asset) {
      PoolSystem.DivisionLt(s'.Balance(asset) as real, s'.Supply(asset) as real);
    }
  }

  lemma {:induction false} PoolStaysBacked(w: World, ops: seq<Op>, asset: Address)
    requires SwapInv(w) && RunAllowed(w, ops) && NoClawback(ops)
    requires w.pool.Supply(asset) <= w.pool.Balance(asset)
    ensures Run(w, ops).pool.Supply(asset) <= Run(w, ops).pool.Balance(asset)
    decreases |ops|
  {
    if ops != [] {
      StepKeepsInv(w, ops[0]);
      StepKeepsBacked(w, ops[0], asset);
      PoolStaysBacked(Step(w, ops[0]), ops[1..], asset);
    }
  }

  // ----- terms and settlement

  /** The terms fixed at commit time. */
  predicate SameTerms(s: Swap, s': Swap) {
    s' == s.(status := s'.status, amountOut := s'.amountOut, relayer := s'.relayer)
  }

  predicate Settled(w: World, id: Digest) {
    id in w.swap.swaps && (w.swap.swaps[id].status == Claimed || w.swap.swaps[id].status == Cancelled)
  }

  /** The event settles this swap: it is claimed, cancelled or reclaimed. */
  ghost predicate Settles(w: World, op: Op, id: Digest) {
    match op
    case Reveal(i, c) => i == id && RevealAndClaim(w, i, c).Ok?
    case Cancel(i) => i == id && CancelSwap(w, i).Ok?
    case Reclaim(i) => i == id && ReclaimExpiredSwap(w, i).Ok?
    case _ => false
  }

  /**
    A recorded swap stays recorded with the terms it was committed with; a settled one never
    changes again; and an event settles it exactly if it was unsettled before and is settled after.
  */
  lemma StepRespectsSwap(w: World, op: Op, id: Digest)
    requires w.pool.log.Valid() && id in w.swap.swaps
    ensures id in Step(w, op).swap.swaps
    ensures SameTerms(w.swap.swaps[id], Step(w, op).swap.swaps[id])
    ensures Settled(w, id) ==> Step(w, op).swap.swaps[id] == w.swap.swaps[id]
    ensures Settles(w, op, id) <==> !Settled(w, id) && Settled(Step(w, op), id)
  {
    match op
    case Commit(c) =>
    case Execute(auth, i, amount, relayer) =>
    case Reveal(i, c) =>
    case Cancel(i) =>
    case Reclaim(i) =>
    case _ =>
  }

  /** How many events of a run settle the swap. */
  ghost function Settlements(w: World, ops: seq<Op>, id: Digest): nat
    requires SwapInv(w) && RunAllowed(w, ops)
    decreases |ops|
  {
    if ops == [] then 0
    else
      StepKeepsInv(w, ops[0]);
      (if Settles(w, ops[0], id) then 1 else 0) + Settlements(Step(w, ops[0]), ops[1..], id)
  }

  /** From a recorded swap on: its terms stay, and it is settled at most once, exactly if it ends settled. */
  lemma {:induction false} SettledAtMostOnce(w: World, ops: seq<Op>, id: Digest)
    requires SwapInv(w) && RunAllowed(w, ops) && id in w.swap.swaps
    ensures id in Run(w, ops).swap.swaps
    ensures SameTerms(w.swap.swaps[id], Run(w, ops).swap.swaps[id])
    ensures Settlements(w, ops, id) == (if !Settled(w, id) && Settled(Run(w, ops), id) then 1 else 0)
    ensures Settled(w, id) ==> Run(w, ops).swap.swaps[id] == w.swap.swaps[id]
    decreases |ops|
  {
    if ops != [] {
      StepKeepsInv(w, ops[0]);
      StepRespectsSwap(w, ops[0], id);
      SettledAtMostOnce(Step(w, ops[0]), ops[1..], id);
    }
  }

  // ----- what a claim did

  /** What the claiming event moved: the relayer's payment and the claimant's new note. */
  ghost predicate ClaimedAt(w: World, op: Op, id: Digest)
    requires w.pool.log.Valid()
  {
    && op.Reveal? && op.id == id && id in w.swap.swaps
    && RevealAndClaim(w, id, op.claim).Ok?
    && var s, w' := w.swap.swaps[id], Step(w, op);
       var rho, rcm := op.claim.outRho, op.claim.outRcm;
       && s.amountOut >= s.minAmountOut >= 0 && s.amountIn > 0 && s.relayer.Some?
       && OutNoteBinding(rho, rcm) == s.outNoteBinding
       && w'.pool.log.leaves == w.pool.log.leaves + [Notes.Commit(Note(s.amountOut, s.assetOut, rho, rcm, s.outOwnerPk))]
       && w'.Balance(s.assetIn, s.relayer.value) == w.Balance(s.assetIn, s.relayer.value) + s.amountIn
       && w'.Balance(s.assetOut, w.pool.self) == w.Balance(s.assetOut, w.pool.self) + s.amountOut
  }

  lemma RevealDelivers(w: World, op: Op, id: Digest)
    requires SwapInv(w) && op.Reveal? && op.id == id && RevealAndClaim(w, id, op.claim).Ok?
    ensures ClaimedAt(w, op, id)
  {
    var s, c := w.swap.swaps[id], op.claim;
    var bank1 := Pay(w.pool.bank, s.assetIn, w.swap.self, s.relayer.value, s.amountIn).value;
    var item := ClaimItem(s, c);
    assert item.commitment == Notes.Commit(Note(s.amountOut, s.assetOut, c.outRho, c.outRcm, s.outOwnerPk));
    PayMoves(w.pool.bank, s.assetIn, w.swap.self, s.relayer.value, s.amountIn, s.assetIn, s.relayer.value);
    PayMoves(w.pool.bank, s.assetIn, w.swap.self, s.relayer.value, s.amountIn, s.assetOut, w.pool.self);
    PayMoves(bank1, s.assetOut, w.swap.self, w.pool.self, s.amountOut, s.assetIn, s.relayer.value);
    PayMoves(bank1, s.assetOut, w.swap.self, w.pool.self, s.amountOut, s.assetOut, w.pool.self);
  }

  /** Only an accepted reveal makes a swap Claimed. */
  lemma OnlyRevealClaims(w: World, op: Op, id: Digest)
    requires SwapInv(w) && id in w.swap.swaps && w.swap.swaps[id].status != Claimed
    requires id in Step(w, op).swap.swaps && Step(w, op).swap.swaps[id].status == Claimed
    ensures ClaimedAt(w, op, id)
  {
    RevealDelivers(w, op, id);
  }

  /** The world just before event `k` of a run. */
  ghost function At(w: World, ops: seq<Op>, k: nat): World
    requires SwapInv(w) && RunAllowed(w, ops) && k <= |ops|
    ensures SwapInv(At(w, ops, k))
    decreases |ops|
  {
    if k == 0 then w
    else
      StepKeepsInv(w, ops[0]);
      At(Step(w, ops[0]), ops[1..], k - 1)
  }

  predicate HasStatus(w: World, id: Digest, status: SwapStatus) {
    id in w.swap.swaps && w.swap.swaps[id].status == status
  }

  lemma {:induction false} AtNext(w: World, ops: seq<Op>, k: nat)
    requires SwapInv(w) && RunAllowed(w, ops) && k < |ops|
    ensures At(w, ops, k + 1) == Step(At(w, ops, k), ops[k])
    decreases |ops|
  {
    StepKeepsInv(w, ops[0]);
    if k > 0 {
      AtNext(Step(w, ops[0]), ops[1..], k - 1);
    }
  }

  lemma {:induction false} AtEnd(w: World, ops: seq<Op>)
    requires SwapInv(w) && RunAllowed(w, ops)
    ensures At(w, ops, |ops|) == Run(w, ops)
    decreases |ops|
  {
    if ops != [] {
      StepKeepsInv(w, ops[0]);
      AtEnd(Step(w, ops[0]), ops[1..]);
    }
  }

  lemma {:induction false} AtKeepsTerms(w: World, ops: seq<Op>, id: Digest, k: nat)
    requires SwapInv(w) && RunAllowed(w, ops) && k <= |ops| && id in w.swap.swaps
    ensures id in At(w, ops, k).swap.swaps && SameTerms(w.swap.swaps[id], At(w, ops, k).swap.swaps[id])
    decreases |ops|
  {
    if k > 0 {
      StepKeepsInv(w, ops[0]);
      StepRespectsSwap(w, ops[0], id);
      AtKeepsTerms(Step(w, ops[0]), ops[1..], id, k - 1);
    }
  }

  /** Some event among the first `n` gives the swap the status it has after them. */
  lemma {:induction false} TurningEvent(w: World, ops: seq<Op>, id: Digest, status: SwapStatus, n: nat) returns (k: nat)
    requires SwapInv(w) && RunAllowed(w, ops) && n <= |ops|
    requires !HasStatus(w, id, status) && HasStatus(At(w, ops, n), id, status)
    ensures k < n && !HasStatus(At(w, ops, k), id, status) && HasStatus(At(w, ops, k + 1), id, status)
    decreases n
  {
    if HasStatus(At(w, ops, n - 1), id, status) {
      k := TurningEvent(w, ops, id, status, n - 1);
    } else {
      k := n - 1;
    }
  }

  /**
    A swap that ends up Claimed was claimed by one event of the run, on the terms it was committed
    with: the recorded relayer got exactly `amountIn`, and a note of `amountOut`, at least the
    committed minimum, was shielded to the committed owner key under the committed binding.
  */
  lemma ClaimedMeansDelivered(w: World, ops: seq<Op>, id: Digest) returns (k: nat)
    requires SwapInv(w) && RunAllowed(w, ops) && id in w.swap.swaps && !HasStatus(w, id, Claimed)
    requires HasStatus(Run(w, ops), id, Claimed)
    ensures k < |ops| && id in At(w, ops, k).swap.swaps
    ensures SameTerms(w.swap.swaps[id], At(w, ops, k).swap.swaps[id])
    ensures ClaimedAt(At(w, ops, k), ops[k], id)
  {
    AtEnd(w, ops);
    k := TurningEvent(w, ops, id, Claimed, |ops|);
    AtNext(w, ops, k);
    AtKeepsTerms(w, ops, id, k);
    OnlyRevealClaims(At(w, ops, k), ops[k], id);
  }

  // ----- a way out

  /**
    Past its deadline every unsettled swap can be unwound by anyone, paused or not: cancelled if no
    relayer executed it, reclaimed if one did.
  */
  lemma UnwindIsEnabled(w: World, id: Digest)
    requires SwapInv(w) && id in w.swap.swaps
    ensures w.swap.swaps[id].status == Committed ==>
              (CancelSwap(w, id).Ok? <==> w.ledger > w.swap.swaps[id].expiry)
    ensures w.swap.swaps[id].status == Executed ==>
              (ReclaimExpiredSwap(w, id).Ok? <==> w.ledger > w.swap.swaps[id].expiry + CLAIM_WINDOW_LEDGERS)
  {
    var s := w.swap.swaps[id];
    assert SwapOk(id, s);
    assert SolventIn(w, s.assetIn) && SolventIn(w, s.assetOut);
    OwedCovers(w.swap.swaps, id, s.assetIn);
    OwedCovers(w.swap.swaps, id, s.assetOut);
    if s.status == Executed {
      PayMoves(w.pool.bank, s.assetOut, w.swap.self, s.relayer.value, s.amountOut, s.assetIn, w.swap.self);
    }
  }

  /**
    Some ledger remains at which an executed swap can be reclaimed exactly if its expiry is strictly
    below `u32::MAX - CLAIM_WINDOW_LEDGERS`.
  */
  lemma ReclaimIsReachable(w: World, id: Digest)
    requires SwapInv(w) && id in w.swap.swaps && w.swap.swaps[id].status == Executed
    ensures (exists now: u32 :: ReclaimExpiredSwap(w.(ledger := now), id).Ok?)
       <==> w.swap.swaps[id].expiry < U32_MAX - CLAIM_WINDOW_LEDGERS
  {
    forall now: u32
      ensures SwapInv(w.(ledger := now))
    {
      assert forall a :: SolventIn(w, a) ==> SolventIn(w.(ledger := now), a);
    }
    UnwindIsEnabled(w.(ledger := U32_MAX), id);
    assert ReclaimExpiredSwap(w.(ledger := U32_MAX), id).Ok?
      <==> w.swap.swaps[id].expiry < U32_MAX - CLAIM_WINDOW_LEDGERS;
    forall now: u32
      ensures ReclaimExpiredSwap(w.(ledger := now), id).Ok? ==> w.swap.swaps[id].expiry < U32_MAX - CLAIM_WINDOW_LEDGERS
    {
      UnwindIsEnabled(w.(ledger := now), id);
    }
  }

  /** The boundary expiry is accepted at commit time although no ledger lets it be reclaimed. */
  lemma BoundaryExpiryIsAccepted(w: World, c: CommitCall)
    requires !w.swap.paused && w.ledger < U32_MAX - CLAIM_WINDOW_LEDGERS
    requires c.expiry == U32_MAX - CLAIM_WINDOW_LEDGERS && c.minAmountOut >= 0 && c.amountIn > 0
    requires SwapIdOf(c.intentCommitment) !in w.swap.swaps
    ensures CheckCommit(w, c).Pass?
    ensures forall now: u32, id, s: Swap :: s.expiry == c.expiry && s.status == Executed ==>
              !ReclaimExpiredSwap(w.(ledger := now).Save(id, s), id).Ok?
  {
  }

  /** A commit whose payout falls short of `amountIn` changes nothing: under a shortfall it is refused. */
  lemma ShortEscrowIsRefused(w: World, c: CommitCall)
    requires SwapInv(w) && w.pool.Balance(c.assetIn) < w.pool.Supply(c.assetIn)
    ensures CommitSwap(w, c).Err?
    ensures Step(w, Commit(c)) == w
  {
    var call := EscrowCall(w.swap.self, c);
    if CheckCommit(w, c).Pass? && PoolSpec.Unshield(w.pool, call).Ok? {
      UnshieldSparesOthers(w.pool, call, c.assetIn, w.swap.self);
      PartialPayout(c.amountIn, w.pool.Balance(c.assetIn), w.pool.Supply(c.assetIn));
    }
  }

  lemma PartialPayout(value: nat, balance: nat, supply: nat)
    requires 0 < value <= supply && balance < supply
    ensures PoolSpec.Payout(value, balance, supply) < value
  {
    var p := PoolSpec.Payout(value, balance, supply);
    PoolBacking.PayoutRounds(value, balance, supply);
    assert value * balance < value * supply;
    if p >= value {
      Positional.MulLe(value, p, supply);
    }
  }
}
