/**
  What each swap call demands, records and pays, said without reference to how it is carried out, and
  what a whole run therefore paid for a swap that ends refunded or executed.
*/
module SwapEffects {
  import opened Wrappers
  import opened NoteTrees
  import opened Notes
  import opened Tokens
  import PoolSpec
  import PoolEffects
  import Positional
  import opened SwapSpec
  import opened SwapSafety
  import opened SwapHistory

  /** Only the record of `id` changed in the swap contract. */
  ghost predicate OnlySwap(w: World, w': World, id: Digest) {
    && id in w'.swap.swaps
    && w'.swap == w.swap.(swaps := w.swap.swaps[id := w'.swap.swaps[id]])
    && w'.ledger == w.ledger
  }

  /** `amount` of `asset` went from `payer` to `payee`, and no other balance changed. */
  ghost predicate Paid(w: World, w': World, asset: Address, payer: Address, payee: Address, amount: int) {
    PoolEffects.Moved(w.pool.bank, w'.pool.bank, asset, payer, payee, amount)
  }

  /** The swap contract paid `x` of `a` to `p` and `y` of `b` to `q`, and no other balance changed. */
  ghost predicate PaidBoth(w: World, w': World, a: Address, p: Address, x: int, b: Address, q: Address, y: int) {
    forall asset, who :: w'.Balance(asset, who) == w.Balance(asset, who)
      + PoolEffects.Share(a, w.swap.self, p, x, asset, who) + PoolEffects.Share(b, w.swap.self, q, y, asset, who)
  }

  ghost predicate OnlyBalances(w: World, w': World) {
    w'.pool == w.pool.(bank := w'.pool.bank)
  }

  // ----- commit

  /** What the committer must have proved: the withdrawal, made out to the swap contract under these terms. */
  function CommitStatement(self: Address, c: CommitCall): UnshieldPublicInputs {
    var terms := Poseidon2(Poseidon2(c.intentCommitment, AddressField(c.refundTo)),
                           Poseidon2(c.outOwnerPk, Poseidon2(AddressField(c.assetOut), Elem(c.expiry))));
    UnshieldPublicInputs(c.anchor, c.nullifierIn, c.amountIn, c.assetIn, Poseidon2(AddressField(self), terms),
                         c.changeCommitment, c.changeValueCommit)
  }

  ghost predicate CommitAllowed(w: World, c: CommitCall)
    requires w.pool.log.Valid()
  {
    && !w.swap.paused && !w.pool.paused && w.swap.self != w.pool.self
    && w.ledger < c.expiry <= U32_MAX - 17_280
    && c.minAmountOut >= 0
    && 0 < c.amountIn <= w.pool.Supply(c.assetIn) <= w.pool.Balance(c.assetIn)
    && Sha256([c.intentCommitment]) !in w.swap.swaps
    && KnownRoot(Poseidon2, EMPTY_LEAF, w.pool.log, c.anchor)
    && c.nullifierIn !in w.pool.nullifiers && c.changeCommitment !in w.pool.seen
    && |c.encryptedChangeNote| == 176 && |w.pool.log.leaves| < U32_MAX
    && c.ownershipProof.Sound? && c.ownershipProof.statement == CommitStatement(w.swap.self, c)
    && UnshieldRelation(c.ownershipProof.statement, c.ownershipProof.knowledge)
  }

  lemma CommitSucceedsIff(w: World, c: CommitCall)
    requires w.pool.log.Valid()
    ensures CommitSwap(w, c).Ok? <==> CommitAllowed(w, c)
  {
    var call := EscrowCall(w.swap.self, c);
    PoolEffects.UnshieldSucceedsIff(w.pool, call);
    if PoolSpec.Unshield(w.pool, call).Ok? {
      var payout := PoolEffects.UnshieldMoves(w.pool, call);
      if w.pool.Balance(c.assetIn) < w.pool.Supply(c.assetIn) {
        ShareIsPartial(payout, c.amountIn, w.pool.Balance(c.assetIn), w.pool.Supply(c.assetIn));
      }
    }
  }

  lemma ShareIsPartial(payout: nat, value: nat, balance: nat, supply: nat)
    requires 0 < value && balance < supply && PoolEffects.PaysShare(payout, value, balance, supply)
    ensures payout < value
  {
    assert value * balance < value * supply;
    if payout >= value {
      Positional.MulLe(value, payout, supply);
    }
  }

  /** The record agrees with the call in every term, and nothing has happened to it yet. */
  predicate Records(s: Swap, c: CommitCall) {
    && s.intentCommitment == c.intentCommitment && s.nullifierIn == c.nullifierIn && s.expiry == c.expiry
    && s.assetIn == c.assetIn && s.amountIn == c.amountIn && s.refundTo == c.refundTo
    && s.assetOut == c.assetOut && s.minAmountOut == c.minAmountOut
    && s.outOwnerPk == c.outOwnerPk && s.outNoteBinding == c.outNoteBinding
    && s.status == Committed && s.amountOut == 0 && s.relayer == None
  }

  /** A commit records its terms under its own id and moves the whole input from the pool into escrow. */
  lemma CommitRecords(w: World, c: CommitCall)
    requires w.pool.log.Valid() && CommitSwap(w, c).Ok?
    ensures var (w', id) := CommitSwap(w, c).value;
            && id == Sha256([c.intentCommitment]) && id !in w.swap.swaps
            && OnlySwap(w, w', id) && Records(w'.swap.swaps[id], c)
            && Paid(w, w', c.assetIn, w.pool.self, w.swap.self, c.amountIn)
            && PoolEffects.SupplyChanged(w.pool, w'.pool, c.assetIn, -c.amountIn)
            && PoolEffects.SameSettings(w.pool, w'.pool)
            && w'.pool.log.leaves == w.pool.log.leaves + [c.changeCommitment]
            && w'.pool.nullifiers == w.pool.nullifiers + {c.nullifierIn}
            && w'.pool.seen == w.pool.seen + {c.changeCommitment}
  {
    CommitSucceedsIff(w, c);
    var payout := PoolEffects.UnshieldMoves(w.pool, EscrowCall(w.swap.self, c));
  }

  /**
    An ownership proof can be replayed for no other swap: of all commits that carry it, at any swap
    contract and in any world, only those succeed that name the same contract, input, refund address,
    owner key, output asset and expiry.
  */
  lemma ReplayedCommitIsRefused(w: World, c: CommitCall, v: World, d: CommitCall)
    requires w.pool.log.Valid() && v.pool.log.Valid() && c.ownershipProof == d.ownershipProof
    requires CommitSwap(w, c).Ok? && CommitSwap(v, d).Ok?
    ensures w.swap.self == v.swap.self
    ensures d == c.(outNoteBinding := d.outNoteBinding, minAmountOut := d.minAmountOut,
                    encryptedChangeNote := d.encryptedChangeNote)
  {
    CommitSucceedsIff(w, c);
    CommitSucceedsIff(v, d);
  }

  // ----- execute

  ghost predicate ExecuteAllowed(w: World, auth: set<Address>, id: Digest, amountOut: int, relayer: Address) {
    && !w.swap.paused && relayer in auth && relayer in w.swap.relayers
    && id in w.swap.swaps && w.swap.swaps[id].status == Committed
    && w.ledger <= w.swap.swaps[id].expiry
    && 0 < amountOut && w.swap.swaps[id].minAmountOut <= amountOut
    && amountOut <= w.Balance(w.swap.swaps[id].assetOut, relayer)
  }

  lemma ExecuteSucceedsIff(w: World, auth: set<Address>, id: Digest, amountOut: int, relayer: Address)
    ensures ExecuteSwap(w, auth, id, amountOut, relayer).Ok? <==> ExecuteAllowed(w, auth, id, amountOut, relayer)
  {
  }

  /** The relayer paid the output into escrow and is on record, with the amount, on unchanged terms. */
  ghost predicate FundedBy(w: World, w': World, id: Digest, amountOut: int, relayer: Address) {
    && id in w.swap.swaps && OnlySwap(w, w', id) && OnlyBalances(w, w')
    && SameTerms(w.swap.swaps[id], w'.swap.swaps[id])
    && w'.swap.swaps[id].status == Executed && w'.swap.swaps[id].amountOut == amountOut
    && w'.swap.swaps[id].relayer == Some(relayer)
    && Paid(w, w', w.swap.swaps[id].assetOut, relayer, w.swap.self, amountOut)
  }

  lemma ExecuteMoves(w: World, auth: set<Address>, id: Digest, amountOut: int, relayer: Address)
    requires ExecuteSwap(w, auth, id, amountOut, relayer).Ok?
    ensures FundedBy(w, ExecuteSwap(w, auth, id, amountOut, relayer).value, id, amountOut, relayer)
  {
    PoolEffects.PaymentMoves(w.pool.bank, w.swap.swaps[id].assetOut, relayer, w.swap.self, amountOut);
  }

  // ----- reveal

  /** What the claimant must reveal and prove, and what the pool asks of the note to be made. */
  ghost predicate RevealAllowed(w: World, id: Digest, c: RevealCall) {
    && !w.swap.paused && !w.pool.paused
    && id in w.swap.swaps
    && var s, self := w.swap.swaps[id], w.swap.self;
       && s.status == Executed && s.relayer.Some?
       && c.outOwnerPk == s.outOwnerPk && Sha256([c.outRho, c.outRcm]) == s.outNoteBinding
       && c.fairnessPub.intentCommitment == s.intentCommitment
       && c.fairnessPub.assetIn == s.assetIn && c.fairnessPub.assetOut == s.assetOut
       && c.fairnessPub.amountOut == s.amountOut && c.fairnessPub.minAmountOut == s.minAmountOut
       && c.fairnessAccepted
       && s.assetOut in w.pool.approved && 0 < s.amountOut < TWO_64 && w.pool.minShield <= s.amountOut
       && |c.encryptedNote| == 176 && |w.pool.log.leaves| < U32_MAX
       && w.pool.Supply(s.assetOut) + s.amountOut <= I128_MAX
       && var note := Note(s.amountOut, s.assetOut, c.outRho, c.outRcm, s.outOwnerPk);
          && c.outCommitment == Notes.Commit(note) && c.outCommitment !in w.pool.seen
          && CommitsValue(c.outValueCommit, s.amountOut)
          && c.shieldProof == Sound(ShieldStatement(c.outCommitment, c.outValueCommit, s.amountOut, s.assetOut), note)
          && 0 <= s.amountIn <= w.Balance(s.assetIn, self)
          && s.amountOut <= w.Balance(s.assetOut, self)
               + PoolEffects.Share(s.assetIn, self, s.relayer.value, s.amountIn, s.assetOut, self)
  }

  lemma RevealSucceedsIff(w: World, id: Digest, c: RevealCall)
    ensures RevealAndClaim(w, id, c).Ok? <==> RevealAllowed(w, id, c)
  {
    if CheckReveal(w, id, c).Pass? && w.swap.swaps[id].relayer.Some? {
      var s := w.swap.swaps[id];
      if 0 <= s.amountIn <= w.Balance(s.assetIn, w.swap.self) {
        var bank := Pay(w.pool.bank, s.assetIn, w.swap.self, s.relayer.value, s.amountIn).value;
        PoolEffects.PaymentMoves(w.pool.bank, s.assetIn, w.swap.self, s.relayer.value, s.amountIn);
        PoolEffects.ShieldSucceedsIff(w.pool.(bank := bank), {w.swap.self}, w.swap.self, s.assetOut, ClaimItem(s, c));
      }
    }
  }

  /**
    A claim pays the input to the relayer on record and the output into the pool, where it becomes a
    note of the committed owner under the revealed randomness.
  */
  lemma RevealMoves(w: World, id: Digest, c: RevealCall)
    requires RevealAndClaim(w, id, c).Ok?
    ensures id in w.swap.swaps && w.swap.swaps[id].relayer.Some? && w.swap.swaps[id].amountOut >= 0
    ensures var s, (w', index) := w.swap.swaps[id], RevealAndClaim(w, id, c).value;
            && OnlySwap(w, w', id) && w'.swap.swaps[id] == s.(status := Claimed)
            && PaidBoth(w, w', s.assetIn, s.relayer.value, s.amountIn, s.assetOut, w.pool.self, s.amountOut)
            && PoolEffects.SupplyChanged(w.pool, w'.pool, s.assetOut, s.amountOut)
            && PoolEffects.SameSettings(w.pool, w'.pool)
            && index == |w.pool.log.leaves|
            && w'.pool.log.leaves == w.pool.log.leaves
                 + [Notes.Commit(Note(s.amountOut, s.assetOut, c.outRho, c.outRcm, s.outOwnerPk))]
            && w'.pool.nullifiers == w.pool.nullifiers
            && w'.pool.seen == w.pool.seen + {c.outCommitment}
  {
    RevealSucceedsIff(w, id, c);
    var s := w.swap.swaps[id];
    var bank := Pay(w.pool.bank, s.assetIn, w.swap.self, s.relayer.value, s.amountIn).value;
    PoolEffects.PaymentMoves(w.pool.bank, s.assetIn, w.swap.self, s.relayer.value, s.amountIn);
    PoolEffects.ShieldMoves(w.pool.(bank := bank), {w.swap.self}, w.swap.self, s.assetOut, ClaimItem(s, c));
  }

  // ----- unwinding

  ghost predicate CancelAllowed(w: World, id: Digest) {
    && id in w.swap.swaps
    && var s := w.swap.swaps[id];
       s.status == Committed && w.ledger > s.expiry && 0 <= s.amountIn <= w.Balance(s.assetIn, w.swap.self)
  }

  lemma CancelSucceedsIff(w: World, id: Digest)
    ensures CancelSwap(w, id).Ok? <==> CancelAllowed(w, id)
  {
  }

  ghost predicate ReclaimAllowed(w: World, id: Digest) {
    && id in w.swap.swaps
    && var s, self := w.swap.swaps[id], w.swap.self;
       && s.status == Executed && s.relayer.Some?
       && w.ledger > s.expiry + 17_280 && s.expiry + 17_280 <= U32_MAX
       && 0 <= s.amountOut <= w.Balance(s.assetOut, self)
       && 0 <= s.amountIn <= w.Balance(s.assetIn, self)
            + PoolEffects.Share(s.assetOut, self, s.relayer.value, s.amountOut, s.assetIn, self)
  }

  lemma ReclaimSucceedsIff(w: World, id: Digest)
    ensures ReclaimExpiredSwap(w, id).Ok? <==> ReclaimAllowed(w, id)
  {
    if id in w.swap.swaps && w.swap.swaps[id].relayer.Some? {
      var s := w.swap.swaps[id];
      if 0 <= s.amountOut <= w.Balance(s.assetOut, w.swap.self) {
        PoolEffects.PaymentMoves(w.pool.bank, s.assetOut, w.swap.self, s.relayer.value, s.amountOut);
      }
    }
  }

  /** An unexecuted swap was given back: its input to the refund address. */
  ghost predicate Refunded(w: World, w': World, id: Digest) {
    && id in w.swap.swaps && w.swap.swaps[id].status == Committed
    && OnlySwap(w, w', id) && OnlyBalances(w, w')
    && w'.swap.swaps[id] == w.swap.swaps[id].(status := Cancelled)
    && Paid(w, w', w.swap.swaps[id].assetIn, w.swap.self, w.swap.swaps[id].refundTo, w.swap.swaps[id].amountIn)
  }

  /** An executed swap was given back: its output to the relayer, its input to the refund address. */
  ghost predicate Unwound(w: World, w': World, id: Digest) {
    && id in w.swap.swaps
    && var s := w.swap.swaps[id];
       && s.status == Executed && s.relayer.Some?
       && OnlySwap(w, w', id) && OnlyBalances(w, w')
       && w'.swap.swaps[id] == s.(status := Cancelled)
       && PaidBoth(w, w', s.assetOut, s.relayer.value, s.amountOut, s.assetIn, s.refundTo, s.amountIn)
  }

  lemma CancelMoves(w: World, id: Digest)
    requires CancelSwap(w, id).Ok?
    ensures Refunded(w, CancelSwap(w, id).value, id)
  {
    var s := w.swap.swaps[id];
    PoolEffects.PaymentMoves(w.pool.bank, s.assetIn, w.swap.self, s.refundTo, s.amountIn);
  }

  lemma ReclaimMoves(w: World, id: Digest)
    requires ReclaimExpiredSwap(w, id).Ok?
    ensures Unwound(w, ReclaimExpiredSwap(w, id).value, id)
  {
    var s := w.swap.swaps[id];
    var bank := Pay(w.pool.bank, s.assetOut, w.swap.self, s.relayer.value, s.amountOut).value;
    PoolEffects.PaymentMoves(w.pool.bank, s.assetOut, w.swap.self, s.relayer.value, s.amountOut);
    PoolEffects.PaymentMoves(bank, s.assetIn, w.swap.self, s.refundTo, s.amountIn);
  }

  // ----- over whole runs

  /** Only a cancellation or a reclaim makes a swap Cancelled, and each pays everyone back. */
  lemma OnlyUnwindingCancels(w: World, op: Op, id: Digest)
    requires w.pool.log.Valid() && !HasStatus(w, id, Cancelled) && HasStatus(Step(w, op), id, Cancelled)
    ensures Refunded(w, Step(w, op), id) || Unwound(w, Step(w, op), id)
  {
    if op.Cancel? {
      CancelMoves(w, id);
    } else {
      assert op.Reclaim?;
      ReclaimMoves(w, id);
    }
  }

  /**
    A swap that ends up Cancelled was given back by one event of the run, on the terms it was committed
    with: `amountIn` to its refund address and, if a relayer had executed it, the relayer's `amountOut`
    to that relayer.
  */
  lemma CancelledMeansRefunded(w: World, ops: seq<Op>, id: Digest) returns (k: nat)
    requires SwapInv(w) && RunAllowed(w, ops) && id in w.swap.swaps
    requires !HasStatus(w, id, Cancelled) && HasStatus(Run(w, ops), id, Cancelled)
    ensures k < |ops| && id in At(w, ops, k).swap.swaps
    ensures SameTerms(w.swap.swaps[id], At(w, ops, k).swap.swaps[id])
    ensures Refunded(At(w, ops, k), At(w, ops, k + 1), id) || Unwound(At(w, ops, k), At(w, ops, k + 1), id)
  {
    AtEnd(w, ops);
    k := TurningEvent(w, ops, id, Cancelled, |ops|);
    AtNext(w, ops, k);
    AtKeepsTerms(w, ops, id, k);
    OnlyUnwindingCancels(At(w, ops, k), ops[k], id);
  }

  /** Past Committed, with this relayer and output amount on record. */
  predicate Keeps(w: World, id: Digest, relayer: Option<Address>, amountOut: int) {
    && id in w.swap.swaps && w.swap.swaps[id].status != Committed
    && w.swap.swaps[id].relayer == relayer && w.swap.swaps[id].amountOut == amountOut
  }

  /** Once a swap is no longer Committed, its relayer and output amount are settled. */
  lemma StepKeepsRelayer(w: World, op: Op, w': World, id: Digest, relayer: Option<Address>, amountOut: int)
    requires w.pool.log.Valid() && w' == Step(w, op) && Keeps(w, id, relayer, amountOut)
    ensures Keeps(w', id, relayer, amountOut)
  {
    match op
    case Commit(c) =>
    case Execute(auth, i, amount, r) =>
    case Reveal(i, c) =>
    case Cancel(i) =>
    case Reclaim(i) =>
    case _ =>
  }

  predicate HasRelayer(w: World, id: Digest) {
    id in w.swap.swaps && w.swap.swaps[id].relayer.Some?
  }

  /** Between these worlds a committed swap was executed, by the relayer and for the amount `end` has on record. */
  ghost predicate Executes(w: World, w': World, id: Digest, end: Swap) {
    && HasStatus(w, id, Committed)
    && end.relayer.Some? && end.amountOut >= w.swap.swaps[id].minAmountOut
    && FundedBy(w, w', id, end.amountOut, end.relayer.value)
  }

  /** Only an execution puts a relayer on record. */
  lemma OnlyExecuteFunds(w: World, op: Op, id: Digest)
    requires w.pool.log.Valid() && id in w.swap.swaps && !HasRelayer(w, id) && HasRelayer(Step(w, op), id)
    ensures Executes(w, Step(w, op), id, Step(w, op).swap.swaps[id])
  {
    assert op.Execute? && op.id == id;
    ExecuteMoves(w, op.auth, id, op.amountOut, op.relayer);
  }

  lemma {:induction false} RelayerEvent(w: World, ops: seq<Op>, id: Digest, n: nat) returns (k: nat)
    requires SwapInv(w) && RunAllowed(w, ops) && n <= |ops|
    requires !HasRelayer(w, id) && HasRelayer(At(w, ops, n), id)
    ensures k < n && !HasRelayer(At(w, ops, k), id) && HasRelayer(At(w, ops, k + 1), id)
    decreases n
  {
    if HasRelayer(At(w, ops, n - 1), id) {
      k := RelayerEvent(w, ops, id, n - 1);
    } else {
      k := n - 1;
    }
  }

  lemma {:induction false} RelayerStays(
      w: World, ops: seq<Op>, id: Digest, k: nat, n: nat, relayer: Option<Address>, amountOut: int)
    requires SwapInv(w) && RunAllowed(w, ops) && k <= n <= |ops|
    requires Keeps(At(w, ops, k), id, relayer, amountOut)
    ensures Keeps(At(w, ops, n), id, relayer, amountOut)
    decreases n
  {
    if k < n {
      RelayerStays(w, ops, id, k, n - 1, relayer, amountOut);
      AtNext(w, ops, n - 1);
      StepKeepsRelayer(At(w, ops, n - 1), ops[n - 1], At(w, ops, n), id, relayer, amountOut);
    }
  }

  /** The event that puts a relayer on record. */
  lemma FundingEvent(w: World, ops: seq<Op>, id: Digest) returns (k: nat)
    requires SwapInv(w) && RunAllowed(w, ops) && id in w.swap.swaps
    requires !HasRelayer(w, id) && HasRelayer(Run(w, ops), id)
    ensures k < |ops| && id in At(w, ops, k).swap.swaps
    ensures SameTerms(w.swap.swaps[id], At(w, ops, k).swap.swaps[id])
    ensures !HasRelayer(At(w, ops, k), id) && HasRelayer(At(w, ops, k + 1), id)
    ensures At(w, ops, k + 1) == Step(At(w, ops, k), ops[k])
  {
    AtEnd(w, ops);
    k := RelayerEvent(w, ops, id, |ops|);
    AtKeepsTerms(w, ops, id, k);
    AtNext(w, ops, k);
  }

  lemma FundedByEvent(w: World, op: Op, w': World, id: Digest)
    requires w.pool.log.Valid() && id in w.swap.swaps && w' == Step(w, op)
    requires !HasRelayer(w, id) && HasRelayer(w', id)
    ensures Executes(w, w', id, w'.swap.swaps[id]) && w'.swap.swaps[id].status != Committed
  {
    OnlyExecuteFunds(w, op, id);
  }

  lemma ExecutesFor(w: World, w': World, id: Digest, s: Swap, t: Swap)
    requires Executes(w, w', id, s) && t.relayer == s.relayer && t.amountOut == s.amountOut
    ensures Executes(w, w', id, t)
  {
  }

  /**
    A swap with a relayer on record was executed by one event of the run: that relayer paid the recorded
    `amountOut`, at least the committed minimum, into escrow.
  */
  lemma ExecutedMeansFunded(w: World, ops: seq<Op>, id: Digest) returns (k: nat)
    requires SwapInv(w) && RunAllowed(w, ops) && id in w.swap.swaps
    requires !HasRelayer(w, id) && HasRelayer(Run(w, ops), id)
    ensures k < |ops| && id in At(w, ops, k).swap.swaps
    ensures SameTerms(w.swap.swaps[id], At(w, ops, k).swap.swaps[id])
    ensures Executes(At(w, ops, k), At(w, ops, k + 1), id, Run(w, ops).swap.swaps[id])
  {
    k := FundingEvent(w, ops, id);
    var v, v', end := At(w, ops, k), At(w, ops, k + 1), Run(w, ops);
    FundedByEvent(v, ops[k], v', id);
    RelayerStays(w, ops, id, k + 1, |ops|, v'.swap.swaps[id].relayer, v'.swap.swaps[id].amountOut);
    AtEnd(w, ops);
    ExecutesFor(v, v', id, v'.swap.swaps[id], end.swap.swaps[id]);
  }
}
