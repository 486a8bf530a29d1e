/**
  What an ownership proof fixes about a swap, and a swap committed at the last expiry the contract
  admits.
*/
module SwapTerms {
  import opened Wrappers
  import opened MerkleSpec
  import opened NoteTrees
  import opened Notes
  import opened Tokens
  import PoolSpec
  import PoolConservation
  import PoolSystem
  import PoolExits
  import opened SwapSpec
  import opened SwapSafety
  import opened SwapHistory

  // ----- the terms behind an ownership proof

  /**
    Two commits present the pool with the same withdrawal, proof included, exactly if they agree on
    every term but the note binding and the minimum output: the binding tag covers the others.
  */
  lemma ProofFixesTheOtherTerms(self: Address, c: CommitCall, d: CommitCall)
    ensures EscrowCall(self, c) == EscrowCall(self, d)
       <==> d == c.(outNoteBinding := d.outNoteBinding, minAmountOut := d.minAmountOut)
  {
    if EscrowCall(self, c) == EscrowCall(self, d) {
      assert BindingTag(c) == BindingTag(d);
    }
  }

  /** Acceptance of a commit does not depend on those two terms, beyond the sign of the minimum. */
  lemma AcceptanceIgnoresThem(w: World, c: CommitCall, binding: Digest, minimum: int)
    requires w.pool.log.Valid() && minimum >= 0 && CommitSwap(w, c).Ok?
    ensures CommitSwap(w, c.(outNoteBinding := binding, minAmountOut := minimum)).Ok?
  {
    ProofFixesTheOtherTerms(w.swap.self, c, c.(outNoteBinding := binding, minAmountOut := minimum));
  }

  // ----- a swap at the last admitted expiry

  const LAST_EXPIRY: u32 := U32_MAX - CLAIM_WINDOW_LEDGERS

  /**
    Swap the pool's one deposited note, in full, with the last expiry the contract admits; the proof is
    made for the recipient hash of the swap contract and the commit's own tag.
  */
  function LastCommit(pool: Pool, self: Address, asset: Address, assetOut: Address, refundTo: Address): CommitCall {
    var unproved := UnprovedCommit(pool, asset, assetOut, refundTo);
    var note := PoolExits.DepositedNote(asset, Elem(0));
    var change := PoolExits.Change(note, PoolExits.DEPOSIT, Elem(0));
    var spend := SpendWitness(note, Path(Poseidon2, EMPTY_LEAF, pool.log.leaves, TREE_DEPTH, 0), 0);
    unproved.(ownershipProof :=
                Sound(EscrowCall(self, unproved).pub, UnshieldWitness(note.ownerPk.left, spend, change)))
  }

  function UnprovedCommit(pool: Pool, asset: Address, assetOut: Address, refundTo: Address): CommitCall {
    var note := PoolExits.DepositedNote(asset, Elem(0));
    CommitCall(
      Nullifier(note.ownerPk.left, note.rho), Elem(9), asset, assetOut, PoolExits.DEPOSIT,
      TreeRoot(Poseidon2, EMPTY_LEAF, pool.log.leaves, TREE_DEPTH), refundTo, note.ownerPk, Sha256([]), 0,
      Notes.Commit(PoolExits.Change(note, PoolExits.DEPOSIT, Elem(0))), ValueCommit(0, Elem(0)),
      PoolExits.Ciphertext(), Unsound, LAST_EXPIRY)
  }

  lemma LastCommitIsAccepted(w: World, asset: Address, assetOut: Address, refundTo: Address)
    requires SwapInv(w) && PoolExits.HoldsDeposit(w.pool, asset, 0)
    requires !w.swap.paused && w.swap.swaps == map[] && w.ledger < LAST_EXPIRY
    ensures var c := LastCommit(w.pool, w.swap.self, asset, assetOut, refundTo);
            var w' := Step(w, SwapSafety.Commit(c));
            && CommitSwap(w, c).Ok? && w'.swap == w.swap.(swaps := map[SwapIdOf(Elem(9)) := NewSwap(c)])
            && w'.pool.self == w.pool.self && w'.ledger == w.ledger
            && (forall who :: who != w.pool.self && who != w.swap.self ==>
                  w'.Balance(assetOut, who) == w.Balance(assetOut, who))
  {
    var c := LastCommit(w.pool, w.swap.self, asset, assetOut, refundTo);
    var call := EscrowCall(w.swap.self, c);
    EscrowIsExit(w, asset, assetOut, refundTo);
    UnshieldSparesOthers(w.pool, call, asset, w.swap.self);
    assert CommitSwap(w, c).Ok?;
    forall who | who != w.pool.self && who != w.swap.self
      ensures Step(w, SwapSafety.Commit(c)).Balance(assetOut, who) == w.Balance(assetOut, who)
    {
      UnshieldSparesOthers(w.pool, call, assetOut, who);
    }
  }

  lemma EscrowIsExit(w: World, asset: Address, assetOut: Address, refundTo: Address)
    requires SwapInv(w) && PoolExits.HoldsDeposit(w.pool, asset, 0)
    ensures var c := LastCommit(w.pool, w.swap.self, asset, assetOut, refundTo);
            PoolSpec.Unshield(w.pool, EscrowCall(w.swap.self, c)).Ok?
  {
    var c := LastCommit(w.pool, w.swap.self, asset, assetOut, refundTo);
    var note := PoolExits.DepositedNote(asset, Elem(0));
    CommitmentBinds(note);
    assert Open(w.pool.log.leaves[0]) == note;
    assert Notes.Commit(PoolExits.Change(note, PoolExits.DEPOSIT, Elem(0))) != Notes.Commit(note);
    PoolExits.ExitSucceeds(w.pool, 0, w.swap.self, PoolExits.DEPOSIT, Elem(0), BindingTag(c));
    assert EscrowCall(w.swap.self, c)
        == PoolExits.ExitCall(w.pool, 0, w.swap.self, PoolExits.DEPOSIT, Elem(0), BindingTag(c));
  }

  lemma RunCons(w: World, op: Op, ops: seq<Op>)
    requires SwapInv(w) && HostAllows(w, op)
    ensures SwapInv(Step(w, op))
    ensures RunAllowed(Step(w, op), ops) ==>
              RunAllowed(w, [op] + ops) && Run(w, [op] + ops) == Run(Step(w, op), ops)
  {
    StepKeepsInv(w, op);
    assert ([op] + ops)[1..] == ops;
  }

  lemma RunOne(w: World, op: Op)
    requires SwapInv(w) && HostAllows(w, op)
    ensures RunAllowed(w, [op]) && Run(w, [op]) == Step(w, op) && SwapInv(Step(w, op))
  {
    RunCons(w, op, []);
    assert [op] + [] == [op];
  }

  /** The relayer gets one unit of the output asset and is approved; the swap is committed and executed. */
  function CommitAndExecute(
      pool: Pool, self: Address, asset: Address, assetOut: Address, refundTo: Address, relayer: Address): seq<Op>
  {
    [PoolOp(PoolSystem.Outside(pool.bank[(assetOut, relayer) := 1]))]
    + ([SetSwapRelayer(relayer, true)]
       + ([SwapSafety.Commit(LastCommit(pool, self, asset, assetOut, refundTo))]
          + [Execute({relayer}, SwapIdOf(Elem(9)), 1, relayer)]))
  }

  lemma RelayerIsFunded(w: World, asset: Address, assetOut: Address, relayer: Address)
    requires SwapInv(w) && PoolExits.HoldsDeposit(w.pool, asset, 0)
    requires relayer != w.pool.self && relayer != w.swap.self
    ensures var op := PoolOp(PoolSystem.Outside(w.pool.bank[(assetOut, relayer) := 1]));
            && HostAllows(w, op) && PoolExits.HoldsDeposit(Step(w, op).pool, asset, 0)
            && Step(w, op) == w.(pool := w.pool.(bank := w.pool.bank[(assetOut, relayer) := 1]))
  {
  }

  /**
    The input that cannot be reclaimed, as a run: with one deposited note in the pool, a swap is
    committed at the last admitted expiry and executed; in the world reached no ledger whatever lets
    it be reclaimed.
  */
  lemma LastExpirySwapIsStuck(
      pool: Pool, self: Address, asset: Address, assetOut: Address, refundTo: Address, relayer: Address, now: u32)
    requires PoolConservation.Inv(pool) && PoolExits.HoldsDeposit(pool, asset, 0)
    requires self != pool.self && relayer != self && relayer != pool.self
    ensures SwapInv(SwapHistory.Init(pool, self, 0))
    ensures var w0 := SwapHistory.Init(pool, self, 0);
            var ops := CommitAndExecute(pool, self, asset, assetOut, refundTo, relayer);
            RunAllowed(w0, ops)
    ensures var w0 := SwapHistory.Init(pool, self, 0);
            var ops := CommitAndExecute(pool, self, asset, assetOut, refundTo, relayer);
            var w := Run(w0, ops);
            var id := SwapIdOf(Elem(9));
            && SwapInv(w) && id in w.swap.swaps && w.swap.swaps[id].status == Executed
            && w.swap.swaps[id].expiry == LAST_EXPIRY
            && ReclaimExpiredSwap(w.(ledger := now), id).Err?
  {
    var w0 := SwapHistory.Init(pool, self, 0);
    ReachableWorldsAreSolvent(pool, self, 0, [], asset);
    var fund, approve := PoolOp(PoolSystem.Outside(pool.bank[(assetOut, relayer) := 1])), SetSwapRelayer(relayer, true);
    var c := LastCommit(pool, self, asset, assetOut, refundTo);
    var id := SwapIdOf(Elem(9));
    var commit, execute := SwapSafety.Commit(c), Execute({relayer}, id, 1, relayer);
    RelayerIsFunded(w0, asset, assetOut, relayer);
    RunCons(w0, fund, [approve] + ([commit] + [execute]));
    var w1 := Step(w0, fund);
    RunCons(w1, approve, [commit] + [execute]);
    var w2 := Step(w1, approve);
    assert LastCommit(w2.pool, self, asset, assetOut, refundTo) == c;
    RunCons(w2, commit, [execute]);
    LastCommitIsAccepted(w2, asset, assetOut, refundTo);
    var w3 := Step(w2, commit);
    RunOne(w3, execute);
    ExecutedAtLastExpiry(w3, c, id, relayer);
    ReclaimIsReachable(Step(w3, execute), id);
  }

  lemma ExecutedAtLastExpiry(w: World, c: CommitCall, id: Digest, relayer: Address)
    requires w.pool.log.Valid() && !w.swap.paused && relayer in w.swap.relayers && w.ledger <= c.expiry
    requires w.swap.swaps == map[id := NewSwap(c)] && c.minAmountOut <= 1
    requires w.Balance(c.assetOut, relayer) >= 1
    ensures var w' := Step(w, Execute({relayer}, id, 1, relayer));
            id in w'.swap.swaps && w'.swap.swaps[id].status == Executed && w'.swap.swaps[id].expiry == c.expiry
  {
    assert ExecuteSwap(w, {relayer}, id, 1, relayer).Ok?;
  }
}
