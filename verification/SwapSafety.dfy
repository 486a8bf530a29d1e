/** Solvency, single settlement and unwinding of swaps, over every interleaving with the pool. */
module SwapSafety {
  import opened Wrappers
  import opened Notes
  import opened Tokens
  import PoolSpec
  import PoolConservation
  import PoolSystem
  import opened SwapSpec

  // ----- what the contract owes

  /** What a swap entitles its parties to, in one asset. */
  function OwedBy(s: Swap, asset: Address): int {
    (if (s.status == Committed || s.status == Executed) && s.assetIn == asset then s.amountIn else 0)
    + (if s.status == Executed && s.assetOut == asset then s.amountOut else 0)
  }

  ghost function Owed(swaps: map<Digest, Swap>, asset: Address): int
    decreases |swaps|
  {
    if swaps == map[] then 0
    else
      var id :| id in swaps;
      OwedBy(swaps[id], asset) + Owed(swaps - {id}, asset)
  }

  lemma {:induction false} OwedSplit(swaps: map<Digest, Swap>, id: Digest, asset: Address)
    requires id in swaps
    ensures Owed(swaps, asset) == OwedBy(swaps[id], asset) + Owed(swaps - {id}, asset)
    decreases |swaps|
  {
    var k :| k in swaps && Owed(swaps, asset) == OwedBy(swaps[k], asset) + Owed(swaps - {k}, asset);
    if k != id {
      OwedSplit(swaps - {k}, id, asset);
      OwedSplit(swaps - {id}, k, asset);
      assert swaps - {k} - {id} == swaps - {id} - {k};
    }
  }

  /** Saving a swap changes the total by the change in that swap alone. */
  lemma OwedSave(swaps: map<Digest, Swap>, id: Digest, s: Swap, asset: Address)
    ensures Owed(swaps[id := s], asset)
         == Owed(swaps, asset) + OwedBy(s, asset) - (if id in swaps then OwedBy(swaps[id], asset) else 0)
  {
    var saved := swaps[id := s];
    OwedSplit(saved, id, asset);
    if id in swaps {
      OwedSplit(swaps, id, asset);
      assert saved - {id} == swaps - {id};
    } else {
      assert saved - {id} == swaps;
    }
  }

  lemma {:induction false} OwedCovers(swaps: map<Digest, Swap>, id: Digest, asset: Address)
    requires id in swaps && forall k :: k in swaps ==> SwapOk(k, swaps[k])
    ensures OwedBy(swaps[id], asset) <= Owed(swaps, asset)
  {
    OwedSplit(swaps, id, asset);
    OwedNonNegative(swaps - {id}, asset);
  }

  lemma {:induction false} OwedNonNegative(swaps: map<Digest, Swap>, asset: Address)
    requires forall k :: k in swaps ==> SwapOk(k, swaps[k])
    ensures Owed(swaps, asset) >= 0
    decreases |swaps|
  {
    if swaps != map[] {
      var id :| id in swaps && Owed(swaps, asset) == OwedBy(swaps[id], asset) + Owed(swaps - {id}, asset);
      assert SwapOk(id, swaps[id]);
      assert OwedBy(swaps[id], asset) >= 0;
      OwedNonNegative(swaps - {id}, asset);
      assert Owed(swaps - {id}, asset) >= 0;
    }
  }

  // ----- the invariant

  predicate SwapOk(id: Digest, s: Swap) {
    && id == SwapIdOf(s.intentCommitment)
    && s.amountIn > 0 && s.minAmountOut >= 0
    && s.expiry <= U32_MAX - CLAIM_WINDOW_LEDGERS
    && (s.status == Executed || s.status == Claimed ==>
          s.relayer.Some? && s.amountOut > 0 && s.amountOut >= s.minAmountOut)
  }

  ghost predicate Solvent(w: World) {
    forall asset :: SolventIn(w, asset)
  }

  ghost predicate SolventIn(w: World, asset: Address) {
    Owed(w.swap.swaps, asset) <= w.Balance(asset, w.swap.self)
  }

  /** No relayer on record is one of the two contracts. */
  ghost predicate RelayersAreOutsiders(w: World) {
    forall id :: id in w.swap.swaps && w.swap.swaps[id].relayer.Some? ==>
      w.swap.swaps[id].relayer.value != w.swap.self && w.swap.swaps[id].relayer.value != w.pool.self
  }

  ghost predicate SwapInv(w: World) {
    && PoolConservation.Inv(w.pool)
    && w.swap.self != w.pool.self
    && (forall id :: id in w.swap.swaps ==> SwapOk(id, w.swap.swaps[id]))
    && RelayersAreOutsiders(w)
    && Solvent(w)
  }

  // ----- events

  datatype Op =
    | Commit(commit: CommitCall)
    | Execute(auth: set<Address>, id: Digest, amountOut: int, relayer: Address)
    | Reveal(id: Digest, claim: RevealCall)
    | Cancel(id: Digest)
    | Reclaim(id: Digest)
    | PoolOp(op: PoolSystem.Op)
    | Tick(ledger: u32)
    | SetSwapPaused(paused: bool)
    | SetSwapRelayer(relayer: Address, approved: bool)

  /** Neither contract authorizes calls made by others, and nothing outside debits the swap contract. */
  ghost predicate HostAllows(w: World, op: Op) {
    match op
    case Execute(auth, _, _, _) => w.swap.self !in auth && w.pool.self !in auth
    case PoolOp(p) =>
      && PoolSystem.HostAllows(w.pool.self, p)
      && ((p.DoShield? || p.DoShieldBatch? || p.DoTransfer? || p.DoTransfer4?) ==> w.swap.self !in p.auth)
      && (p.Outside? ==> forall a :: w.Balance(a, w.swap.self) <= BalanceOf(p.bank, a, w.swap.self))
    case _ => true
  }

  /** One event; a call that panics changes nothing. */
  ghost function Step(w: World, op: Op): World
    requires w.pool.log.Valid()
  {
    match op
    case Commit(c) => var r := CommitSwap(w, c); if r.Ok? then r.value.0 else w
    case Execute(auth, id, amount, relayer) =>
      var r := ExecuteSwap(w, auth, id, amount, relayer); if r.Ok? then r.value else w
    case Reveal(id, c) => var r := RevealAndClaim(w, id, c); if r.Ok? then r.value.0 else w
    case Cancel(id) => var r := CancelSwap(w, id); if r.Ok? then r.value else w
    case Reclaim(id) => var r := ReclaimExpiredSwap(w, id); if r.Ok? then r.value else w
    case PoolOp(p) => w.(pool := PoolSystem.Step(w.pool, p))
    case Tick(l) => if l >= w.ledger then w.(ledger := l) else w
    case SetSwapPaused(b) => w.(swap := w.swap.(paused := b))
    case SetSwapRelayer(r, on) =>
      if w.swap.paused then w else w.(swap := w.swap.(relayers := Toggle(w.swap.relayers, r, on)))
  }

  // ----- each event keeps the invariant

  lemma UnshieldSparesOthers(s: Pool, c: PoolSpec.UnshieldCall, asset: Address, who: Address)
    requires s.log.Valid() && PoolSpec.Unshield(s, c).Ok? && who != s.self
    ensures var p := PoolSpec.Payout(c.pub.pubValue, s.Balance(c.pub.pubAsset), s.Supply(c.pub.pubAsset));
            BalanceOf(PoolSpec.Unshield(s, c).value.0.bank, asset, who)
            == BalanceOf(s.bank, asset, who) + (if asset == c.pub.pubAsset && who == c.payee then p else 0)
  {
    var p := PoolSpec.Payout(c.pub.pubValue, s.Balance(c.pub.pubAsset), s.Supply(c.pub.pubAsset));
    PayMoves(s.bank, c.pub.pubAsset, s.self, c.payee, p, asset, who);
  }

  /** The pool takes nothing from anyone who did not authorize the call. */
  lemma PoolSparesOthers(s: Pool, op: PoolSystem.Op, asset: Address, who: Address)
    requires PoolConservation.Inv(s) && PoolSystem.HostAllows(s.self, op) && who != s.self
    requires (op.DoShield? || op.DoShieldBatch? || op.DoTransfer? || op.DoTransfer4?) ==> who !in op.auth
    requires op.Outside? ==> BalanceOf(s.bank, asset, who) <= BalanceOf(op.bank, asset, who)
    ensures BalanceOf(s.bank, asset, who) <= BalanceOf(PoolSystem.Step(s, op).bank, asset, who)
  {
    match op
    case DoShield(auth, payer, a, item) =>
      if PoolSpec.Shield(s, auth, payer, a, item).Ok? {
        PayMoves(s.bank, a, payer, s.self, item.amount, asset, who);
      }
    case DoShieldBatch(auth, payer, a, items) =>
      var r := PoolSpec.ShieldBatch(s, auth, payer, a, items);
      if r.Ok? {
        var total := PoolSpec.CheckBatch(s.minShield, s.seen, 0, a, items).value.1;
        PayMoves(s.bank, a, payer, s.self, total, asset, who);
      }
    case DoTransfer(auth, c) => TransferSparesOthers(s, auth, 2, c, asset, who);
    case DoTransfer4(auth, c) => TransferSparesOthers(s, auth, 4, c, asset, who);
    case DoUnshield(c) =>
      if PoolSpec.Unshield(s, c).Ok? { UnshieldSparesOthers(s, c, asset, who); }
    case _ =>
  }

  lemma TransferSparesOthers(s: Pool, auth: set<Address>, n: nat, c: PoolSpec.TransferCall, asset: Address, who: Address)
    requires s.log.Valid() && who != s.self
    ensures PoolSpec.Transfer(s, auth, n, c).Ok? ==>
              BalanceOf(s.bank, asset, who) <= BalanceOf(PoolSpec.Transfer(s, auth, n, c).value.0.bank, asset, who)
  {
    if PoolSpec.Transfer(s, auth, n, c).Ok? && c.pub.fee > 0 {
      PayMoves(s.bank, c.pub.asset, s.self, c.relayer.value, c.pub.fee, asset, who);
    }
  }

  lemma CommitKeepsSolvent(w: World, c: CommitCall, asset: Address)
    requires w.pool.log.Valid() && w.swap.self != w.pool.self && SolventIn(w, asset) && CommitSwap(w, c).Ok?
    ensures SolventIn(CommitSwap(w, c).value.0, asset)
  {
    OwedSave(w.swap.swaps, SwapIdOf(c.intentCommitment), NewSwap(c), asset);
    UnshieldSparesOthers(w.pool, EscrowCall(w.swap.self, c), asset, w.swap.self);
  }

  lemma CommitKeepsInv(w: World, c: CommitCall)
    requires SwapInv(w) && CommitSwap(w, c).Ok?
    ensures SwapInv(CommitSwap(w, c).value.0)
  {
    PoolConservation.UnshieldKeepsInv(w.pool, EscrowCall(w.swap.self, c));
    forall asset
      ensures SolventIn(CommitSwap(w, c).value.0, asset)
    {
      assert SolventIn(w, asset);
      CommitKeepsSolvent(w, c, asset);
    }
  }

  /** Only the balances of the pool's state changed. */
  lemma PaidPoolInv(s: Pool, bank: Bank)
    requires PoolConservation.Inv(s)
    ensures PoolConservation.Inv(s.(bank := bank))
  {
    PoolSystem.InvIgnoresTheRest(s, s.(bank := bank));
  }

  lemma ExecuteKeepsInv(w: World, auth: set<Address>, id: Digest, amountOut: int, relayer: Address)
    requires SwapInv(w) && HostAllows(w, Execute(auth, id, amountOut, relayer))
    requires ExecuteSwap(w, auth, id, amountOut, relayer).Ok?
    ensures SwapInv(ExecuteSwap(w, auth, id, amountOut, relayer).value)
  {
    var w' := ExecuteSwap(w, auth, id, amountOut, relayer).value;
    var s := w.swap.swaps[id];
    PaidPoolInv(w.pool, w'.pool.bank);
    forall asset
      ensures SolventIn(w', asset)
    {
      assert SolventIn(w, asset);
      OwedSave(w.swap.swaps, id, w'.swap.swaps[id], asset);
      PayMoves(w.pool.bank, s.assetOut, relayer, w.swap.self, amountOut, asset, w.swap.self);
    }
  }

  lemma CancelKeepsInv(w: World, id: Digest)
    requires SwapInv(w) && CancelSwap(w, id).Ok?
    ensures SwapInv(CancelSwap(w, id).value)
  {
    var w' := CancelSwap(w, id).value;
    var s := w.swap.swaps[id];
    PaidPoolInv(w.pool, w'.pool.bank);
    forall asset
      ensures SolventIn(w', asset)
    {
      assert SolventIn(w, asset);
      OwedSave(w.swap.swaps, id, w'.swap.swaps[id], asset);
      PayMoves(w.pool.bank, s.assetIn, w.swap.self, s.refundTo, s.amountIn, asset, w.swap.self);
    }
  }

  lemma ReclaimKeepsInv(w: World, id: Digest)
    requires SwapInv(w) && ReclaimExpiredSwap(w, id).Ok?
    ensures SwapInv(ReclaimExpiredSwap(w, id).value)
  {
    var w' := ReclaimExpiredSwap(w, id).value;
    var s := w.swap.swaps[id];
    var bank1 := Pay(w.pool.bank, s.assetOut, w.swap.self, s.relayer.value, s.amountOut).value;
    PaidPoolInv(w.pool, w'.pool.bank);
    forall asset
      ensures SolventIn(w', asset)
    {
      assert SolventIn(w, asset);
      OwedSave(w.swap.swaps, id, w'.swap.swaps[id], asset);
      PayMoves(w.pool.bank, s.assetOut, w.swap.self, s.relayer.value, s.amountOut, asset, w.swap.self);
      PayMoves(bank1, s.assetIn, w.swap.self, s.refundTo, s.amountIn, asset, w.swap.self);
    }
  }

  lemma RevealKeepsSolvent(w: World, id: Digest, c: RevealCall, asset: Address)
    requires w.swap.self != w.pool.self && SolventIn(w, asset) && RevealAndClaim(w, id, c).Ok?
    requires w.swap.swaps[id].relayer.value != w.swap.self && w.swap.swaps[id].amountIn >= 0
    ensures SolventIn(RevealAndClaim(w, id, c).value.0, asset)
  {
    var s := w.swap.swaps[id];
    var bank1 := Pay(w.pool.bank, s.assetIn, w.swap.self, s.relayer.value, s.amountIn).value;
    OwedSave(w.swap.swaps, id, s.(status := Claimed), asset);
    PayMoves(w.pool.bank, s.assetIn, w.swap.self, s.relayer.value, s.amountIn, asset, w.swap.self);
    PayMoves(bank1, s.assetOut, w.swap.self, w.pool.self, s.amountOut, asset, w.swap.self);
  }

  lemma RevealKeepsInv(w: World, id: Digest, c: RevealCall)
    requires SwapInv(w) && RevealAndClaim(w, id, c).Ok?
    ensures SwapInv(RevealAndClaim(w, id, c).value.0)
  {
    var s := w.swap.swaps[id];
    var bank1 := Pay(w.pool.bank, s.assetIn, w.swap.self, s.relayer.value, s.amountIn).value;
    PaidPoolInv(w.pool, bank1);
    PoolConservation.ShieldKeepsInv(
      w.pool.(bank := bank1), {w.swap.self}, w.swap.self, s.assetOut, ClaimItem(s, c));
    forall asset
      ensures SolventIn(RevealAndClaim(w, id, c).value.0, asset)
    {
      assert SolventIn(w, asset);
      RevealKeepsSolvent(w, id, c, asset);
    }
  }

  lemma PoolOpKeepsInv(w: World, op: PoolSystem.Op)
    requires SwapInv(w) && HostAllows(w, PoolOp(op))
    ensures SwapInv(Step(w, PoolOp(op)))
  {
    PoolSystem.StepKeepsInv(w.pool, op);
    forall asset
      ensures SolventIn(Step(w, PoolOp(op)), asset)
    {
      assert SolventIn(w, asset);
      PoolSparesOthers(w.pool, op, asset, w.swap.self);
    }
  }

  /** The contracts' addresses never change. */
  lemma StepKeepsSelf(w: World, op: Op)
    requires w.pool.log.Valid()
    ensures Step(w, op).swap.self == w.swap.self && Step(w, op).pool.self == w.pool.self
  {
    if op.PoolOp? {
      PoolSystem.StepKeepsSelf(w.pool, op.op);
    }
  }

  /** Time and settings move no value. */
  lemma SettingsKeepInv(w: World, op: Op)
    requires SwapInv(w) && (op.Tick? || op.SetSwapPaused? || op.SetSwapRelayer?)
    ensures SwapInv(Step(w, op))
  {
    forall asset
      ensures SolventIn(Step(w, op), asset)
    {
      assert SolventIn(w, asset);
    }
  }

  lemma StepKeepsInv(w: World, op: Op)
    requires SwapInv(w) && HostAllows(w, op)
    ensures SwapInv(Step(w, op))
    ensures Step(w, op).swap.self == w.swap.self && Step(w, op).pool.self == w.pool.self
  {
    StepKeepsSelf(w, op);
    match op
    case Commit(c) => if CommitSwap(w, c).Ok? { CommitKeepsInv(w, c); }
    case Execute(auth, id, amount, relayer) =>
      if ExecuteSwap(w, auth, id, amount, relayer).Ok? { ExecuteKeepsInv(w, auth, id, amount, relayer); }
    case Reveal(id, c) => if RevealAndClaim(w, id, c).Ok? { RevealKeepsInv(w, id, c); }
    case Cancel(id) => if CancelSwap(w, id).Ok? { CancelKeepsInv(w, id); }
    case Reclaim(id) => if ReclaimExpiredSwap(w, id).Ok? { ReclaimKeepsInv(w, id); }
    case PoolOp(p) => PoolOpKeepsInv(w, p);
    case _ => SettingsKeepInv(w, op);
  }
}
