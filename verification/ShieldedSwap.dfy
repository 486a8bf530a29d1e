/**
  The swap contract with its storage, calling a pool object. Each entrypoint does what `SwapSpec`
  says when that succeeds, and otherwise changes nothing: a panic reverts the call, so a method
  that has already written keeps a snapshot and restores it.
*/
module ShieldedSwaps {
  import opened Wrappers
  import opened Notes
  import opened Tokens
  import opened ShieldedTokens
  import PoolSpec
  import opened SwapSpec
  import SwapSafety
  import SwapHistory

  /** The call succeeded as `spec` says, or it failed, as `spec` does, and changed nothing. */
  ghost predicate Settles(spec: Result<World, Error>, before: World, ok: bool, after: World) {
    && (ok <==> spec.Ok?)
    && after == if ok then spec.value else before
  }

  class ShieldedSwap {
    const self: Address
    const token: ShieldedToken
    const tokens: TokenContracts

    var paused: bool
    var relayers: set<Address>
    var swaps: map<Digest, Swap>

    ghost predicate Valid()
      reads this, token, token.tree
    {
      token.Valid() && token.tokens == tokens && self != token.self
    }

    ghost function Contract(): SwapContract
      reads this
    {
      SwapContract(self, paused, relayers, swaps)
    }

    /** Both contracts and the balances, as seen at `ledger`. */
    ghost function State(ledger: u32): World
      reads this, token, token.tree, tokens
      requires token.tokens == tokens
    {
      World(token.State(), Contract(), ledger)
    }

    constructor (self: Address, token: ShieldedToken)
      requires token.Valid() && self != token.self
      ensures Valid() && this.token == token && Contract() == SwapContract(self, false, {}, map[])
    {
      this.self, this.token, this.tokens := self, token, token.tokens;
      paused, relayers, swaps := false, {}, map[];
    }

    /**
      Escrow a note's value. Under a custody shortfall the payout would fall short of `amountIn` and
      the call would panic after the withdrawal; the model refuses before making it.
    */
    method CommitSwap(ledger: u32, c: CommitCall) returns (ok: bool)
      requires Valid()
      modifies this, token, token.tree, tokens
      ensures Valid()
      ensures var spec := SwapSpec.CommitSwap(old(State(ledger)), c);
              && (ok <==> spec.Ok?)
              && State(ledger) == if ok then spec.value.0 else old(State(ledger))
    {
      ghost var before := State(ledger);
      var passes := CheckTerms(ledger, c);
      if !passes {
        return false;
      }
      EscrowIsWholeOrRefused(before, c);
      var shortfall := token.CustodyShortfall(c.assetIn);
      if shortfall > 0 {
        return false;
      }
      var r := token.Unshield(EscrowCall(self, c));
      if r.Err? {
        return false;
      }
      swaps := swaps[SwapIdOf(c.intentCommitment) := NewSwap(c)];
      ok := true;
    }

    method CheckTerms(ledger: u32, c: CommitCall) returns (ok: bool)
      requires Valid()
      ensures ok <==> CheckCommit(State(ledger), c).Pass?
    {
      ok := !paused && c.expiry > ledger && c.minAmountOut >= 0 && c.expiry <= U32_MAX - CLAIM_WINDOW_LEDGERS
         && c.amountIn > 0 && SwapIdOf(c.intentCommitment) !in swaps;
    }

    method ExecuteSwap(ledger: u32, auth: set<Address>, id: Digest, amountOut: int, relayer: Address) returns (ok: bool)
      requires Valid()
      modifies this, tokens
      ensures Valid()
      ensures Settles(SwapSpec.ExecuteSwap(old(State(ledger)), auth, id, amountOut, relayer),
                      old(State(ledger)), ok, State(ledger))
    {
      if paused || relayer !in auth || relayer !in relayers || amountOut <= 0 || id !in swaps {
        return false;
      }
      var s := swaps[id];
      if s.status != Committed || ledger > s.expiry || amountOut < s.minAmountOut {
        return false;
      }
      var snapshot := swaps;
      swaps := swaps[id := s.(status := Executed, amountOut := amountOut, relayer := Some(relayer))];
      ok := tokens.Transfer(s.assetOut, relayer, self, amountOut);
      if !ok {
        swaps := snapshot;
      }
    }

    method RevealAndClaim(ledger: u32, id: Digest, c: RevealCall) returns (ok: bool, leafIndex: nat)
      requires Valid() && (id in swaps ==> SwapSafety.SwapOk(id, swaps[id]))
      modifies this, token, token.tree, tokens
      ensures Valid()
      ensures var spec := SwapSpec.RevealAndClaim(old(State(ledger)), id, c);
              && (ok <==> spec.Ok?)
              && (ok ==> State(ledger) == spec.value.0 && leafIndex == spec.value.1)
              && (!ok ==> State(ledger) == old(State(ledger)))
    {
      ok, leafIndex := false, 0;
      var checked := CheckClaim(ledger, id, c);
      if checked {
        ok, leafIndex := SettleClaim(ledger, id, c);
      }
    }

    /** A claim whose checks passed: pay the relayer, then shield the claimant's note. */
    method SettleClaim(ghost ledger: u32, id: Digest, c: RevealCall) returns (ok: bool, leafIndex: nat)
      requires Valid() && id in swaps && swaps[id].relayer.Some? && swaps[id].amountIn >= 0
      modifies this, token, token.tree, tokens
      ensures Valid()
      ensures var spec := SwapSpec.SettleClaim(old(State(ledger)), id, c);
              && (ok <==> spec.Ok?)
              && (ok ==> State(ledger) == spec.value.0 && leafIndex == spec.value.1)
              && (!ok ==> State(ledger) == old(State(ledger)))
    {
      ok, leafIndex := false, 0;
      var s := swaps[id];
      var snapshot, balances := swaps, tokens.balances;
      swaps := swaps[id := s.(status := Claimed)];
      var paid := tokens.Transfer(s.assetIn, self, s.relayer.value, s.amountIn);
      if !paid {
        swaps := snapshot;
        return;
      }
      var r := token.Shield({self}, self, s.assetOut, ClaimItem(s, c));
      if r.Err? {
        swaps, tokens.balances := snapshot, balances;
        return;
      }
      ok, leafIndex := true, r.value;
    }

    method CheckClaim(ghost ledger: u32, id: Digest, c: RevealCall) returns (ok: bool)
      requires Valid()
      ensures ok <==> CheckReveal(State(ledger), id, c).Pass?
    {
      if paused || id !in swaps {
        return false;
      }
      var s := swaps[id];
      ok := s.status == Executed
         && c.outOwnerPk == s.outOwnerPk
         && OutNoteBinding(c.outRho, c.outRcm) == s.outNoteBinding
         && c.fairnessPub.intentCommitment == s.intentCommitment
         && c.fairnessPub.assetIn == s.assetIn
         && c.fairnessPub.assetOut == s.assetOut
         && c.fairnessPub.amountOut == s.amountOut
         && c.fairnessPub.minAmountOut == s.minAmountOut
         && c.fairnessAccepted;
    }

    method CancelSwap(ledger: u32, id: Digest) returns (ok: bool)
      requires Valid() && (id in swaps ==> SwapSafety.SwapOk(id, swaps[id]))
      modifies this, tokens
      ensures Valid()
      ensures Settles(SwapSpec.CancelSwap(old(State(ledger)), id), old(State(ledger)), ok, State(ledger))
    {
      if id !in swaps {
        return false;
      }
      var s := swaps[id];
      if s.status != Committed || ledger <= s.expiry {
        return false;
      }
      var snapshot := swaps;
      swaps := swaps[id := s.(status := Cancelled)];
      ok := tokens.Transfer(s.assetIn, self, s.refundTo, s.amountIn);
      if !ok {
        swaps := snapshot;
      }
    }

    method ReclaimExpiredSwap(ledger: u32, id: Digest) returns (ok: bool)
      requires Valid() && (id in swaps ==> SwapSafety.SwapOk(id, swaps[id]))
      modifies this, tokens
      ensures Valid()
      ensures Settles(SwapSpec.ReclaimExpiredSwap(old(State(ledger)), id), old(State(ledger)), ok, State(ledger))
    {
      if id !in swaps {
        return false;
      }
      var s := swaps[id];
      if s.status != Executed || s.expiry + CLAIM_WINDOW_LEDGERS > U32_MAX
         || ledger <= s.expiry + CLAIM_WINDOW_LEDGERS {
        return false;
      }
      var snapshot, balances := swaps, tokens.balances;
      swaps := swaps[id := s.(status := Cancelled)];
      ok := tokens.Transfer(s.assetOut, self, s.relayer.value, s.amountOut);
      if ok {
        ok := tokens.Transfer(s.assetIn, self, s.refundTo, s.amountIn);
      }
      if !ok {
        swaps, tokens.balances := snapshot, balances;
      }
    }
  }

  /** An accepted commit was paid in full, so it happens only without a shortfall, and then always. */
  lemma EscrowIsWholeOrRefused(w: World, c: CommitCall)
    requires w.pool.log.Valid() && w.swap.self != w.pool.self && CheckCommit(w, c).Pass?
    ensures SwapSpec.CommitSwap(w, c).Ok? <==>
              && w.pool.CustodyShortfall(c.assetIn) == 0
              && PoolSpec.Unshield(w.pool, EscrowCall(w.swap.self, c)).Ok?
  {
    var call := EscrowCall(w.swap.self, c);
    if PoolSpec.Unshield(w.pool, call).Ok? {
      SwapSafety.UnshieldSparesOthers(w.pool, call, c.assetIn, w.swap.self);
      if w.pool.Balance(c.assetIn) < w.pool.Supply(c.assetIn) {
        SwapHistory.PartialPayout(c.amountIn, w.pool.Balance(c.assetIn), w.pool.Supply(c.assetIn));
      }
    }
  }
}
