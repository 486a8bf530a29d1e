/**
  The commit-reveal swap contract as a state machine beside the pool it calls. A `World` is one
  ledger's state of both contracts and of the token balances (kept in the pool's `bank`).
*/
module SwapSpec {
  import opened Wrappers
  import opened Notes
  import opened Tokens
  import PoolSpec

  const CLAIM_WINDOW_LEDGERS: nat := 17_280

  type Pool = PoolSpec.Pool

  /** SHA-256, free of collisions. */
  datatype Digest = Sha256(preimage: seq<Field>)

  function SwapIdOf(intentCommitment: Field): Digest { Sha256([intentCommitment]) }

  function OutNoteBinding(outRho: Field, outRcm: Field): Digest { Sha256([outRho, outRcm]) }

  datatype SwapStatus = Committed | Executed | Claimed | Cancelled

  datatype Swap = Swap(
    intentCommitment: Field,
    nullifierIn: Field,
    expiry: nat,
    status: SwapStatus,
    amountIn: int,
    amountOut: int,
    assetIn: Address,
    assetOut: Address,
    refundTo: Address,
    outOwnerPk: Field,
    outNoteBinding: Digest,
    relayer: Option<Address>,
    minAmountOut: int)

  datatype SwapContract = SwapContract(
    self: Address,
    paused: bool,
    relayers: set<Address>,
    swaps: map<Digest, Swap>)

  datatype World = World(pool: Pool, swap: SwapContract, ledger: u32) {
    function Balance(asset: Address, who: Address): nat {
      BalanceOf(pool.bank, asset, who)
    }

    function Save(id: Digest, s: Swap): World {
      this.(swap := swap.(swaps := swap.swaps[id := s]))
    }

    /** A token transfer out of the swap contract or into it. */
    function Transfer(asset: Address, payer: Address, payee: Address, amount: int): Result<World, Error> {
      if amount < 0 then Err(TransferFailed)
      else
        var paid := Pay(pool.bank, asset, payer, payee, amount);
        if paid.None? then Err(TransferFailed) else Ok(this.(pool := pool.(bank := paid.value)))
    }
  }

  datatype Error =
    | Paused | ExpiryNotInFuture | NegativeMinimum | ExpiryTooLate | NonPositiveAmount | AlreadyCommitted
    | PoolRefused(cause: PoolSpec.Error) | EscrowShort | Unauthorized | RelayerNotApproved | SwapNotFound
    | WrongStatus | Expired | BelowMinimum | OwnerMismatch | NoteBindingMismatch | FairnessMismatch
    | InvalidFairnessProof | NotYetExpired | DeadlineOverflow | TransferFailed

  // ----- commit

  datatype CommitCall = CommitCall(
    nullifierIn: Field,
    intentCommitment: Field,
    assetIn: Address,
    assetOut: Address,
    amountIn: int,
    anchor: Field,
    refundTo: Address,
    outOwnerPk: Field,
    outNoteBinding: Digest,
    minAmountOut: int,
    changeCommitment: Field,
    changeValueCommit: Field,
    encryptedChangeNote: seq<byte>,
    ownershipProof: Proof<UnshieldPublicInputs, UnshieldWitness>,
    expiry: u32)

  /** Ties the ownership proof to the intent, the refund address, the owner key, asset and expiry. */
  function BindingTag(c: CommitCall): Field {
    var base := Poseidon2(c.intentCommitment, AddressField(c.refundTo));
    var assetAndExpiry := Poseidon2(AddressField(c.assetOut), Elem(c.expiry));
    Poseidon2(base, Poseidon2(c.outOwnerPk, assetAndExpiry))
  }

  /** The withdrawal that moves the committed note into escrow. */
  function EscrowCall(self: Address, c: CommitCall): PoolSpec.UnshieldCall {
    PoolSpec.UnshieldCall(
      c.nullifierIn, self, BindingTag(c), c.changeCommitment, c.encryptedChangeNote, c.ownershipProof,
      UnshieldPublicInputs(c.anchor, c.nullifierIn, c.amountIn, c.assetIn,
                           Poseidon2(AddressField(self), BindingTag(c)), c.changeCommitment, c.changeValueCommit))
  }

  function NewSwap(c: CommitCall): Swap {
    Swap(c.intentCommitment, c.nullifierIn, c.expiry, Committed, c.amountIn, 0, c.assetIn, c.assetOut,
         c.refundTo, c.outOwnerPk, c.outNoteBinding, None, c.minAmountOut)
  }

  function CheckCommit(w: World, c: CommitCall): Guard<Error> {
    if w.swap.paused then Fail(Paused)
    else if c.expiry <= w.ledger then Fail(ExpiryNotInFuture)
    else if c.minAmountOut < 0 then Fail(NegativeMinimum)
    else if c.expiry > U32_MAX - CLAIM_WINDOW_LEDGERS then Fail(ExpiryTooLate)
    else if c.amountIn <= 0 then Fail(NonPositiveAmount)
    else if SwapIdOf(c.intentCommitment) in w.swap.swaps then Fail(AlreadyCommitted)
    else Pass
  }

  ghost function CommitSwap(w: World, c: CommitCall): Result<(World, Digest), Error>
    requires w.pool.log.Valid()
  {
    var checked := CheckCommit(w, c);
    :- checked;
    var r := PoolSpec.Unshield(w.pool, EscrowCall(w.swap.self, c));
    if r.Err? then Err(PoolRefused(r.error))
    else
      var w' := w.(pool := r.value.0);
      :- Need(w'.Balance(c.assetIn, w.swap.self) - w.Balance(c.assetIn, w.swap.self) == c.amountIn, EscrowShort);
      var id := SwapIdOf(c.intentCommitment);
      Ok((w'.Save(id, NewSwap(c)), id))
  }

  // ----- execute

  function CheckExecute(w: World, auth: set<Address>, id: Digest, amountOut: int, relayer: Address): Guard<Error> {
    if w.swap.paused then Fail(Paused)
    else if relayer !in auth then Fail(Unauthorized)
    else if relayer !in w.swap.relayers then Fail(RelayerNotApproved)
    else if amountOut <= 0 then Fail(NonPositiveAmount)
    else if id !in w.swap.swaps then Fail(SwapNotFound)
    else if w.swap.swaps[id].status != Committed then Fail(WrongStatus)
    else if w.ledger > w.swap.swaps[id].expiry then Fail(Expired)
    else if amountOut < w.swap.swaps[id].minAmountOut then Fail(BelowMinimum)
    else Pass
  }

  function ExecuteSwap(w: World, auth: set<Address>, id: Digest, amountOut: int, relayer: Address): Result<World, Error> {
    var checked := CheckExecute(w, auth, id, amountOut, relayer);
    :- checked;
    var s := w.swap.swaps[id];
    var s' := s.(status := Executed, amountOut := amountOut, relayer := Some(relayer));
    w.Save(id, s').Transfer(s.assetOut, relayer, w.swap.self, amountOut)
  }

  // ----- reveal

  datatype FairnessPublicInputs = FairnessPublicInputs(
    intentCommitment: Field,
    assetIn: Address,
    assetOut: Address,
    amountOut: int,
    minAmountOut: int)

  datatype RevealCall = RevealCall(
    outRho: Field,
    outRcm: Field,
    outOwnerPk: Field,
    outCommitment: Field,
    outValueCommit: Field,
    encryptedNote: seq<byte>,
    fairnessAccepted: bool,
    fairnessPub: FairnessPublicInputs,
    shieldProof: Proof<ShieldStatement, Note>)

  function CheckReveal(w: World, id: Digest, c: RevealCall): Guard<Error> {
    if w.swap.paused then Fail(Paused)
    else if id !in w.swap.swaps then Fail(SwapNotFound)
    else
      var s := w.swap.swaps[id];
      if s.status != Executed then Fail(WrongStatus)
      else if c.outOwnerPk != s.outOwnerPk then Fail(OwnerMismatch)
      else if OutNoteBinding(c.outRho, c.outRcm) != s.outNoteBinding then Fail(NoteBindingMismatch)
      else if c.fairnessPub != FairnessPublicInputs(s.intentCommitment, s.assetIn, s.assetOut, s.amountOut, s.minAmountOut)
        then Fail(FairnessMismatch)
      else if !c.fairnessAccepted then Fail(InvalidFairnessProof)
      else Pass
  }

  /** The deposit that turns the escrowed output into the claimant's note. */
  function ClaimItem(s: Swap, c: RevealCall): PoolSpec.ShieldItem {
    PoolSpec.ShieldItem(s.amountOut, c.outRho, c.outRcm, c.outOwnerPk, c.outCommitment, c.encryptedNote,
                        c.shieldProof, ShieldPublicInputs(c.outValueCommit, s.amountOut, s.assetOut))
  }

  function RevealAndClaim(w: World, id: Digest, c: RevealCall): Result<(World, nat), Error> {
    var checked := CheckReveal(w, id, c);
    :- checked;
    :- Need(w.swap.swaps[id].relayer.Some?, WrongStatus);
    SettleClaim(w, id, c)
  }

  /** A claim whose checks passed: pay the relayer, then shield the claimant's note. */
  function SettleClaim(w: World, id: Digest, c: RevealCall): Result<(World, nat), Error>
    requires id in w.swap.swaps && w.swap.swaps[id].relayer.Some?
  {
    var s := w.swap.swaps[id];
    var w1 := w.Save(id, s.(status := Claimed));
    var w2 :- w1.Transfer(s.assetIn, w.swap.self, s.relayer.value, s.amountIn);
    var r := PoolSpec.Shield(w2.pool, {w.swap.self}, w.swap.self, s.assetOut, ClaimItem(s, c));
    if r.Err? then Err(PoolRefused(r.error))
    else Ok((w2.(pool := r.value.0), r.value.1))
  }

  // ----- unwinding

  function CancelSwap(w: World, id: Digest): Result<World, Error> {
    if id !in w.swap.swaps then Err(SwapNotFound)
    else
      var s := w.swap.swaps[id];
      :- Need(s.status == Committed && w.ledger > s.expiry, NotYetExpired);
      w.Save(id, s.(status := Cancelled)).Transfer(s.assetIn, w.swap.self, s.refundTo, s.amountIn)
  }

  function ReclaimExpiredSwap(w: World, id: Digest): Result<World, Error> {
    if id !in w.swap.swaps then Err(SwapNotFound)
    else
      var s := w.swap.swaps[id];
      :- Need(s.status == Executed, WrongStatus);
      :- Need(s.expiry + CLAIM_WINDOW_LEDGERS <= U32_MAX, DeadlineOverflow);
      :- Need(w.ledger > s.expiry + CLAIM_WINDOW_LEDGERS, NotYetExpired);
      :- Need(s.relayer.Some?, WrongStatus);
      var w1 := w.Save(id, s.(status := Cancelled));
      var w2 :- w1.Transfer(s.assetOut, w.swap.self, s.relayer.value, s.amountOut);
      w2.Transfer(s.assetIn, w.swap.self, s.refundTo, s.amountIn)
  }
}
