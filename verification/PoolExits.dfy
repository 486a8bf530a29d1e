/**
  Which notes can leave the pool, and two ways value stays behind: a note whose nullifier another note
  already used up, and a withdrawal whose recipient is the pool itself.
*/
module PoolExits {
  import opened Wrappers
  import opened MerkleSpec
  import opened NoteTrees
  import opened Notes
  import opened Tokens
  import opened PoolSpec
  import opened PoolConservation
  import opened PoolSystem

  // ----- the way out of every spendable note

  /** Some key owns the note in this leaf, and the nullifier it gives the note is unspent. */
  predicate Spendable(leaf: Field, nullifiers: set<Field>) {
    && IsCommitment(leaf)
    && Open(leaf).ownerPk.H? && Open(leaf).ownerPk.right == DOMAIN_PK
    && Nullifier(Open(leaf).ownerPk.left, Open(leaf).rho) !in nullifiers
  }

  function Change(note: Note, value: nat, rcm: Field): Note
    requires value <= note.value
  {
    Note(note.value - value, note.asset, note.rho, rcm, note.ownerPk)
  }

  /** A ciphertext; the contracts look at its length only. */
  function Ciphertext(): seq<byte> {
    seq(ENCRYPTED_NOTE_LEN, _ => 0)
  }

  /** The withdrawal of `value` from leaf `i`, opened against the current root and bound to `tag`. */
  function ExitCall(s: Pool, i: nat, payee: Address, value: nat, rcm: Field, tag: Field): UnshieldCall
    requires i < |s.log.leaves| && Spendable(s.log.leaves[i], s.nullifiers)
    requires value <= Open(s.log.leaves[i]).value
  {
    var note := Open(s.log.leaves[i]);
    var nk := note.ownerPk.left;
    var change := Change(note, value, rcm);
    var spend := SpendWitness(note, Path(Poseidon2, EMPTY_LEAF, s.log.leaves, TREE_DEPTH, i), i);
    var pub := UnshieldPublicInputs(
      TreeRoot(Poseidon2, EMPTY_LEAF, s.log.leaves, TREE_DEPTH), Nullifier(nk, note.rho), value, note.asset,
      Poseidon2(AddressField(payee), tag), Commit(change), ValueCommit(change.value, Elem(0)));
    UnshieldCall(Nullifier(nk, note.rho), payee, tag, Commit(change), Ciphertext(),
                 Sound(pub, UnshieldWitness(nk, spend, change)), pub)
  }

  lemma CurrentRootIsKnown(log: Log<Field>)
    requires log.Valid() && log.leaves != []
    ensures KnownRoot(Poseidon2, EMPTY_LEAF, log, TreeRoot(Poseidon2, EMPTY_LEAF, log.leaves, TREE_DEPTH))
  {
    var last := |log.sizes| - 1;
    assert log.leaves[..log.sizes[last]] == log.leaves;
    assert log.WindowStart() <= last < |log.sizes|;
  }

  lemma ExitSucceeds(s: Pool, i: nat, payee: Address, value: nat, rcm: Field, tag: Field)
    requires Inv(s) && i < |s.log.leaves| && Spendable(s.log.leaves[i], s.nullifiers)
    requires !s.paused && s.log.HasCapacity(1)
    requires 0 < value <= Open(s.log.leaves[i]).value < TWO_64
    requires Commit(Change(Open(s.log.leaves[i]), value, rcm)) !in s.seen
    ensures Unshield(s, ExitCall(s, i, payee, value, rcm, tag)).Ok?
  {
    var c := ExitCall(s, i, payee, value, rcm, tag);
    ExitIsAccepted(s, i, payee, value, rcm, tag);
    CurrentRootIsKnown(s.log);
    assert Anchored(s, c.pub.anchor);
    assert CheckUnshield(s, c).Pass?;
    AcceptedUnshieldIsCovered(s, c);
  }

  lemma ExitIsAccepted(s: Pool, i: nat, payee: Address, value: nat, rcm: Field, tag: Field)
    requires s.log.Valid() && i < |s.log.leaves| && Spendable(s.log.leaves[i], s.nullifiers)
    requires 0 < value <= Open(s.log.leaves[i]).value < TWO_64
    ensures UnshieldAccepted(ExitCall(s, i, payee, value, rcm, tag))
  {
    Pow2Depth();
    PathReachesRoot(Poseidon2, EMPTY_LEAF, s.log.leaves, TREE_DEPTH, i);
  }

  /** From some number on every commitment randomness is fresh. */
  lemma {:induction false} FreshFrom(seen: set<Field>, n: Note) returns (k: nat)
    ensures forall m: nat :: m >= k ==> Commit(n.(rcm := Elem(m))) !in seen
    decreases |seen|
  {
    k := 0;
    if seen != {} {
      var f :| f in seen;
      k := FreshFrom(seen - {f}, n);
      if f.H? && f.left.H? && f.left.right.H? && f.left.right.right.Elem? && f.left.right.right.n >= k {
        k := f.left.right.right.n + 1;
      }
    }
  }

  /** An accepted withdrawal that spends leaf `i`. */
  ghost predicate Exits(s: Pool, c: UnshieldCall, i: nat)
    requires s.log.Valid()
  {
    c.proof.Sound? && c.proof.knowledge.spend.index == i && Unshield(s, c).Ok?
  }

  /**
    Some withdrawal spends leaf `i` exactly if the pool is unpaused and has room for a change note, and
    the leaf's note holds a 64-bit positive value, has an owner and an unspent nullifier. It may then
    pay any recipient any part of the value.
  */
  lemma NoteCanLeaveIffSpendable(s: Pool, i: nat, payee: Address, value: nat)
    requires Inv(s) && i < |s.log.leaves|
    ensures (exists c :: Exits(s, c, i))
       <==> (&& !s.paused && s.log.HasCapacity(1)
             && Spendable(s.log.leaves[i], s.nullifiers) && 0 < Open(s.log.leaves[i]).value < TWO_64)
    ensures (exists c :: Exits(s, c, i)) && 0 < value <= Open(s.log.leaves[i]).value ==>
              exists c :: Exits(s, c, i) && c.payee == payee && c.pub.pubValue == value
  {
    if c :| Exits(s, c, i) {
      var t := c.proof.knowledge;
      SpendIsFresh(s, c.pub.anchor, t.nk, c.nullifier, c.pub.pubAsset, t.spend);
      UnshieldBalances(c.pub, t);
      CommitmentBinds(t.spend.note);
    }
    var note := Open(s.log.leaves[i]);
    if !s.paused && s.log.HasCapacity(1) && Spendable(s.log.leaves[i], s.nullifiers) && 0 < note.value < TWO_64 {
      var v := if 0 < value <= note.value then value else note.value;
      var k := FreshFrom(s.seen, Change(note, v, Elem(0)));
      assert Change(note, v, Elem(k)) == Change(note, v, Elem(0)).(rcm := Elem(k));
      ExitSucceeds(s, i, payee, v, Elem(k), Elem(0));
      assert Exits(s, ExitCall(s, i, payee, v, Elem(k), Elem(0)), i);
    }
  }

  // ----- notes that can never leave

  /** Whatever an event consumes had an unspent nullifier. */
  lemma ConsumedWasSpendable(s: Pool, op: Op, j: nat)
    requires Inv(s) && HostAllows(s.self, op) && j in Consumption(s, op)
    ensures j < |s.log.leaves| && Spendable(s.log.leaves[j], s.nullifiers)
  {
    match op
    case DoTransfer(auth, call) => TransferredWasSpendable(s, auth, 2, call, j);
    case DoTransfer4(auth, call) => TransferredWasSpendable(s, auth, 4, call, j);
    case DoUnshield(call) =>
      var t := call.proof.knowledge;
      SpendIsFresh(s, call.pub.anchor, t.nk, call.nullifier, call.pub.pubAsset, t.spend);
      CommitmentBinds(t.spend.note);
    case _ =>
      assert false;
  }

  lemma TransferredWasSpendable(s: Pool, auth: set<Address>, n: nat, c: TransferCall, j: nat)
    requires Inv(s) && Transfer(s, auth, n, c).Ok? && j in InputIndices(c.proof.knowledge.inputs)
    ensures j < |s.log.leaves| && Spendable(s.log.leaves[j], s.nullifiers)
  {
    var t := c.proof.knowledge;
    InputsAreFresh(s, n, c);
    var k :| 0 <= k < n && InputIndices(t.inputs)[k] == j;
    CommitmentBinds(t.inputs[k].note);
    assert c.nullifiers[k] !in s.nullifiers;
  }

  /** Nullifiers stay spent and leaves stay where they are. */
  lemma StepOnlyAdds(s: Pool, op: Op)
    requires s.log.Valid()
    ensures s.nullifiers <= Step(s, op).nullifiers
    ensures s.log.leaves <= Step(s, op).log.leaves
  {
  }

  /**
    A note whose nullifier is spent although its leaf is not consumed stays unconsumed for ever: its
    value counts as shielded supply in every later state, and nobody can take it out.
  */
  lemma {:induction false} StrandedForever(s: Pool, ops: seq<Op>, j: nat)
    requires Inv(s) && forall i :: 0 <= i < |ops| ==> HostAllows(s.self, ops[i])
    requires j < |s.log.leaves| && j !in s.consumed && !Spendable(s.log.leaves[j], s.nullifiers)
    ensures j !in Run(s, ops).consumed
    ensures j < |Run(s, ops).log.leaves| && Run(s, ops).log.leaves[j] == s.log.leaves[j]
    ensures Open(s.log.leaves[j]).value <= Run(s, ops).Supply(Open(s.log.leaves[j]).asset)
    decreases |ops|
  {
    if ops == [] {
      var asset := Open(s.log.leaves[j]).asset;
      assert SupplyMatches(s, asset);
      UnspentConsume(s.log.leaves, s.consumed, j, asset);
    } else {
      var s' := Step(s, ops[0]);
      StepKeepsInv(s, ops[0]);
      StepOnlyAdds(s, ops[0]);
      ConsumptionIsFresh(s, ops[0]);
      if j in Consumption(s, ops[0]) {
        ConsumedWasSpendable(s, ops[0], j);
      }
      StrandedForever(s', ops[1..], j);
    }
  }

  /**
    Two notes of one key with the same `rho` share a nullifier: withdrawing from one strands the other,
    whatever happens later.
  */
  lemma SharedNullifierStrands(s: Pool, c: UnshieldCall, i: nat, j: nat, ops: seq<Op>)
    requires Inv(s) && Exits(s, c, i) && forall k :: 0 <= k < |ops| ==> HostAllows(s.self, ops[k])
    requires i < |s.log.leaves| && j < |s.log.leaves| && i != j && j !in s.consumed
    requires Open(s.log.leaves[i]).ownerPk == Open(s.log.leaves[j]).ownerPk
    requires Open(s.log.leaves[i]).rho == Open(s.log.leaves[j]).rho
    ensures Inv(Unshield(s, c).value.0)
    ensures var s' := Unshield(s, c).value.0;
            && j !in Run(s', ops).consumed
            && Open(s.log.leaves[j]).value <= Run(s', ops).Supply(Open(s.log.leaves[j]).asset)
  {
    UnshieldKeepsInv(s, c);
    SpendingSpendsTheTwin(s, c, i, j);
    StrandedForever(Unshield(s, c).value.0, ops, j);
  }

  lemma SpendingSpendsTheTwin(s: Pool, c: UnshieldCall, i: nat, j: nat)
    requires Inv(s) && Exits(s, c, i)
    requires i < |s.log.leaves| && j < |s.log.leaves| && i != j && j !in s.consumed
    requires Open(s.log.leaves[i]).ownerPk == Open(s.log.leaves[j]).ownerPk
    requires Open(s.log.leaves[i]).rho == Open(s.log.leaves[j]).rho
    ensures var s' := Unshield(s, c).value.0;
            && j < |s'.log.leaves| && s'.log.leaves[j] == s.log.leaves[j]
            && j !in s'.consumed && !Spendable(s'.log.leaves[j], s'.nullifiers)
  {
    var t := c.proof.knowledge;
    SpendIsFresh(s, c.pub.anchor, t.nk, c.nullifier, c.pub.pubAsset, t.spend);
    CommitmentBinds(t.spend.note);
  }

  // ----- deposits to exhibit

  const DEPOSIT: nat := 1_000

  const OWNER: Field := OwnerKey(Elem(7))

  function DepositedNote(asset: Address, rcm: Field): Note {
    Note(DEPOSIT, asset, Elem(0), rcm, OWNER)
  }

  /** The deposit of a note; notes with different `rcm` share owner and `rho`. */
  function DepositOf(payer: Address, asset: Address, rcm: Field): Op {
    var note := DepositedNote(asset, rcm);
    DoShield({payer}, payer, asset,
             ShieldItem(DEPOSIT, note.rho, note.rcm, note.ownerPk, Commit(note), Ciphertext(),
                        Sound(ShieldStatement(Commit(note), ValueCommit(DEPOSIT, Elem(0)), DEPOSIT, asset), note),
                        ShieldPublicInputs(ValueCommit(DEPOSIT, Elem(0)), DEPOSIT, asset)))
  }

  lemma RunCons(s: Pool, op: Op, ops: seq<Op>)
    requires Inv(s) && HostAllows(s.self, op) && forall i :: 0 <= i < |ops| ==> HostAllows(s.self, ops[i])
    ensures Inv(Step(s, op)) && Step(s, op).self == s.self
    ensures Run(s, [op] + ops) == Run(Step(s, op), ops)
  {
    StepKeepsInv(s, op);
    assert ([op] + ops)[1..] == ops;
  }

  lemma RunOne(s: Pool, op: Op)
    requires Inv(s) && HostAllows(s.self, op)
    ensures Run(s, [op]) == Step(s, op) && Inv(Step(s, op)) && Step(s, op).self == s.self
  {
    RunCons(s, op, []);
    assert [op] + [] == [op];
  }

  /** A deposit goes through and adds its note. */
  lemma DepositIsAccepted(s: Pool, payer: Address, asset: Address, rcm: Field)
    requires Inv(s) && payer != s.self && !s.paused && s.minShield <= DEPOSIT && asset in s.approved
    requires Commit(DepositedNote(asset, rcm)) !in s.seen && s.log.HasCapacity(1)
    requires BalanceOf(s.bank, asset, payer) >= DEPOSIT && s.Supply(asset) + DEPOSIT <= I128_MAX
    ensures var s' := Step(s, DepositOf(payer, asset, rcm));
            && s'.log.leaves == s.log.leaves + [Commit(DepositedNote(asset, rcm))]
            && s'.seen == s.seen + {Commit(DepositedNote(asset, rcm))}
            && s' == s.(log := s'.log, seen := s'.seen, supply := s'.supply, bank := s'.bank)
            && s'.Supply(asset) == s.Supply(asset) + DEPOSIT && s'.Balance(asset) == s.Balance(asset) + DEPOSIT
            && BalanceOf(s'.bank, asset, payer) == BalanceOf(s.bank, asset, payer) - DEPOSIT
  {
    CommitmentBinds(DepositedNote(asset, rcm));
    assert Shield(s, {payer}, payer, asset, DepositOf(payer, asset, rcm).item).Ok?;
    PayMoves(s.bank, asset, payer, s.self, DEPOSIT, asset, s.self);
    PayMoves(s.bank, asset, payer, s.self, DEPOSIT, asset, payer);
  }

  // ----- two notes that share a nullifier

  /** Approve an asset and deposit two notes of one owner with one `rho`. */
  function TwinDeposits(payer: Address, asset: Address): seq<Op> {
    [SetAssetApproved(asset, true)] + ([DepositOf(payer, asset, Elem(0))] + [DepositOf(payer, asset, Elem(1))])
  }

  /** The pool holds the two notes, none of them spent. */
  predicate HoldsTwins(s: Pool, asset: Address) {
    && !s.paused && s.nullifiers == {} && s.consumed == {}
    && s.log.leaves == [Commit(DepositedNote(asset, Elem(0))), Commit(DepositedNote(asset, Elem(1)))]
  }

  lemma BothDepositsAreAccepted(s: Pool, payer: Address, asset: Address)
    requires Inv(s) && payer != s.self && s.log == Log([], []) && s.supply == map[]
    requires !s.paused && s.minShield <= DEPOSIT && asset in s.approved && s.nullifiers == {} && s.consumed == {}
    requires BalanceOf(s.bank, asset, payer) == 2 * DEPOSIT
    ensures HoldsTwins(Step(Step(s, DepositOf(payer, asset, Elem(0))), DepositOf(payer, asset, Elem(1))), asset)
  {
    DepositIsAccepted(s, payer, asset, Elem(0));
    StepKeepsInv(s, DepositOf(payer, asset, Elem(0)));
    DepositIsAccepted(Step(s, DepositOf(payer, asset, Elem(0))), payer, asset, Elem(1));
  }

  lemma TwinState(self: Address, payer: Address, asset: Address)
    requires payer != self
    ensures Inv(Init(self, map[(asset, payer) := 2 * DEPOSIT]))
    ensures var s := Run(Init(self, map[(asset, payer) := 2 * DEPOSIT]), TwinDeposits(payer, asset));
            Inv(s) && s.self == self && HoldsTwins(s, asset)
  {
    var s0 := Init(self, map[(asset, payer) := 2 * DEPOSIT]);
    var approve, first, second :=
      SetAssetApproved(asset, true), DepositOf(payer, asset, Elem(0)), DepositOf(payer, asset, Elem(1));
    InitInv(self, s0.bank);
    RunCons(s0, approve, [first] + [second]);
    var s1 := Step(s0, approve);
    assert HoldsTwins(Step(Step(s1, first), second), asset) by {
      BothDepositsAreAccepted(s1, payer, asset);
    }
    RunCons(s1, first, [second]);
    RunOne(Step(s1, first), second);
  }

  /**
    The input that strands a note: one owner deposits 1,000 twice with the same `rho` and withdraws the
    first. The call is accepted; the second note can never leave, and its 1,000 stay in the supply.
  */
  lemma TwinStaysBehind(self: Address, payer: Address, asset: Address, ops: seq<Op>)
    returns (s: Pool, c: UnshieldCall, s': Pool)
    requires payer != self && forall k :: 0 <= k < |ops| ==> HostAllows(self, ops[k])
    ensures Inv(Init(self, map[(asset, payer) := 2 * DEPOSIT]))
    ensures s == Run(Init(self, map[(asset, payer) := 2 * DEPOSIT]), TwinDeposits(payer, asset))
    ensures Inv(s) && Exits(s, c, 0) && s' == Unshield(s, c).value.0 && Inv(s') && s'.self == self
    ensures 1 < |s.log.leaves| && Spendable(s.log.leaves[1], s.nullifiers)
    ensures 1 !in Run(s', ops).consumed && DEPOSIT <= Run(s', ops).Supply(asset)
  {
    TwinState(self, payer, asset);
    s := Run(Init(self, map[(asset, payer) := 2 * DEPOSIT]), TwinDeposits(payer, asset));
    var first, second := DepositedNote(asset, Elem(0)), DepositedNote(asset, Elem(1));
    CommitmentBinds(first);
    CommitmentBinds(second);
    assert Open(s.log.leaves[0]) == first && Open(s.log.leaves[1]) == second;
    assert s.seen == {Commit(first), Commit(second)} by {
      assert s.seen == SeqSet(s.log.leaves);
    }
    ExitSucceeds(s, 0, payer, DEPOSIT, Elem(0), Elem(0));
    c := ExitCall(s, 0, payer, DEPOSIT, Elem(0), Elem(0));
    s' := Unshield(s, c).value.0;
    SharedNullifierStrands(s, c, 0, 1, ops);
  }

  // ----- paying the pool itself

  /** Approve an asset, deposit 1,000 of it, and claw back some. */
  function DepositAndClawback(payer: Address, asset: Address, taken: nat): seq<Op> {
    [SetAssetApproved(asset, true)] + ([DepositOf(payer, asset, Elem(0))] + [Clawback(asset, taken)])
  }

  /** The deposited note is the only leaf, unspent, and `taken` of its value is missing. */
  predicate HoldsDeposit(s: Pool, asset: Address, taken: nat) {
    && !s.paused && s.log.leaves == [Commit(DepositedNote(asset, Elem(0)))]
    && s.nullifiers == {} && s.seen == {Commit(DepositedNote(asset, Elem(0)))}
    && s.Supply(asset) == DEPOSIT && s.Balance(asset) + taken == DEPOSIT
  }

  lemma DepositedState(self: Address, payer: Address, asset: Address, taken: nat)
    requires payer != self && taken < DEPOSIT
    ensures Inv(Init(self, map[(asset, payer) := DEPOSIT]))
    ensures var s := Run(Init(self, map[(asset, payer) := DEPOSIT]), DepositAndClawback(payer, asset, taken));
            Inv(s) && s.self == self && HoldsDeposit(s, asset, taken)
  {
    var s0 := Init(self, map[(asset, payer) := DEPOSIT]);
    var approve, deposit, clawback :=
      SetAssetApproved(asset, true), DepositOf(payer, asset, Elem(0)), Clawback(asset, taken);
    InitInv(self, s0.bank);
    RunCons(s0, approve, [deposit] + [clawback]);
    var s1 := Step(s0, approve);
    RunCons(s1, deposit, [clawback]);
    var s2 := Step(s1, deposit);
    assert HoldsDeposit(s2, asset, 0) by {
      DepositIsAccepted(s1, payer, asset, Elem(0));
    }
    RunOne(s2, clawback);
    ClawbackTakes(s2, asset, taken);
  }

  lemma ClawbackTakes(s: Pool, asset: Address, taken: nat)
    requires s.log.Valid() && HoldsDeposit(s, asset, 0) && taken < DEPOSIT
    ensures HoldsDeposit(Step(s, Clawback(asset, taken)), asset, taken)
  {
  }

  /**
    The input on which exhausting the supply does not empty the balance: deposit 1,000, claw back any
    part of it or nothing, and withdraw the 1,000 to the pool's own address. The call is accepted, the
    supply is gone, and what was left of the deposit is still there, owed to nobody.
  */
  lemma SelfWithdrawalStaysBehind(self: Address, payer: Address, asset: Address, taken: nat)
    returns (s: Pool, c: UnshieldCall, s': Pool)
    requires payer != self && taken < DEPOSIT
    ensures Inv(Init(self, map[(asset, payer) := DEPOSIT]))
    ensures s == Run(Init(self, map[(asset, payer) := DEPOSIT]), DepositAndClawback(payer, asset, taken))
    ensures Withdrawal(s, asset, c, s') && c.payee == self == s.self && !FitsIfKept(s, asset, c)
    ensures s.Balance(asset) <= s.Supply(asset)
    ensures s'.Supply(asset) == 0 && s'.Balance(asset) == DEPOSIT - taken > 0
  {
    DepositedState(self, payer, asset, taken);
    s := Run(Init(self, map[(asset, payer) := DEPOSIT]), DepositAndClawback(payer, asset, taken));
    var note := DepositedNote(asset, Elem(0));
    CommitmentBinds(note);
    assert Open(s.log.leaves[0]) == note;
    assert Commit(Change(note, DEPOSIT, Elem(0))) != Commit(note);
    ExitSucceeds(s, 0, self, DEPOSIT, Elem(0), Elem(0));
    c := ExitCall(s, 0, self, DEPOSIT, Elem(0), Elem(0));
    s' := Unshield(s, c).value.0;
    WithdrawalPays(s, asset, c, s');
  }
}
