/**
  The pool contract with its storage. Every entrypoint is proved to do what `PoolSpec` says. The
  host reverts a call that fails or traps; the methods therefore make the checks and the token
  transfer that can fail before they write storage.
*/
module ShieldedTokens {
  import opened Wrappers
  import opened NoteTrees
  import opened Notes
  import opened Tokens
  import opened PoolSpec

  /** `r` and `after` are what `spec` says, or the error it says with nothing changed. */
  ghost predicate Agrees<R>(spec: Result<(Pool, R), Error>, before: Pool, r: Result<R, Error>, after: Pool) {
    match spec
    case Ok((s, x)) => r == Ok(x) && after == s
    case Err(e) => r == Err(e) && after == before
  }

  class ShieldedToken {
    const self: Address
    const tree: NoteTree<Field>
    const tokens: TokenContracts

    var paused: bool
    var minShield: int
    var approved: set<Address>
    var relayers: set<Address>
    var nullifiers: set<Field>
    var seen: set<Field>
    var supply: map<Address, nat>
    ghost var consumed: set<nat>

    ghost predicate Valid()
      reads this, tree
    {
      tree.Valid() && tree.hash == Poseidon2 && tree.emptyLeaf == EMPTY_LEAF
    }

    ghost function State(): Pool
      reads this, tree, tokens
    {
      Pool(self, paused, minShield, approved, relayers, tree.log, nullifiers, seen, supply, tokens.balances, consumed)
    }

    constructor (self: Address, tokens: TokenContracts)
      ensures Valid() && this.tokens == tokens && fresh(tree)
      ensures State() == Pool(self, false, 1_000, {}, {}, Log([], []), {}, {}, map[], tokens.balances, {})
    {
      this.self, this.tokens := self, tokens;
      tree := new NoteTree(Poseidon2, EMPTY_LEAF);
      paused, minShield, approved, relayers := false, 1_000, {}, {};
      nullifiers, seen, supply, consumed := {}, {}, map[], {};
    }

    function SupplyOf(asset: Address): nat
      reads this
    {
      if asset in supply then supply[asset] else 0
    }

    /** The admin's settings; the governance contract is the admin. */
    method SetMinShieldAmount(byAdmin: bool, amount: int) returns (ok: bool)
      modifies this`minShield
      ensures ok == (byAdmin && amount > 0)
      ensures minShield == if ok then amount else old(minShield)
    {
      ok := byAdmin && amount > 0;
      if ok {
        minShield := amount;
      }
    }

    method SetAssetApproved(byAdmin: bool, asset: Address, on: bool) returns (ok: bool)
      modifies this`approved
      ensures ok == byAdmin
      ensures approved == if !ok then old(approved) else if on then old(approved) + {asset} else old(approved) - {asset}
    {
      ok := byAdmin;
      if ok {
        approved := if on then approved + {asset} else approved - {asset};
      }
    }

    method SetRelayer(byAdmin: bool, relayer: Address, on: bool) returns (ok: bool)
      modifies this`relayers
      ensures ok == byAdmin
      ensures relayers == if !ok then old(relayers) else if on then old(relayers) + {relayer} else old(relayers) - {relayer}
    {
      ok := byAdmin;
      if ok {
        relayers := if on then relayers + {relayer} else relayers - {relayer};
      }
    }

    method CustodyShortfall(asset: Address) returns (shortfall: nat)
      ensures shortfall == State().CustodyShortfall(asset)
    {
      var owed := SupplyOf(asset);
      var held := BalanceOf(tokens.balances, asset, self);
      shortfall := if owed > held then owed - held else 0;
    }

    method Shield(auth: set<Address>, payer: Address, asset: Address, item: ShieldItem)
      returns (r: Result<nat, Error>)
      requires Valid()
      modifies this, tree, tokens
      ensures Valid()
      ensures Agrees(PoolSpec.Shield(old(State()), auth, payer, asset, item), old(State()), r, State())
    {
      if payer !in auth { return Err(HostTrap); }
      :- Need(!paused, Paused);
      :- Need(asset in approved, AssetNotApproved);
      :- CheckItem(minShield, seen, asset, item);
      var full := tree.IsFull();
      :- Need(!full, MerkleTreeFull);
      var leafIndex := tree.next;
      var settled := SettleDeposit(payer, asset, [item.commitment], seen + {item.commitment}, item.amount);
      :- settled;
      r := Ok(leafIndex);
    }

    method SettleDeposit(payer: Address, asset: Address, commitments: seq<Field>, newSeen: set<Field>, total: int)
      returns (g: Guard<Error>)
      requires Valid() && 1 <= |commitments| <= MAX_INSERT_BATCH && tree.log.HasCapacity(|commitments|)
      modifies this, tree, tokens
      ensures Valid()
      ensures match PoolSpec.SettleDeposit(old(State()), payer, asset, commitments, newSeen, total)
              case Ok(s) => g == Pass && State() == s
              case Err(e) => g == Fail(e) && State() == old(State())
    {
      if total < 0 || SupplyOf(asset) + total > I128_MAX { return Fail(AmountMismatch); }
      var paid := tokens.Transfer(asset, payer, self, total);
      if !paid { return Fail(HostTrap); }
      RecordDeposit(asset, commitments, newSeen, total);
      g := Pass;
    }

    method RecordDeposit(asset: Address, commitments: seq<Field>, newSeen: set<Field>, total: nat)
      requires Valid() && 1 <= |commitments| <= MAX_INSERT_BATCH && tree.log.HasCapacity(|commitments|)
      modifies this, tree
      ensures Valid()
      ensures State() == Deposit(old(State()), asset, commitments, newSeen, total, tokens.balances)
    {
      seen := newSeen;
      supply := supply[asset := SupplyOf(asset) + total];
      var first := tree.InsertMany(commitments);
    }

    method ShieldBatch(auth: set<Address>, payer: Address, asset: Address, items: seq<ShieldItem>)
      returns (r: Result<seq<nat>, Error>)
      requires Valid()
      modifies this, tree, tokens
      ensures Valid()
      ensures Agrees(PoolSpec.ShieldBatch(old(State()), auth, payer, asset, items), old(State()), r, State())
    {
      if payer !in auth { return Err(HostTrap); }
      :- Need(!paused, Paused);
      :- Need(asset in approved, AssetNotApproved);
      :- Need(items != [], EmptyBatch);
      :- Need(|items| <= MAX_SHIELD_BATCH, BatchTooLarge);
      var room := tree.HasCapacity(|items|);
      :- Need(room, MerkleTreeFull);
      var firstLeaf := tree.next;
      var checked := CheckItems(asset, items, firstLeaf);
      var batch :- checked;
      var settled := SettleDeposit(payer, asset, batch.commitments, batch.seen, batch.total);
      :- settled;
      r := Ok(batch.leafIndices);
    }

    /** The loop over a batch, on a copy of the seen set that is kept only if the call succeeds. */
    method CheckItems(asset: Address, items: seq<ShieldItem>, firstLeaf: nat) returns (r: Result<BatchResult, Error>)
      ensures var spec := CheckBatch(minShield, seen, 0, asset, items);
              match r
              case Ok(b) => spec == Ok((b.seen, b.total)) && b.commitments == CommitmentsOf(items)
                            && b.leafIndices == Indices(firstLeaf, |items|)
              case Err(e) => spec == Err(e)
    {
      var seen', total: int, commitments, leafIndices := seen, 0, [], [];
      for i := 0 to |items|
        invariant CheckBatch(minShield, seen, 0, asset, items) == CheckBatch(minShield, seen', total, asset, items[i..])
        invariant commitments == CommitmentsOf(items[..i])
        invariant leafIndices == Indices(firstLeaf, i)
      {
        var item := items[i];
        assert items[i..][0] == item && items[i..][1..] == items[i + 1..];
        :- CheckItem(minShield, seen', asset, item);
        seen' := seen' + {item.commitment};
        leafIndices := leafIndices + [firstLeaf + i];
        commitments := commitments + [item.commitment];
        :- Need(total + item.amount <= I128_MAX, AmountMismatch);
        total := total + item.amount;
        assert CommitmentsOf(items[..i + 1]) == commitments;
      }
      assert items[..|items|] == items;
      r := Ok(BatchResult(seen', total, commitments, leafIndices));
    }

    method Transfer(auth: set<Address>, n: nat, c: TransferCall) returns (r: Result<seq<nat>, Error>)
      requires Valid() && (n == 2 || n == 4)
      modifies this, tree, tokens
      ensures Valid()
      ensures Agrees(PoolSpec.Transfer(old(State()), auth, n, c), old(State()), r, State())
    {
      var checked := CheckCall(auth, n, c);
      :- checked;
      r := SettleTransfer(n, c);
    }

    method SettleTransfer(n: nat, c: TransferCall) returns (r: Result<seq<nat>, Error>)
      requires Valid() && c.proof.Sound? && c.pub.fee >= 0 && (c.pub.fee > 0 ==> c.relayer.Some?)
      requires |c.nullifiers| == |c.commitments| == n && 1 <= n <= MAX_INSERT_BATCH && tree.log.HasCapacity(n)
      modifies this, tree, tokens
      ensures Valid()
      ensures Agrees(PoolSpec.SettleTransfer(old(State()), n, c), old(State()), r, State())
    {
      var firstLeaf := tree.next;
      var paid := PayFee(c);
      :- paid;
      RecordSpend(c);
      var leafIndices := ConsecutiveIndices(firstLeaf, n);
      r := Ok(leafIndices);
    }

    method PayFee(c: TransferCall) returns (g: Guard<Error>)
      requires c.pub.fee > 0 ==> c.relayer.Some?
      modifies tokens
      ensures match PoolSpec.PayFee(old(State()), c)
              case Ok(bank) => g == Pass && tokens.balances == bank
              case Err(e) => g == Fail(e) && tokens.balances == old(tokens.balances)
    {
      if c.pub.fee > 0 {
        if SupplyOf(c.pub.asset) < c.pub.fee { return Fail(AmountMismatch); }
        var paid := tokens.Transfer(c.pub.asset, self, c.relayer.value, c.pub.fee);
        if !paid { return Fail(HostTrap); }
      }
      g := Pass;
    }

    method RecordSpend(c: TransferCall)
      requires Valid() && c.proof.Sound? && |c.nullifiers| == |c.commitments|
      requires 0 <= c.pub.fee && (c.pub.fee <= SupplyOf(c.pub.asset) || c.pub.fee == 0)
      requires 1 <= |c.commitments| <= MAX_INSERT_BATCH && tree.log.HasCapacity(|c.commitments|)
      modifies this, tree
      ensures Valid()
      ensures State() == Spend(old(State()), c, tokens.balances)
    {
      MarkSpent(c);
      var first := tree.InsertMany(c.commitments);
      if c.pub.fee > 0 {
        supply := supply[c.pub.asset := SupplyOf(c.pub.asset) - c.pub.fee];
      }
    }

    /** Record the nullifiers as spent and the output commitments as seen. */
    method MarkSpent(c: TransferCall)
      requires c.proof.Sound? && |c.nullifiers| == |c.commitments|
      modifies this`nullifiers, this`seen, this`consumed
      ensures nullifiers == old(nullifiers) + SeqSet(c.nullifiers)
      ensures seen == old(seen) + SeqSet(c.commitments)
      ensures consumed == old(consumed) + SeqSet(InputIndices(c.proof.knowledge.inputs))
    {
      for i := 0 to |c.nullifiers|
        invariant nullifiers == old(nullifiers) + SeqSet(c.nullifiers[..i])
        invariant seen == old(seen) + SeqSet(c.commitments[..i])
        invariant consumed == old(consumed)
      {
        SeqSetSnoc(c.nullifiers, i);
        SeqSetSnoc(c.commitments, i);
        nullifiers := nullifiers + {c.nullifiers[i]};
        seen := seen + {c.commitments[i]};
      }
      assert c.nullifiers[..|c.nullifiers|] == c.nullifiers && c.commitments[..|c.commitments|] == c.commitments;
      consumed := consumed + SeqSet(InputIndices(c.proof.knowledge.inputs));
    }

    method CheckCall(auth: set<Address>, n: nat, c: TransferCall) returns (g: Guard<Error>)
      requires Valid() && n <= MAX_INSERT_BATCH
      ensures g == CheckTransfer(State(), auth, n, c)
    {
      if paused { return Fail(Paused); }
      if c.pub.fee < 0 { return Fail(AmountMismatch); }
      if c.pub.fee > 0 {
        var shortfall := CustodyShortfall(c.pub.asset);
        if shortfall > 0 { return Fail(FeeRefusedDuringShortfall); }
        if c.relayer.None? { return Fail(RelayerRequired); }
        if c.relayer.value !in auth { return Fail(HostTrap); }
        if c.relayer.value !in relayers { return Fail(RelayerNotApproved); }
      }
      if !ArityOk(n, c) { return Fail(InvalidInputCount); }
      if !NotesOk(c) { return Fail(InvalidNote); }
      var same := SameAsPublic(c);
      if !same { return Fail(CommitmentMismatch); }
      var known := tree.IsKnownRoot(c.pub.anchor);
      if !known { return Fail(InvalidAnchor); }
      var distinct := PairwiseDistinct(c.nullifiers, c.commitments);
      if !distinct { return Fail(DuplicateInputInCall); }
      var unspent := NoneIn(c.nullifiers, nullifiers);
      if !unspent { return Fail(NullifierSpent); }
      var unseen := NoneIn(c.commitments, seen);
      if !unseen { return Fail(DuplicateCommitment); }
      if c.proof.Malformed? { return Fail(HostTrap); }
      if !TransferAccepted(n, c) { return Fail(InvalidProof); }
      var room := tree.HasCapacity(n);
      g := if room then Pass else Fail(MerkleTreeFull);
    }

    method Unshield(c: UnshieldCall) returns (r: Result<nat, Error>)
      requires Valid()
      modifies this, tree, tokens
      ensures Valid()
      ensures Agrees(PoolSpec.Unshield(old(State()), c), old(State()), r, State())
    {
      var checked := CheckWithdrawal(c);
      :- checked;
      r := SettleUnshield(c);
    }

    method SettleUnshield(c: UnshieldCall) returns (r: Result<nat, Error>)
      requires Valid() && c.proof.Sound? && c.pub.pubValue > 0 && tree.log.HasCapacity(1)
      modifies this, tree, tokens
      ensures Valid()
      ensures Agrees(PoolSpec.SettleUnshield(old(State()), c), old(State()), r, State())
    {
      var asset, value := c.pub.pubAsset, c.pub.pubValue;
      var prevSupply := SupplyOf(asset);
      var balanceBefore := BalanceOf(tokens.balances, asset, self);
      :- Need(value <= prevSupply, AmountMismatch);
      var payout := if balanceBefore >= prevSupply then value else value * balanceBefore / prevSupply;
      assert payout == Payout(value, balanceBefore, prevSupply);
      var paid := tokens.Transfer(asset, self, c.payee, payout);
      :- Need(paid, HostTrap);
      var leafIndex := tree.next;
      RecordWithdrawal(c);
      r := Ok(leafIndex);
    }

    method RecordWithdrawal(c: UnshieldCall)
      requires Valid() && c.proof.Sound? && tree.log.HasCapacity(1)
      requires 0 <= c.pub.pubValue <= SupplyOf(c.pub.pubAsset)
      modifies this, tree
      ensures Valid()
      ensures State() == Withdraw(old(State()), c, tokens.balances)
    {
      RecordPayment(c);
      var leafIndex := tree.Insert(c.changeCommitment);
      RecordChange(c);
    }

    method RecordPayment(c: UnshieldCall)
      requires 0 <= c.pub.pubValue <= SupplyOf(c.pub.pubAsset)
      modifies this`nullifiers, this`supply
      ensures nullifiers == old(nullifiers) + {c.nullifier}
      ensures supply == old(supply)[c.pub.pubAsset := old(SupplyOf(c.pub.pubAsset)) - c.pub.pubValue]
    {
      nullifiers := nullifiers + {c.nullifier};
      supply := supply[c.pub.pubAsset := SupplyOf(c.pub.pubAsset) - c.pub.pubValue];
    }

    method RecordChange(c: UnshieldCall)
      requires c.proof.Sound?
      modifies this`seen, this`consumed
      ensures seen == old(seen) + {c.changeCommitment}
      ensures consumed == old(consumed) + {c.proof.knowledge.spend.index}
    {
      seen := seen + {c.changeCommitment};
      consumed := consumed + {c.proof.knowledge.spend.index};
    }

    method CheckWithdrawal(c: UnshieldCall) returns (g: Guard<Error>)
      requires Valid()
      ensures g == CheckUnshield(State(), c)
    {
      if paused { return Fail(Paused); }
      if c.pub.nullifier != c.nullifier { return Fail(CommitmentMismatch); }
      if c.pub.changeCommitment != c.changeCommitment { return Fail(CommitmentMismatch); }
      if Poseidon2(AddressField(c.payee), c.bindingTag) != c.pub.recipientHash { return Fail(RecipientMismatch); }
      if |c.encryptedChangeNote| != ENCRYPTED_NOTE_LEN { return Fail(InvalidNote); }
      var known := tree.IsKnownRoot(c.pub.anchor);
      if !known { return Fail(InvalidAnchor); }
      if c.nullifier in nullifiers { return Fail(NullifierSpent); }
      if c.pub.pubValue <= 0 { return Fail(AmountMismatch); }
      if c.proof.Malformed? { return Fail(HostTrap); }
      if !UnshieldAccepted(c) { return Fail(InvalidProof); }
      var room := tree.HasCapacity(1);
      if !room { return Fail(MerkleTreeFull); }
      g := if c.changeCommitment in seen then Fail(DuplicateCommitment) else Pass;
    }
  }

  datatype BatchResult = BatchResult(seen: set<Field>, total: int, commitments: seq<Field>, leafIndices: seq<nat>)

  lemma SeqSetSnoc<T>(xs: seq<T>, i: nat)
    requires i < |xs|
    ensures SeqSet(xs[..i + 1]) == SeqSet(xs[..i]) + {xs[i]}
  {
    assert xs[..i + 1] == xs[..i] + [xs[i]];
  }

  method SameAsPublic(c: TransferCall) returns (same: bool)
    requires |c.nullifiers| == |c.commitments| == |c.pub.nullifiers| == |c.pub.outCommitments|
    ensures same <==> c.nullifiers == c.pub.nullifiers && c.commitments == c.pub.outCommitments
  {
    for i := 0 to |c.nullifiers|
      invariant c.nullifiers[..i] == c.pub.nullifiers[..i] && c.commitments[..i] == c.pub.outCommitments[..i]
    {
      if c.nullifiers[i] != c.pub.nullifiers[i] || c.commitments[i] != c.pub.outCommitments[i] {
        return false;
      }
    }
    same := true;
  }

  method ConsecutiveIndices(first: nat, count: nat) returns (indices: seq<nat>)
    ensures indices == Indices(first, count)
  {
    indices := [];
    for i := 0 to count
      invariant indices == Indices(first, i)
    {
      indices := indices + [first + i];
    }
  }

  method PairwiseDistinct(xs: seq<Field>, ys: seq<Field>) returns (distinct: bool)
    requires |xs| == |ys|
    ensures distinct <==> Distinct(xs) && Distinct(ys)
  {
    for i := 0 to |xs|
      invariant forall a, b :: 0 <= a < i && a < b < |xs| ==> xs[a] != xs[b] && ys[a] != ys[b]
    {
      for j := i + 1 to |xs|
        invariant forall b :: i < b < j ==> xs[i] != xs[b] && ys[i] != ys[b]
      {
        if xs[i] == xs[j] || ys[i] == ys[j] {
          return false;
        }
      }
    }
    distinct := true;
  }

  method NoneIn(xs: seq<Field>, s: set<Field>) returns (none: bool)
    ensures none <==> Disjoint(xs, s)
  {
    for i := 0 to |xs|
      invariant forall k :: 0 <= k < i ==> xs[k] !in s
    {
      if xs[i] in s {
        return false;
      }
    }
    none := true;
  }
}
