/**
  What each pool call demands and does, said without reference to how it is carried out: exactly when
  it succeeds, what an error means, and which balances, supplies, leaves and sets it changes.
*/
module PoolEffects {
  import opened Wrappers
  import opened NoteTrees
  import opened Notes
  import opened Tokens
  import opened PoolSpec
  import opened PoolConservation
  import opened PoolBatch
  import PoolBacking

  /** `amount` of `asset` went from `payer` to `payee`, and no other balance changed. */
  ghost predicate Moved(b: Bank, b': Bank, asset: Address, payer: Address, payee: Address, amount: int) {
    forall a, who :: BalanceOf(b', a, who) == BalanceOf(b, a, who) + Share(asset, payer, payee, amount, a, who)
  }

  /** What `who` gains in `a` from that payment. */
  function Share(asset: Address, payer: Address, payee: Address, amount: int, a: Address, who: Address): int {
    (if a == asset && who == payee then amount else 0) - (if a == asset && who == payer then amount else 0)
  }

  lemma PaymentMoves(b: Bank, asset: Address, payer: Address, payee: Address, amount: nat)
    requires amount <= BalanceOf(b, asset, payer)
    ensures Pay(b, asset, payer, payee, amount).Some?
    ensures Moved(b, Pay(b, asset, payer, payee, amount).value, asset, payer, payee, amount)
  {
    var b' := Pay(b, asset, payer, payee, amount).value;
    forall a, who
      ensures BalanceOf(b', a, who) == BalanceOf(b, a, who) + Share(asset, payer, payee, amount, a, who)
    {
      PayMoves(b, asset, payer, payee, amount, a, who);
    }
  }

  /** Nothing is created or lost between two holders, and a holder paying itself gains nothing. */
  lemma ShareConserves(asset: Address, payer: Address, payee: Address, amount: int, a: Address)
    ensures payer != payee ==>
              Share(asset, payer, payee, amount, a, payer) + Share(asset, payer, payee, amount, a, payee) == 0
    ensures payer == payee ==> forall who :: Share(asset, payer, payee, amount, a, who) == 0
  {
  }

  predicate SameSettings(s: Pool, s': Pool) {
    s'.self == s.self && s'.paused == s.paused && s'.minShield == s.minShield
    && s'.approved == s.approved && s'.relayers == s.relayers
  }

  /** The supply of `asset` changed by `delta` and that of no other asset. */
  ghost predicate SupplyChanged(s: Pool, s': Pool, asset: Address, delta: int) {
    forall a :: s'.Supply(a) == s.Supply(a) + if a == asset then delta else 0
  }

  // ----- shield

  ghost predicate DepositAllowed(s: Pool, auth: set<Address>, payer: Address, asset: Address, item: ShieldItem) {
    && payer in auth && !s.paused && asset in s.approved
    && 0 < item.amount < TWO_64 && s.minShield <= item.amount
    && |item.encryptedNote| == 176
    && item.pub == ShieldPublicInputs(item.pub.valueCommit, item.amount, asset)
    && CommitsValue(item.pub.valueCommit, item.amount)
    && item.commitment == Commit(Note(item.amount, asset, item.rho, item.rcm, item.ownerPk))
    && item.commitment !in s.seen
    && item.proof == Sound(ShieldStatement(item.commitment, item.pub.valueCommit, item.amount, asset),
                           Note(item.amount, asset, item.rho, item.rcm, item.ownerPk))
    && |s.log.leaves| < U32_MAX
    && s.Supply(asset) + item.amount <= I128_MAX
    && item.amount <= BalanceOf(s.bank, asset, payer)
  }

  /** A deposit succeeds exactly under these conditions; its proof then knows the very note deposited. */
  lemma ShieldSucceedsIff(s: Pool, auth: set<Address>, payer: Address, asset: Address, item: ShieldItem)
    ensures Shield(s, auth, payer, asset, item).Ok? <==> DepositAllowed(s, auth, payer, asset, item)
  {
    if item.proof.Sound? {
      CommitmentBinds(item.proof.knowledge);
    }
    if item.amount >= 0 {
      CommitmentBinds(ItemNote(asset, item));
    }
  }

  /** A deposit takes `amount` from the payer into the pool, adds it to the supply, and appends its note. */
  lemma ShieldMoves(s: Pool, auth: set<Address>, payer: Address, asset: Address, item: ShieldItem)
    requires Shield(s, auth, payer, asset, item).Ok?
    ensures var (s', index) := Shield(s, auth, payer, asset, item).value;
            && Moved(s.bank, s'.bank, asset, payer, s.self, item.amount)
            && SupplyChanged(s, s', asset, item.amount) && SameSettings(s, s')
            && index == |s.log.leaves| && s'.log.leaves == s.log.leaves + [item.commitment]
            && s'.seen == s.seen + {item.commitment}
            && s'.nullifiers == s.nullifiers && s'.consumed == s.consumed
  {
    ShieldSucceedsIff(s, auth, payer, asset, item);
    PaymentMoves(s.bank, asset, payer, s.self, item.amount);
  }

  /** What each error of a deposit says about the call. */
  ghost predicate ShieldCause(s: Pool, auth: set<Address>, payer: Address, asset: Address, item: ShieldItem, e: Error) {
    match e
    case Paused => s.paused
    case AssetNotApproved => asset !in s.approved
    case AmountMismatch =>
      || item.amount <= 0 || item.amount < s.minShield || item.pub.pubValue != item.amount
      || s.Supply(asset) + item.amount > I128_MAX
    case InvalidNote => |item.encryptedNote| != 176
    case AssetMismatch => item.pub.pubAsset != asset
    case CommitmentMismatch =>
      item.amount >= 0 && item.commitment != Commit(Note(item.amount, asset, item.rho, item.rcm, item.ownerPk))
    case DuplicateCommitment => item.commitment in s.seen
    case InvalidProof => item.proof.Unsound? || item.proof.Sound?
    case MerkleTreeFull => |s.log.leaves| >= U32_MAX
    case HostTrap => payer !in auth || item.proof.Malformed? || BalanceOf(s.bank, asset, payer) < item.amount
    case _ => false
  }

  lemma ShieldErrorMeans(s: Pool, auth: set<Address>, payer: Address, asset: Address, item: ShieldItem)
    requires Shield(s, auth, payer, asset, item).Err?
    ensures ShieldCause(s, auth, payer, asset, item, Shield(s, auth, payer, asset, item).error)
    ensures Shield(s, auth, payer, asset, item) == Err(InvalidProof) ==> !ShieldAccepted(asset, item)
  {
  }

  /** A batch holds 1 to 8 items and moves their total, once. */
  lemma {:induction false} ShieldBatchMoves(
      s: Pool, auth: set<Address>, payer: Address, asset: Address, items: seq<ShieldItem>)
    requires ShieldBatch(s, auth, payer, asset, items).Ok?
    ensures 1 <= |items| <= 8 && Total(items) > 0
    ensures var (s', indices) := ShieldBatch(s, auth, payer, asset, items).value;
            && Moved(s.bank, s'.bank, asset, payer, s.self, Total(items))
            && SupplyChanged(s, s', asset, Total(items)) && SameSettings(s, s')
            && |indices| == |items| && (forall i :: 0 <= i < |items| ==> indices[i] == |s.log.leaves| + i)
            && s'.log.leaves == s.log.leaves + CommitmentsOf(items)
            && s'.seen == s.seen + SeqSet(CommitmentsOf(items))
            && s'.nullifiers == s.nullifiers && s'.consumed == s.consumed
  {
    ShieldBatchResult(s, auth, payer, asset, items);
    TotalPositive(s.minShield, s.seen, asset, items);
    PaymentMoves(s.bank, asset, payer, s.self, Total(items));
  }

  /** A batch of the wrong size is refused as such, once the payer, the pause and the asset are in order. */
  lemma BatchSizeErrors(s: Pool, auth: set<Address>, payer: Address, asset: Address, items: seq<ShieldItem>)
    ensures ShieldBatch(s, auth, payer, asset, items) == Err(EmptyBatch)
       <==> payer in auth && !s.paused && asset in s.approved && |items| == 0
    ensures ShieldBatch(s, auth, payer, asset, items) == Err(BatchTooLarge)
       <==> payer in auth && !s.paused && asset in s.approved && |items| > 8
  {
    if |items| > 0 {
      CheckBatchErrors(s.minShield, s.seen, 0, asset, items);
    }
  }

  lemma {:induction false} CheckBatchErrors(
      minShield: int, seen: set<Field>, total: int, asset: Address, items: seq<ShieldItem>)
    ensures var r := CheckBatch(minShield, seen, total, asset, items);
            r.Err? ==> r.error != EmptyBatch && r.error != BatchTooLarge
    decreases |items|
  {
    if items != [] {
      CheckBatchErrors(minShield, seen + {items[0].commitment}, total + items[0].amount, asset, items[1..]);
    }
  }

  // ----- transfer

  ghost predicate TransferAllowed(s: Pool, auth: set<Address>, n: nat, c: TransferCall)
    requires s.log.Valid()
  {
    && !s.paused
    && 0 <= c.pub.fee
    && (c.pub.fee > 0 ==>
          && c.relayer.Some? && c.relayer.value in auth && c.relayer.value in s.relayers
          && c.pub.fee <= s.Supply(c.pub.asset) <= s.Balance(c.pub.asset))
    && |c.nullifiers| == |c.commitments| == |c.encryptedNotes| == n
    && |c.pub.inValueCommits| == |c.pub.outValueCommits| == n
    && (forall i :: 0 <= i < n ==> |c.encryptedNotes[i]| == 176)
    && c.pub.nullifiers == c.nullifiers && c.pub.outCommitments == c.commitments
    && KnownRoot(Poseidon2, EMPTY_LEAF, s.log, c.pub.anchor)
    && (forall i, j :: 0 <= i < j < n ==> c.nullifiers[i] != c.nullifiers[j] && c.commitments[i] != c.commitments[j])
    && (forall i :: 0 <= i < n ==> c.nullifiers[i] !in s.nullifiers && c.commitments[i] !in s.seen)
    && c.proof.Sound? && c.proof.statement == c.pub && TransferRelation(n, c.pub, c.proof.knowledge)
    && |s.log.leaves| + n <= U32_MAX
  }

  lemma TransferSucceedsIff(s: Pool, auth: set<Address>, n: nat, c: TransferCall)
    requires s.log.Valid()
    ensures Transfer(s, auth, n, c).Ok? <==> TransferAllowed(s, auth, n, c)
  {
  }

  /**
    A transfer pays its fee out of the pool to the relayer, takes it off the supply, spends its
    nullifiers and appends its commitments.
  */
  lemma TransferMoves(s: Pool, auth: set<Address>, n: nat, c: TransferCall)
    requires s.log.Valid() && Transfer(s, auth, n, c).Ok?
    ensures var (s', indices) := Transfer(s, auth, n, c).value;
            && (if c.pub.fee > 0 then
                  c.relayer.Some? && Moved(s.bank, s'.bank, c.pub.asset, s.self, c.relayer.value, c.pub.fee)
                else
                  s'.bank == s.bank)
            && SupplyChanged(s, s', c.pub.asset, -c.pub.fee) && SameSettings(s, s')
            && |indices| == n && (forall i :: 0 <= i < n ==> indices[i] == |s.log.leaves| + i)
            && s'.log.leaves == s.log.leaves + c.commitments
            && s'.nullifiers == s.nullifiers + SeqSet(c.nullifiers)
            && s'.seen == s.seen + SeqSet(c.commitments)
  {
    TransferSucceedsIff(s, auth, n, c);
    if c.pub.fee > 0 {
      PaymentMoves(s.bank, c.pub.asset, s.self, c.relayer.value, c.pub.fee);
    }
  }

  ghost predicate TransferCause(s: Pool, auth: set<Address>, n: nat, c: TransferCall, e: Error)
    requires s.log.Valid()
  {
    match e
    case Paused => s.paused
    case AmountMismatch => c.pub.fee < 0 || c.pub.fee > s.Supply(c.pub.asset)
    case FeeRefusedDuringShortfall => c.pub.fee > 0 && s.Balance(c.pub.asset) < s.Supply(c.pub.asset)
    case RelayerRequired => c.pub.fee > 0 && c.relayer.None?
    case RelayerNotApproved => c.pub.fee > 0 && c.relayer.Some? && c.relayer.value !in s.relayers
    case InvalidInputCount => exists k :: k in TransferLengths(c) && k != n
    case InvalidNote => exists m :: m in c.encryptedNotes && |m| != 176
    case CommitmentMismatch => c.nullifiers != c.pub.nullifiers || c.commitments != c.pub.outCommitments
    case InvalidAnchor => !KnownRoot(Poseidon2, EMPTY_LEAF, s.log, c.pub.anchor)
    case DuplicateInputInCall => !Distinct(c.nullifiers) || !Distinct(c.commitments)
    case NullifierSpent => exists nf :: nf in c.nullifiers && nf in s.nullifiers
    case DuplicateCommitment => exists cm :: cm in c.commitments && cm in s.seen
    case InvalidProof => !TransferAccepted(n, c)
    case MerkleTreeFull => |s.log.leaves| + n > U32_MAX
    case HostTrap =>
      || (c.pub.fee > 0 && c.relayer.Some? && c.relayer.value !in auth)
      || c.proof.Malformed?
    case _ => false
  }

  /** The lengths a transfer's arity fixes. */
  function TransferLengths(c: TransferCall): seq<nat> {
    [|c.nullifiers|, |c.commitments|, |c.encryptedNotes|, |c.pub.nullifiers|, |c.pub.outCommitments|,
     |c.pub.inValueCommits|, |c.pub.outValueCommits|]
  }

  lemma {:induction false} TransferErrorMeans(s: Pool, auth: set<Address>, n: nat, c: TransferCall)
    requires s.log.Valid() && Transfer(s, auth, n, c).Err?
    ensures TransferCause(s, auth, n, c, Transfer(s, auth, n, c).error)
  {
    match Transfer(s, auth, n, c).error
    case InvalidInputCount => WrongLengthIsThere(n, c);
    case InvalidNote => WrongNoteIsThere(c);
    case NullifierSpent =>
      var i :| 0 <= i < |c.nullifiers| && c.nullifiers[i] in s.nullifiers;
      assert c.nullifiers[i] in c.nullifiers;
    case DuplicateCommitment =>
      var i :| 0 <= i < |c.commitments| && c.commitments[i] in s.seen;
      assert c.commitments[i] in c.commitments;
    case _ =>
  }

  lemma WrongLengthIsThere(n: nat, c: TransferCall)
    requires !ArityOk(n, c)
    ensures exists k :: k in TransferLengths(c) && k != n
  {
    var ks := TransferLengths(c);
    assert ks[0] in ks && ks[1] in ks && ks[2] in ks && ks[3] in ks && ks[4] in ks && ks[5] in ks && ks[6] in ks;
  }

  lemma WrongNoteIsThere(c: TransferCall)
    requires !NotesOk(c)
    ensures exists m :: m in c.encryptedNotes && |m| != 176
  {
    var i :| 0 <= i < |c.encryptedNotes| && |c.encryptedNotes[i]| != ENCRYPTED_NOTE_LEN;
    assert c.encryptedNotes[i] in c.encryptedNotes;
  }

  // ----- unshield

  ghost predicate WithdrawalAllowed(s: Pool, c: UnshieldCall)
    requires s.log.Valid()
  {
    && !s.paused
    && c.pub.nullifier == c.nullifier && c.pub.changeCommitment == c.changeCommitment
    && c.pub.recipientHash == Poseidon2(AddressField(c.payee), c.bindingTag)
    && |c.encryptedChangeNote| == 176
    && KnownRoot(Poseidon2, EMPTY_LEAF, s.log, c.pub.anchor)
    && c.nullifier !in s.nullifiers && c.changeCommitment !in s.seen
    && 0 < c.pub.pubValue <= s.Supply(c.pub.pubAsset)
    && c.proof.Sound? && c.proof.statement == c.pub && UnshieldRelation(c.pub, c.proof.knowledge)
    && |s.log.leaves| < U32_MAX
  }

  lemma UnshieldSucceedsIff(s: Pool, c: UnshieldCall)
    requires s.log.Valid()
    ensures Unshield(s, c).Ok? <==> WithdrawalAllowed(s, c)
  {
    if CheckUnshield(s, c).Pass? && c.pub.pubValue <= s.Supply(c.pub.pubAsset) {
      PoolBacking.PayoutIsFair(c.pub.pubValue, s.Balance(c.pub.pubAsset), s.Supply(c.pub.pubAsset));
    }
  }

  /** The whole value while the pool is backed, and otherwise its share of the balance, rounded down. */
  predicate PaysShare(payout: nat, value: nat, balance: nat, supply: nat) {
    if balance >= supply then payout == value
    else payout * supply <= value * balance < payout * supply + supply
  }

  /**
    A withdrawal pays its share to the payee it names, takes its whole value off the supply, spends its
    nullifier and appends its change note.
  */
  lemma UnshieldMoves(s: Pool, c: UnshieldCall) returns (payout: nat)
    requires s.log.Valid() && Unshield(s, c).Ok?
    ensures c.pub.pubValue > 0
    ensures PaysShare(payout, c.pub.pubValue, s.Balance(c.pub.pubAsset), s.Supply(c.pub.pubAsset))
    ensures var (s', index) := Unshield(s, c).value;
            && Moved(s.bank, s'.bank, c.pub.pubAsset, s.self, c.payee, payout)
            && SupplyChanged(s, s', c.pub.pubAsset, -c.pub.pubValue) && SameSettings(s, s')
            && index == |s.log.leaves| && s'.log.leaves == s.log.leaves + [c.changeCommitment]
            && s'.nullifiers == s.nullifiers + {c.nullifier}
            && s'.seen == s.seen + {c.changeCommitment}
  {
    UnshieldSucceedsIff(s, c);
    var value, balance, supply := c.pub.pubValue, s.Balance(c.pub.pubAsset), s.Supply(c.pub.pubAsset);
    payout := Payout(value, balance, supply);
    PoolBacking.PayoutIsFair(value, balance, supply);
    if balance < supply {
      PoolBacking.PayoutRounds(value, balance, supply);
    }
    PaymentMoves(s.bank, c.pub.pubAsset, s.self, c.payee, payout);
  }

  /** What is not withdrawn goes back to the owner of the note spent. */
  lemma ChangeStaysWithTheOwner(s: Pool, c: UnshieldCall)
    requires Inv(s) && Unshield(s, c).Ok?
    ensures c.proof.Sound? && c.proof.knowledge.spend.index < |s.log.leaves|
    ensures IsCommitment(s.log.leaves[c.proof.knowledge.spend.index]) && IsCommitment(c.changeCommitment)
    ensures var spent, change := Open(s.log.leaves[c.proof.knowledge.spend.index]), Open(c.changeCommitment);
            && change.ownerPk == spent.ownerPk && change.asset == spent.asset == c.pub.pubAsset
            && change.value + c.pub.pubValue == spent.value
  {
    var t := c.proof.knowledge;
    SpendIsFresh(s, c.pub.anchor, t.nk, c.nullifier, c.pub.pubAsset, t.spend);
    UnshieldBalances(c.pub, t);
    CommitmentBinds(t.spend.note);
    CommitmentBinds(t.change);
  }

  /**
    A withdrawal's proof is bound to its recipient: of all calls that carry the same proof, in whatever
    states, only those that name the same payee and tag (and the same nullifier and change) succeed.
  */
  lemma RecipientIsBound(s: Pool, c: UnshieldCall, t: Pool, d: UnshieldCall)
    requires s.log.Valid() && t.log.Valid() && (c.proof == d.proof || c.pub == d.pub)
    requires Unshield(s, c).Ok? && Unshield(t, d).Ok?
    ensures d == c.(encryptedChangeNote := d.encryptedChangeNote, proof := d.proof)
  {
    UnshieldSucceedsIff(s, c);
    UnshieldSucceedsIff(t, d);
  }

  ghost predicate UnshieldCause(s: Pool, c: UnshieldCall, e: Error)
    requires s.log.Valid()
  {
    match e
    case Paused => s.paused
    case CommitmentMismatch => c.pub.nullifier != c.nullifier || c.pub.changeCommitment != c.changeCommitment
    case RecipientMismatch => c.pub.recipientHash != Poseidon2(AddressField(c.payee), c.bindingTag)
    case InvalidNote => |c.encryptedChangeNote| != 176
    case InvalidAnchor => !KnownRoot(Poseidon2, EMPTY_LEAF, s.log, c.pub.anchor)
    case NullifierSpent => c.nullifier in s.nullifiers
    case AmountMismatch => c.pub.pubValue <= 0 || c.pub.pubValue > s.Supply(c.pub.pubAsset)
    case InvalidProof => !UnshieldAccepted(c)
    case MerkleTreeFull => |s.log.leaves| >= U32_MAX
    case DuplicateCommitment => c.changeCommitment in s.seen
    case HostTrap => c.proof.Malformed?
    case _ => false
  }

  lemma UnshieldErrorMeans(s: Pool, c: UnshieldCall)
    requires s.log.Valid() && Unshield(s, c).Err?
    ensures UnshieldCause(s, c, Unshield(s, c).error)
  {
    if CheckUnshield(s, c).Pass? && c.pub.pubValue <= s.Supply(c.pub.pubAsset) {
      PoolBacking.PayoutIsFair(c.pub.pubValue, s.Balance(c.pub.pubAsset), s.Supply(c.pub.pubAsset));
    }
  }
}
