/**
  The shielded pool as a state machine over values. Each entrypoint is a function from a state and
  its arguments to a new state or an error; an error leaves the state as it was, because the host
  reverts the call.
*/
module PoolSpec {
  import opened Wrappers
  import opened NoteTrees
  import opened Notes
  import opened Tokens

  const MAX_SHIELD_BATCH: nat := 8

  datatype Error =
    | Paused | InvalidProof | InvalidAnchor | NullifierSpent | CommitmentMismatch | AssetMismatch
    | AmountMismatch | MerkleTreeFull | InvalidNote | DuplicateCommitment | InvalidInputCount
    | RecipientMismatch | DuplicateInputInCall | AssetNotApproved | EmptyBatch | BatchTooLarge
    | RelayerRequired | RelayerNotApproved | FeeRefusedDuringShortfall
    | HostTrap // a missing authorization, a failed token transfer or a trapping verifier

  /**
    `self` is the pool's own address. `consumed` is history: the leaf indices that accepted spends
    have used, read off their witnesses.
  */
  datatype Pool = Pool(
    self: Address,
    paused: bool,
    minShield: int,
    approved: set<Address>,
    relayers: set<Address>,
    log: Log<Field>,
    nullifiers: set<Field>,
    seen: set<Field>,
    supply: map<Address, nat>,
    bank: Bank,
    consumed: set<nat>)
  {
    function Supply(asset: Address): nat {
      if asset in supply then supply[asset] else 0
    }

    function Balance(asset: Address): nat {
      BalanceOf(bank, asset, self)
    }

    function CustodyShortfall(asset: Address): nat {
      if Supply(asset) > Balance(asset) then Supply(asset) - Balance(asset) else 0
    }
  }

  // ----- shield

  /** One deposit. */
  datatype ShieldItem = ShieldItem(
    amount: int,
    rho: Field,
    rcm: Field,
    ownerPk: Field,
    commitment: Field,
    encryptedNote: seq<byte>,
    proof: Proof<ShieldStatement, Note>,
    pub: ShieldPublicInputs)

  function ItemNote(asset: Address, item: ShieldItem): Note
    requires item.amount >= 0
  {
    Note(item.amount, asset, item.rho, item.rcm, item.ownerPk)
  }

  predicate ShieldAccepted(asset: Address, item: ShieldItem) {
    && item.proof.Sound?
    && item.proof.statement == ShieldStatement(item.commitment, item.pub.valueCommit, item.amount, asset)
    && ShieldRelation(item.commitment, item.pub.valueCommit, item.amount, asset, item.proof.knowledge)
  }

  /** The checks a deposit must pass, in order; `seen` holds the commitments known so far. */
  function CheckItem(minShield: int, seen: set<Field>, asset: Address, item: ShieldItem): Guard<Error> {
    if item.amount <= 0 || item.amount < minShield then Fail(AmountMismatch)
    else if |item.encryptedNote| != ENCRYPTED_NOTE_LEN then Fail(InvalidNote)
    else if item.pub.pubValue != item.amount then Fail(AmountMismatch)
    else if item.pub.pubAsset != asset then Fail(AssetMismatch)
    else if Commit(ItemNote(asset, item)) != item.commitment then Fail(CommitmentMismatch)
    else if item.commitment in seen then Fail(DuplicateCommitment)
    else if item.proof.Malformed? then Fail(HostTrap)
    else if !ShieldAccepted(asset, item) then Fail(InvalidProof)
    else Pass
  }

  function Shield(s: Pool, auth: set<Address>, payer: Address, asset: Address, item: ShieldItem)
    : Result<(Pool, nat), Error>
  {
    if payer !in auth then Err(HostTrap)
    else
      :- Need(!s.paused, Paused);
      :- Need(asset in s.approved, AssetNotApproved);
      :- CheckItem(s.minShield, s.seen, asset, item);
      :- Need(s.log.HasCapacity(1), MerkleTreeFull);
      var s' :- SettleDeposit(s, payer, asset, [item.commitment], s.seen + {item.commitment}, item.amount);
      Ok((s', |s.log.leaves|))
  }

  /** A deposit whose checks passed: the supply must not overflow and the payer must pay; then write. */
  function SettleDeposit(
      s: Pool, payer: Address, asset: Address, commitments: seq<Field>, seen: set<Field>, total: int)
    : Result<Pool, Error>
  {
    if total < 0 || s.Supply(asset) + total > I128_MAX then Err(AmountMismatch)
    else
      var paid := Pay(s.bank, asset, payer, s.self, total);
      :- Need(paid.Some?, HostTrap);
      Ok(Deposit(s, asset, commitments, seen, total, paid.value))
  }

  /** The writes of a deposit that passed its checks and was paid. */
  function Deposit(s: Pool, asset: Address, commitments: seq<Field>, seen: set<Field>, total: nat, bank: Bank): Pool {
    s.(log := s.log.Insert(commitments),
       seen := seen,
       supply := s.supply[asset := s.Supply(asset) + total],
       bank := bank)
  }

  /** The loop of `shield_batch`: the commitments seen and the total deposited after all items. */
  function CheckBatch(minShield: int, seen: set<Field>, total: int, asset: Address, items: seq<ShieldItem>)
    : Result<(set<Field>, int), Error>
    decreases |items|
  {
    if items == [] then Ok((seen, total))
    else
      :- CheckItem(minShield, seen, asset, items[0]);
      :- Need(total + items[0].amount <= I128_MAX, AmountMismatch);
      CheckBatch(minShield, seen + {items[0].commitment}, total + items[0].amount, asset, items[1..])
  }

  function CommitmentsOf(items: seq<ShieldItem>): seq<Field> {
    seq(|items|, i requires 0 <= i < |items| => items[i].commitment)
  }

  function ShieldBatch(s: Pool, auth: set<Address>, payer: Address, asset: Address, items: seq<ShieldItem>)
    : Result<(Pool, seq<nat>), Error>
  {
    if payer !in auth then Err(HostTrap)
    else
      :- Need(!s.paused, Paused);
      :- Need(asset in s.approved, AssetNotApproved);
      :- Need(items != [], EmptyBatch);
      :- Need(|items| <= MAX_SHIELD_BATCH, BatchTooLarge);
      :- Need(s.log.HasCapacity(|items|), MerkleTreeFull);
      var (seen, total) :- CheckBatch(s.minShield, s.seen, 0, asset, items);
      var s' :- SettleDeposit(s, payer, asset, CommitmentsOf(items), seen, total);
      Ok((s', Indices(|s.log.leaves|, |items|)))
  }

  function Indices(first: nat, count: nat): seq<nat> {
    seq(count, i requires 0 <= i => first + i)
  }

  // ----- transfer

  datatype TransferCall = TransferCall(
    nullifiers: seq<Field>,
    commitments: seq<Field>,
    encryptedNotes: seq<seq<byte>>,
    proof: Proof<TransferPublicInputs, TransferWitness>,
    pub: TransferPublicInputs,
    relayer: Option<Address>)

  ghost predicate Distinct<T>(xs: seq<T>) {
    forall i, j :: 0 <= i < j < |xs| ==> xs[i] != xs[j]
  }

  ghost predicate Disjoint<T>(xs: seq<T>, s: set<T>) {
    forall i :: 0 <= i < |xs| ==> xs[i] !in s
  }

  function SeqSet<T>(xs: seq<T>): set<T> {
    set x | x in xs
  }

  function CheckRelayer(s: Pool, auth: set<Address>, c: TransferCall): Guard<Error> {
    if c.pub.fee <= 0 then Pass
    else if s.CustodyShortfall(c.pub.asset) > 0 then Fail(FeeRefusedDuringShortfall)
    else if c.relayer.None? then Fail(RelayerRequired)
    else if c.relayer.value !in auth then Fail(HostTrap)
    else if c.relayer.value !in s.relayers then Fail(RelayerNotApproved)
    else Pass
  }

  predicate ArityOk(n: nat, c: TransferCall) {
    && |c.nullifiers| == |c.commitments| == |c.encryptedNotes| == n
    && |c.pub.nullifiers| == |c.pub.outCommitments| == |c.pub.inValueCommits| == |c.pub.outValueCommits| == n
  }

  predicate NotesOk(c: TransferCall) {
    forall i :: 0 <= i < |c.encryptedNotes| ==> |c.encryptedNotes[i]| == ENCRYPTED_NOTE_LEN
  }

  predicate TransferAccepted(n: nat, c: TransferCall) {
    c.proof.Sound? && c.proof.statement == c.pub && TransferRelation(n, c.pub, c.proof.knowledge)
  }

  function InputIndices(ws: seq<SpendWitness>): seq<nat> {
    seq(|ws|, i requires 0 <= i < |ws| => ws[i].index)
  }

  ghost predicate Anchored(s: Pool, anchor: Field)
    requires s.log.Valid()
  {
    KnownRoot(Poseidon2, EMPTY_LEAF, s.log, anchor)
  }

  /** Every check a transfer passes before any state is touched, in order. */
  ghost function CheckTransfer(s: Pool, auth: set<Address>, n: nat, c: TransferCall): Guard<Error>
    requires s.log.Valid()
  {
    if s.paused then Fail(Paused)
    else if c.pub.fee < 0 then Fail(AmountMismatch)
    else if CheckRelayer(s, auth, c).Fail? then CheckRelayer(s, auth, c)
    else if !ArityOk(n, c) then Fail(InvalidInputCount)
    else if !NotesOk(c) then Fail(InvalidNote)
    else if c.nullifiers != c.pub.nullifiers || c.commitments != c.pub.outCommitments then Fail(CommitmentMismatch)
    else if !Anchored(s, c.pub.anchor) then Fail(InvalidAnchor)
    else if !Distinct(c.nullifiers) || !Distinct(c.commitments) then Fail(DuplicateInputInCall)
    else if !Disjoint(c.nullifiers, s.nullifiers) then Fail(NullifierSpent)
    else if !Disjoint(c.commitments, s.seen) then Fail(DuplicateCommitment)
    else if c.proof.Malformed? then Fail(HostTrap)
    else if !TransferAccepted(n, c) then Fail(InvalidProof)
    else if !s.log.HasCapacity(n) then Fail(MerkleTreeFull)
    else Pass
  }

  /** The balances once the relayer has its fee. */
  function PayFee(s: Pool, c: TransferCall): Result<Bank, Error>
    requires c.pub.fee > 0 ==> c.relayer.Some?
  {
    if c.pub.fee <= 0 then Ok(s.bank)
    else
      :- Need(c.pub.fee <= s.Supply(c.pub.asset), AmountMismatch);
      var paid := Pay(s.bank, c.pub.asset, s.self, c.relayer.value, c.pub.fee);
      :- Need(paid.Some?, HostTrap);
      Ok(paid.value)
  }

  ghost function Transfer(s: Pool, auth: set<Address>, n: nat, c: TransferCall): Result<(Pool, seq<nat>), Error>
    requires s.log.Valid()
  {
    var checked := CheckTransfer(s, auth, n, c);
    :- checked;
    SettleTransfer(s, n, c)
  }

  /** A transfer whose checks passed: pay the fee, then write. */
  ghost function SettleTransfer(s: Pool, n: nat, c: TransferCall): Result<(Pool, seq<nat>), Error>
    requires c.proof.Sound? && c.pub.fee >= 0 && (c.pub.fee > 0 ==> c.relayer.Some?)
  {
    var bank :- PayFee(s, c);
    Ok((Spend(s, c, bank), Indices(|s.log.leaves|, n)))
  }

  /** The writes of a transfer that passed its checks and whose fee was paid. */
  ghost function Spend(s: Pool, c: TransferCall, bank: Bank): Pool
    requires c.proof.Sound? && 0 <= c.pub.fee && (c.pub.fee <= s.Supply(c.pub.asset) || c.pub.fee == 0)
  {
    s.(log := s.log.Insert(c.commitments),
       nullifiers := s.nullifiers + SeqSet(c.nullifiers),
       seen := s.seen + SeqSet(c.commitments),
       supply := if c.pub.fee == 0 then s.supply
                 else s.supply[c.pub.asset := s.Supply(c.pub.asset) - c.pub.fee],
       bank := bank,
       consumed := s.consumed + SeqSet(InputIndices(c.proof.knowledge.inputs)))
  }

  // ----- unshield

  datatype UnshieldCall = UnshieldCall(
    nullifier: Field,
    payee: Address,
    bindingTag: Field,
    changeCommitment: Field,
    encryptedChangeNote: seq<byte>,
    proof: Proof<UnshieldPublicInputs, UnshieldWitness>,
    pub: UnshieldPublicInputs)

  predicate UnshieldAccepted(c: UnshieldCall) {
    c.proof.Sound? && c.proof.statement == c.pub && UnshieldRelation(c.pub, c.proof.knowledge)
  }

  ghost function CheckUnshield(s: Pool, c: UnshieldCall): Guard<Error>
    requires s.log.Valid()
  {
    if s.paused then Fail(Paused)
    else if c.pub.nullifier != c.nullifier || c.pub.changeCommitment != c.changeCommitment then Fail(CommitmentMismatch)
    else if Poseidon2(AddressField(c.payee), c.bindingTag) != c.pub.recipientHash then Fail(RecipientMismatch)
    else if |c.encryptedChangeNote| != ENCRYPTED_NOTE_LEN then Fail(InvalidNote)
    else if !Anchored(s, c.pub.anchor) then Fail(InvalidAnchor)
    else if c.nullifier in s.nullifiers then Fail(NullifierSpent)
    else if c.pub.pubValue <= 0 then Fail(AmountMismatch)
    else if c.proof.Malformed? then Fail(HostTrap)
    else if !UnshieldAccepted(c) then Fail(InvalidProof)
    else if !s.log.HasCapacity(1) then Fail(MerkleTreeFull)
    else if c.changeCommitment in s.seen then Fail(DuplicateCommitment)
    else Pass
  }

  /** What a withdrawal of `value` is paid: in full when backed, otherwise pro rata, rounded down. */
  function Payout(value: nat, balance: nat, supply: nat): nat {
    if balance >= supply then value else value * balance / supply
  }

  ghost function Unshield(s: Pool, c: UnshieldCall): Result<(Pool, nat), Error>
    requires s.log.Valid()
  {
    var checked := CheckUnshield(s, c);
    :- checked;
    SettleUnshield(s, c)
  }

  /** A withdrawal whose checks passed: pay it out, then write. */
  ghost function SettleUnshield(s: Pool, c: UnshieldCall): Result<(Pool, nat), Error>
    requires c.proof.Sound? && c.pub.pubValue > 0
  {
    var asset, value := c.pub.pubAsset, c.pub.pubValue;
    :- Need(value <= s.Supply(asset), AmountMismatch);
    var paid := Pay(s.bank, asset, s.self, c.payee, Payout(value, s.Balance(asset), s.Supply(asset)));
    :- Need(paid.Some?, HostTrap);
    Ok((Withdraw(s, c, paid.value), |s.log.leaves|))
  }

  /** The writes of a withdrawal that passed its checks and was paid out. */
  ghost function Withdraw(s: Pool, c: UnshieldCall, bank: Bank): Pool
    requires c.proof.Sound? && 0 <= c.pub.pubValue <= s.Supply(c.pub.pubAsset)
  {
    s.(log := s.log.Insert([c.changeCommitment]),
       nullifiers := s.nullifiers + {c.nullifier},
       seen := s.seen + {c.changeCommitment},
       supply := s.supply[c.pub.pubAsset := s.Supply(c.pub.pubAsset) - c.pub.pubValue],
       bank := bank,
       consumed := s.consumed + {c.proof.knowledge.spend.index})
  }
}
