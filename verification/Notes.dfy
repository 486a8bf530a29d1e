/**
  Notes, commitments, nullifiers and the circuit relations. Field elements form a free algebra
  over `Poseidon2`: the hash is injective and never collides with a plain element.
*/
module Notes {
  import opened Wrappers
  import opened MerkleSpec
  import opened NoteTrees

  datatype Field = Elem(n: nat) | H(left: Field, right: Field)

  function Poseidon2(a: Field, b: Field): Field { H(a, b) }

  const EMPTY_LEAF: Field := Poseidon2(Elem(0), Elem(0))

  const DOMAIN_PK: Field := Elem(2258241487740017274987)

  /** BN254 scalar-field modulus r. */
  const FR_MODULUS: nat := 0x30644e72e131a029b85045b68181585d2833e84879b9709143e1f593f0000001

  const TWO_64: nat := 0x1_0000_0000_0000_0000

  const ENCRYPTED_NOTE_LEN: nat := 176

  datatype Address = Address(id: nat)

  function AddressField(a: Address): Field { Elem(a.id) }

  datatype Note = Note(value: nat, asset: Address, rho: Field, rcm: Field, ownerPk: Field)

  function OwnerKey(nk: Field): Field { Poseidon2(nk, DOMAIN_PK) }

  function Nullifier(nk: Field, rho: Field): Field { Poseidon2(nk, rho) }

  function Commit(n: Note): Field {
    Poseidon2(
      Poseidon2(Poseidon2(Elem(n.value), AddressField(n.asset)), Poseidon2(n.rho, n.rcm)),
      n.ownerPk)
  }

  predicate IsCommitment(f: Field) {
    && f.H? && f.left.H? && f.left.left.H? && f.left.right.H?
    && f.left.left.left.Elem? && f.left.left.right.Elem?
  }

  /** The one note a commitment opens to. */
  function Open(f: Field): (n: Note)
    requires IsCommitment(f)
    ensures Commit(n) == f
  {
    Note(f.left.left.left.n, Address(f.left.left.right.n), f.left.right.left, f.left.right.right, f.right)
  }

  lemma CommitmentBinds(n: Note)
    ensures IsCommitment(Commit(n)) && Open(Commit(n)) == n
    ensures Commit(n) != EMPTY_LEAF
  {
  }

  /** A key is behind one owner key only, and a nullifier belongs to one owner and one `rho`. */
  lemma KeysBind(nk: Field, rho: Field, nk': Field, rho': Field)
    ensures OwnerKey(nk) == OwnerKey(nk') <==> nk == nk'
    ensures Nullifier(nk, rho) == Nullifier(nk', rho') <==> OwnerKey(nk) == OwnerKey(nk') && rho == rho'
  {
  }

  lemma NoCollision()
    ensures !Collision(Poseidon2)
  {
  }

  // ----- circuit relations

  /** What spending one input slot proves about `index` in the tree with root `anchor`. */
  datatype SpendWitness = SpendWitness(note: Note, path: seq<Field>, index: nat)

  predicate Spends(anchor: Field, nk: Field, nullifier: Field, asset: Address, w: SpendWitness) {
    && w.note.value < TWO_64
    && w.note.asset == asset
    && w.note.ownerPk == OwnerKey(nk)
    && |w.path| == TREE_DEPTH && w.index <= U32_MAX
    && Fold(Poseidon2, Commit(w.note), w.path, w.index) == anchor
    && nullifier == Nullifier(nk, w.note.rho)
  }

  predicate Creates(commitment: Field, asset: Address, n: Note) {
    n.value < TWO_64 && n.asset == asset && commitment == Commit(n)
  }

  /** The value commitment of `value` under some blinding factor. */
  predicate CommitsValue(cv: Field, value: int) {
    cv.H? && cv.left.Elem? && cv.left.n == value
  }

  function ValueCommit(value: nat, rcv: Field): (cv: Field)
    ensures CommitsValue(cv, value)
  {
    Poseidon2(Elem(value), rcv)
  }

  datatype ShieldPublicInputs = ShieldPublicInputs(valueCommit: Field, pubValue: int, pubAsset: Address)

  predicate ShieldRelation(commitment: Field, valueCommit: Field, pubValue: int, pubAsset: Address, n: Note) {
    Creates(commitment, pubAsset, n) && CommitsValue(valueCommit, n.value) && n.value == pubValue
  }

  datatype TransferPublicInputs = TransferPublicInputs(
    anchor: Field,
    nullifiers: seq<Field>,
    outCommitments: seq<Field>,
    inValueCommits: seq<Field>,
    outValueCommits: seq<Field>,
    fee: int,
    asset: Address)

  datatype TransferWitness = TransferWitness(nk: Field, inputs: seq<SpendWitness>, outputs: seq<Note>)

  function SumInputs(ws: seq<SpendWitness>): nat {
    if ws == [] then 0 else SumInputs(ws[..|ws| - 1]) + ws[|ws| - 1].note.value
  }

  function SumOutputs(ns: seq<Note>): nat {
    if ns == [] then 0 else SumOutputs(ns[..|ns| - 1]) + ns[|ns| - 1].value
  }

  /** The n-in-n-out circuit; its balance equation holds in the field, that is modulo r. */
  predicate TransferRelation(n: nat, pub: TransferPublicInputs, w: TransferWitness) {
    && |w.inputs| == |w.outputs| == |pub.nullifiers| == |pub.outCommitments| == n
    && |pub.inValueCommits| == |pub.outValueCommits| == n
    && (forall i :: 0 <= i < n ==> Spends(pub.anchor, w.nk, pub.nullifiers[i], pub.asset, w.inputs[i]))
    && (forall i :: 0 <= i < n ==> Creates(pub.outCommitments[i], pub.asset, w.outputs[i]))
    && (forall i :: 0 <= i < n ==> CommitsValue(pub.inValueCommits[i], w.inputs[i].note.value))
    && (forall i :: 0 <= i < n ==> CommitsValue(pub.outValueCommits[i], w.outputs[i].value))
    && 0 <= pub.fee < TWO_64
    && (SumInputs(w.inputs) - SumOutputs(w.outputs) - pub.fee) % FR_MODULUS == 0
  }

  datatype UnshieldPublicInputs = UnshieldPublicInputs(
    anchor: Field,
    nullifier: Field,
    pubValue: int,
    pubAsset: Address,
    recipientHash: Field,
    changeCommitment: Field,
    changeValueCommit: Field)

  datatype UnshieldWitness = UnshieldWitness(nk: Field, spend: SpendWitness, change: Note)

  predicate UnshieldRelation(pub: UnshieldPublicInputs, w: UnshieldWitness) {
    && Spends(pub.anchor, w.nk, pub.nullifier, pub.pubAsset, w.spend)
    && Creates(pub.changeCommitment, pub.pubAsset, w.change)
    && CommitsValue(pub.changeValueCommit, w.change.value)
    && w.change.ownerPk == OwnerKey(w.nk)
    && 0 <= pub.pubValue < TWO_64
    && (w.spend.note.value - pub.pubValue - w.change.value) % FR_MODULUS == 0
  }

  /** The public inputs of a deposit's proof. */
  datatype ShieldStatement = ShieldStatement(commitment: Field, valueCommit: Field, value: int, asset: Address)

  /**
    What the verifier sees: bytes it traps on (or a verifier that is paused or has no key), a proof
    it rejects, or one it may accept. Such a proof was made for one list of public inputs, is accepted
    for no other, and carries a witness (knowledge soundness).
  */
  datatype Proof<+S, +W> = Malformed | Unsound | Sound(statement: S, knowledge: W)

  // ----- the field equations hold over the integers

  lemma {:induction false} SumInputsBound(ws: seq<SpendWitness>)
    requires forall i :: 0 <= i < |ws| ==> ws[i].note.value < TWO_64
    ensures SumInputs(ws) <= |ws| * TWO_64
  {
    if ws != [] {
      SumInputsBound(ws[..|ws| - 1]);
    }
  }

  lemma {:induction false} SumOutputsBound(ns: seq<Note>)
    requires forall i :: 0 <= i < |ns| ==> ns[i].value < TWO_64
    ensures SumOutputs(ns) <= |ns| * TWO_64
  {
    if ns != [] {
      SumOutputsBound(ns[..|ns| - 1]);
    }
  }

  lemma SmallMultipleIsZero(x: int)
    requires -(FR_MODULUS as int) < x < FR_MODULUS && x % FR_MODULUS == 0
    ensures x == 0
  {
  }

  /** The 64-bit range checks leave the balance equation no room to wrap around r. */
  lemma TransferBalances(n: nat, pub: TransferPublicInputs, w: TransferWitness)
    requires TransferRelation(n, pub, w) && n <= MAX_INSERT_BATCH
    ensures SumInputs(w.inputs) == SumOutputs(w.outputs) + pub.fee
  {
    SumInputsBound(w.inputs);
    SumOutputsBound(w.outputs);
    SmallMultipleIsZero(SumInputs(w.inputs) - SumOutputs(w.outputs) - pub.fee);
  }

  lemma UnshieldBalances(pub: UnshieldPublicInputs, w: UnshieldWitness)
    requires UnshieldRelation(pub, w)
    ensures w.spend.note.value == pub.pubValue + w.change.value
  {
    SmallMultipleIsZero(w.spend.note.value - pub.pubValue - w.change.value);
  }
}
