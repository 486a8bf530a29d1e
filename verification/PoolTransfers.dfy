/** Which notes can move inside the pool: exactly when the transfer of given leaves to given notes succeeds. */
module PoolTransfers {
  import opened Wrappers
  import opened MerkleSpec
  import opened NoteTrees
  import opened Notes
  import opened PoolSpec
  import opened PoolConservation
  import PoolExits
  import PoolSystem

  function Worth(notes: seq<Note>): nat {
    if notes == [] then 0 else notes[0].value + Worth(notes[1..])
  }

  predicate AreNotes(leaves: seq<Field>, indices: seq<nat>) {
    forall k :: 0 <= k < |indices| ==> indices[k] < |leaves| && IsCommitment(leaves[indices[k]])
  }

  function NotesAt(leaves: seq<Field>, indices: seq<nat>): (notes: seq<Note>)
    requires AreNotes(leaves, indices)
  {
    seq(|indices|, k requires 0 <= k < |indices| => Open(leaves[indices[k]]))
  }

  /** What is to move: the leaves at `indices`, all of one owner's, to `outputs`, less `fee`. */
  datatype Move = Move(
    indices: seq<nat>, nk: Field, asset: Address, outputs: seq<Note>, fee: int, relayer: Option<Address>)

  function Witness(leaves: seq<Field>, m: Move): TransferWitness
    requires AreNotes(leaves, m.indices)
  {
    TransferWitness(
      m.nk,
      seq(|m.indices|, k requires 0 <= k < |m.indices| =>
        SpendWitness(Open(leaves[m.indices[k]]), Path(Poseidon2, EMPTY_LEAF, leaves, TREE_DEPTH, m.indices[k]),
                     m.indices[k])),
      m.outputs)
  }

  function Statement(leaves: seq<Field>, m: Move): TransferPublicInputs
    requires AreNotes(leaves, m.indices)
  {
    TransferPublicInputs(
      TreeRoot(Poseidon2, EMPTY_LEAF, leaves, TREE_DEPTH),
      seq(|m.indices|, k requires 0 <= k < |m.indices| => Nullifier(m.nk, Open(leaves[m.indices[k]]).rho)),
      seq(|m.outputs|, k requires 0 <= k < |m.outputs| => Commit(m.outputs[k])),
      seq(|m.indices|, k requires 0 <= k < |m.indices| => ValueCommit(Open(leaves[m.indices[k]]).value, Elem(0))),
      seq(|m.outputs|, k requires 0 <= k < |m.outputs| => ValueCommit(m.outputs[k].value, Elem(0))),
      m.fee, m.asset)
  }

  /** The call, opened against the current root. */
  function MoveCall(leaves: seq<Field>, m: Move): TransferCall
    requires AreNotes(leaves, m.indices)
  {
    var pub := Statement(leaves, m);
    TransferCall(pub.nullifiers, pub.outCommitments, seq(|m.indices|, _ => PoolExits.Ciphertext()),
                 Sound(pub, Witness(leaves, m)), pub, m.relayer)
  }

  // ----- when the circuit is satisfied

  /** The notes are the key's own and hold the asset, and the values, all of 64 bits, balance. */
  predicate Balanced(inputs: seq<Note>, m: Move) {
    && (forall k :: 0 <= k < |inputs| ==> Owned(inputs[k], m.nk, m.asset))
    && (forall k :: 0 <= k < |m.outputs| ==> m.outputs[k].value < TWO_64 && m.outputs[k].asset == m.asset)
    && 0 <= m.fee < TWO_64
    && Worth(inputs) == Worth(m.outputs) + m.fee
  }

  predicate Owned(note: Note, nk: Field, asset: Address) {
    note.value < TWO_64 && note.asset == asset && note.ownerPk == OwnerKey(nk)
  }

  lemma SpendsIffOwned(leaves: seq<Field>, i: nat, nk: Field, asset: Address)
    requires i < |leaves| <= MAX_LEAVES && IsCommitment(leaves[i])
    ensures Spends(TreeRoot(Poseidon2, EMPTY_LEAF, leaves, TREE_DEPTH), nk, Nullifier(nk, Open(leaves[i]).rho), asset,
                   SpendWitness(Open(leaves[i]), Path(Poseidon2, EMPTY_LEAF, leaves, TREE_DEPTH, i), i))
       <==> Owned(Open(leaves[i]), nk, asset)
  {
    Pow2Depth();
    PathReachesRoot(Poseidon2, EMPTY_LEAF, leaves, TREE_DEPTH, i);
  }

  lemma {:induction false} InputsWorth(ws: seq<SpendWitness>, notes: seq<Note>)
    requires |ws| == |notes| && forall k :: 0 <= k < |ws| ==> ws[k].note == notes[k]
    ensures SumInputs(ws) == SumOutputs(notes)
    decreases |ws|
  {
    if ws != [] {
      InputsWorth(ws[..|ws| - 1], notes[..|notes| - 1]);
    }
  }

  lemma {:induction false} OutputsWorth(notes: seq<Note>)
    ensures SumOutputs(notes) == Worth(notes)
    decreases |notes|
  {
    if |notes| > 0 {
      var last := |notes| - 1;
      OutputsWorth(notes[..last]);
      WorthSnoc(notes[..last], notes[last]);
      assert notes[..last] + [notes[last]] == notes;
    }
  }

  lemma {:induction false} WorthSnoc(notes: seq<Note>, note: Note)
    ensures Worth(notes + [note]) == Worth(notes) + note.value
    decreases |notes|
  {
    if notes == [] {
      assert ([note])[1..] == [];
    } else {
      WorthSnoc(notes[1..], note);
      assert (notes + [note])[1..] == notes[1..] + [note];
    }
  }

  lemma SumsAreWorth(ws: seq<SpendWitness>, inputs: seq<Note>, outputs: seq<Note>)
    requires |ws| == |inputs| && forall k :: 0 <= k < |ws| ==> ws[k].note == inputs[k]
    ensures SumInputs(ws) == Worth(inputs) && SumOutputs(outputs) == Worth(outputs)
  {
    InputsWorth(ws, inputs);
    OutputsWorth(inputs);
    OutputsWorth(outputs);
  }

  /** `pub` and `w` put the move of notes `inputs` to the circuit. */
  predicate Poses(n: nat, pub: TransferPublicInputs, w: TransferWitness, inputs: seq<Note>, m: Move) {
    && |w.inputs| == |pub.nullifiers| == |pub.outCommitments| == |inputs| == |m.outputs| == n <= MAX_INSERT_BATCH
    && pub.fee == m.fee && w.outputs == m.outputs && pub.asset == m.asset
    && (forall k :: 0 <= k < n ==> w.inputs[k].note == inputs[k])
    && (forall k :: 0 <= k < n ==>
          (Spends(pub.anchor, w.nk, pub.nullifiers[k], m.asset, w.inputs[k]) <==> Owned(inputs[k], m.nk, m.asset)))
    && (forall k :: 0 <= k < n ==> pub.outCommitments[k] == Commit(m.outputs[k]))
    && |pub.inValueCommits| == |pub.outValueCommits| == n
    && (forall k :: 0 <= k < n ==> CommitsValue(pub.inValueCommits[k], inputs[k].value))
    && (forall k :: 0 <= k < n ==> CommitsValue(pub.outValueCommits[k], m.outputs[k].value))
  }

  lemma RelationBalances(n: nat, pub: TransferPublicInputs, w: TransferWitness, inputs: seq<Note>, m: Move)
    requires Poses(n, pub, w, inputs, m) && TransferRelation(n, pub, w)
    ensures Balanced(inputs, m)
  {
    forall k | 0 <= k < n
      ensures Owned(inputs[k], m.nk, m.asset)
    {
      assert Spends(pub.anchor, w.nk, pub.nullifiers[k], m.asset, w.inputs[k]);
    }
    forall k | 0 <= k < n
      ensures m.outputs[k].value < TWO_64 && m.outputs[k].asset == m.asset
    {
      assert Creates(pub.outCommitments[k], m.asset, w.outputs[k]);
    }
    TransferBalances(n, pub, w);
    SumsAreWorth(w.inputs, inputs, m.outputs);
  }

  lemma BalancedRelates(n: nat, pub: TransferPublicInputs, w: TransferWitness, inputs: seq<Note>, m: Move)
    requires Poses(n, pub, w, inputs, m) && Balanced(inputs, m)
    ensures TransferRelation(n, pub, w)
  {
    SumsAreWorth(w.inputs, inputs, m.outputs);
    assert SumInputs(w.inputs) - SumOutputs(w.outputs) - pub.fee == 0;
  }

  /** The circuit accepts the call's witness exactly if the notes balance; the field leaves no other way. */
  lemma RelationIffBalanced(leaves: seq<Field>, m: Move, n: nat)
    requires AreNotes(leaves, m.indices) && |leaves| <= MAX_LEAVES
    requires |m.indices| == |m.outputs| == n <= MAX_INSERT_BATCH
    ensures TransferRelation(n, Statement(leaves, m), Witness(leaves, m)) <==> Balanced(NotesAt(leaves, m.indices), m)
  {
    var pub, w, inputs := Statement(leaves, m), Witness(leaves, m), NotesAt(leaves, m.indices);
    forall k | 0 <= k < n
      ensures Spends(pub.anchor, w.nk, pub.nullifiers[k], pub.asset, w.inputs[k]) <==> Owned(inputs[k], m.nk, m.asset)
    {
      SpendsIffOwned(leaves, m.indices[k], m.nk, m.asset);
    }
    if TransferRelation(n, pub, w) {
      RelationBalances(n, pub, w, inputs, m);
    }
    if Balanced(inputs, m) {
      BalancedRelates(n, pub, w, inputs, m);
    }
  }

  // ----- when the transfer succeeds

  /** Distinct `rho` and distinct new notes, none of them used before. */
  predicate Fresh(inputs: seq<Note>, m: Move, nullifiers: set<Field>, seen: set<Field>) {
    && (forall k :: 0 <= k < |inputs| ==> Nullifier(m.nk, inputs[k].rho) !in nullifiers)
    && (forall k :: 0 <= k < |m.outputs| ==> Commit(m.outputs[k]) !in seen)
    && (forall j, k :: 0 <= j < k < |inputs| ==> inputs[j].rho != inputs[k].rho)
    && (forall j, k :: 0 <= j < k < |m.outputs| ==> m.outputs[j] != m.outputs[k])
  }

  ghost predicate MoveAllowed(s: Pool, auth: set<Address>, m: Move)
    requires AreNotes(s.log.leaves, m.indices)
  {
    var inputs := NotesAt(s.log.leaves, m.indices);
    && !s.paused && |s.log.leaves| + |m.outputs| <= U32_MAX
    && Balanced(inputs, m) && Fresh(inputs, m, s.nullifiers, s.seen)
    && (m.fee > 0 ==>
          && m.relayer.Some? && m.relayer.value in auth && m.relayer.value in s.relayers
          && s.Supply(m.asset) <= s.Balance(m.asset))
  }

  lemma CallIsFresh(leaves: seq<Field>, m: Move, nullifiers: set<Field>, seen: set<Field>)
    requires AreNotes(leaves, m.indices)
    ensures var c := MoveCall(leaves, m);
            (Fresh(NotesAt(leaves, m.indices), m, nullifiers, seen)
             <==> Distinct(c.nullifiers) && Distinct(c.commitments)
                  && Disjoint(c.nullifiers, nullifiers) && Disjoint(c.commitments, seen))
  {
    var c, inputs := MoveCall(leaves, m), NotesAt(leaves, m.indices);
    assert forall k :: 0 <= k < |inputs| ==> c.nullifiers[k] == Nullifier(m.nk, inputs[k].rho);
    assert forall k :: 0 <= k < |m.outputs| ==> c.commitments[k] == Commit(m.outputs[k]);
    CommitmentsDiffer(m.outputs, c.commitments);
    assert Distinct(c.nullifiers) <==> forall j, k :: 0 <= j < k < |inputs| ==> inputs[j].rho != inputs[k].rho;
  }

  lemma CommitmentsDiffer(notes: seq<Note>, commitments: seq<Field>)
    requires |notes| == |commitments| && forall k :: 0 <= k < |notes| ==> commitments[k] == Commit(notes[k])
    ensures Distinct(commitments) <==> forall j, k :: 0 <= j < k < |notes| ==> notes[j] != notes[k]
  {
    forall j, k | 0 <= j < k < |notes|
      ensures commitments[j] != commitments[k] <==> notes[j] != notes[k]
    {
      CommitmentBinds(notes[j]);
      CommitmentBinds(notes[k]);
    }
  }

  lemma CallIsShaped(leaves: seq<Field>, m: Move, n: nat)
    requires AreNotes(leaves, m.indices) && |m.indices| == |m.outputs| == n
    ensures var c := MoveCall(leaves, m);
            && ArityOk(n, c) && NotesOk(c) && c.proof == Sound(Statement(leaves, m), Witness(leaves, m))
            && c.pub == Statement(leaves, m)
            && c.nullifiers == c.pub.nullifiers && c.commitments == c.pub.outCommitments
            && c.pub.fee == m.fee && c.pub.asset == m.asset && c.relayer == m.relayer
            && c.pub.anchor == TreeRoot(Poseidon2, EMPTY_LEAF, leaves, TREE_DEPTH)
  {
  }

  lemma FeeIsInOrder(s: Pool, auth: set<Address>, m: Move, c: TransferCall)
    requires c.pub.fee == m.fee && c.pub.asset == m.asset && c.relayer == m.relayer
    ensures CheckRelayer(s, auth, c).Pass?
       <==> (m.fee > 0 ==>
               && m.relayer.Some? && m.relayer.value in auth && m.relayer.value in s.relayers
               && s.Supply(m.asset) <= s.Balance(m.asset))
  {
  }

  /**
    The transfer of given leaves to given new notes succeeds exactly if the leaves hold unspent notes of
    one owner and one asset with distinct `rho`, the new notes are fresh and distinct, values balance
    with the fee over the integers, and whoever takes a fee is approved, present and paid from a pool
    without shortfall. The supply always covers the fee.
  */
  lemma MovesIffAllowed(s: Pool, auth: set<Address>, m: Move, n: nat)
    requires Inv(s) && AreNotes(s.log.leaves, m.indices)
    requires |m.indices| == |m.outputs| == n && 1 <= n <= MAX_INSERT_BATCH
    ensures Transfer(s, auth, n, MoveCall(s.log.leaves, m)).Ok? <==> MoveAllowed(s, auth, m)
  {
    var c := MoveCall(s.log.leaves, m);
    CallIsShaped(s.log.leaves, m, n);
    FeeIsInOrder(s, auth, m, c);
    CallIsFresh(s.log.leaves, m, s.nullifiers, s.seen);
    RelationIffBalanced(s.log.leaves, m, n);
    assert m.indices[0] < |s.log.leaves|;
    PoolExits.CurrentRootIsKnown(s.log);
    if CheckTransfer(s, auth, n, c).Pass? {
      PoolSystem.AcceptedTransferIsCovered(s, auth, n, c);
    }
  }
}
