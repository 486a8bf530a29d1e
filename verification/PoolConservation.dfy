/**
  Conservation: in every reachable state of the pool, for every asset, the recorded shielded supply
  is the total value of the notes no accepted spend has consumed, and no leaf is consumed twice.
*/
module PoolConservation {
  import opened Wrappers
  import opened NoteTrees
  import opened Notes
  import opened PoolSpec

  function ValueIn(leaf: Field, asset: Address): nat {
    if IsCommitment(leaf) && Open(leaf).asset == asset then Open(leaf).value else 0
  }

  /** Total value, in `asset`, of the leaves not consumed. */
  function Unspent(leaves: seq<Field>, consumed: set<nat>, asset: Address): nat {
    if leaves == [] then 0
    else
      var last := |leaves| - 1;
      Unspent(leaves[..last], consumed, asset) + (if last in consumed then 0 else ValueIn(leaves[last], asset))
  }

  /** A consumed leaf belongs to a nullifier key, and the nullifier that key gives it is spent. */
  predicate NullifierSpentFor(leaf: Field, nullifiers: set<Field>) {
    && IsCommitment(leaf) && Open(leaf).ownerPk.H?
    && Nullifier(Open(leaf).ownerPk.left, Open(leaf).rho) in nullifiers
  }

  ghost predicate Conserved(s: Pool) {
    forall a :: SupplyMatches(s, a)
  }

  ghost predicate SupplyMatches(s: Pool, a: Address) {
    s.Supply(a) == Unspent(s.log.leaves, s.consumed, a) <= I128_MAX
  }

  ghost predicate Inv(s: Pool) {
    && s.log.Valid()
    && (forall i :: 0 <= i < |s.log.leaves| ==> IsCommitment(s.log.leaves[i]))
    && Distinct(s.log.leaves)
    && s.seen == SeqSet(s.log.leaves)
    && (forall i :: i in s.consumed ==> i < |s.log.leaves| && NullifierSpentFor(s.log.leaves[i], s.nullifiers))
    && Conserved(s)
  }

  // ----- the unspent total

  lemma {:induction false} UnspentIgnoresLater(leaves: seq<Field>, consumed: set<nat>, more: set<nat>, asset: Address)
    requires forall i :: i in more ==> |leaves| <= i
    ensures Unspent(leaves, consumed + more, asset) == Unspent(leaves, consumed, asset)
  {
    if leaves != [] {
      UnspentIgnoresLater(leaves[..|leaves| - 1], consumed, more, asset);
    }
  }

  lemma UnspentAppend(leaves: seq<Field>, leaf: Field, consumed: set<nat>, asset: Address)
    requires |leaves| !in consumed
    ensures Unspent(leaves + [leaf], consumed, asset) == Unspent(leaves, consumed, asset) + ValueIn(leaf, asset)
  {
    assert (leaves + [leaf])[..|leaves|] == leaves;
  }

  lemma {:induction false} UnspentConsume(leaves: seq<Field>, consumed: set<nat>, i: nat, asset: Address)
    requires i < |leaves| && i !in consumed
    ensures Unspent(leaves, consumed + {i}, asset) + ValueIn(leaves[i], asset) == Unspent(leaves, consumed, asset)
  {
    var last := |leaves| - 1;
    if i == last {
      UnspentIgnoresLater(leaves[..last], consumed, {i}, asset);
    } else {
      UnspentConsume(leaves[..last], consumed, i, asset);
    }
  }

  /** Consuming distinct fresh inputs of one asset lowers that asset's total by their sum. */
  lemma {:induction false} UnspentConsumeInputs(
      leaves: seq<Field>, consumed: set<nat>, ws: seq<SpendWitness>, asset: Address, a: Address)
    requires forall i :: 0 <= i < |ws| ==> ws[i].index < |leaves| && ws[i].index !in consumed
    requires forall i :: 0 <= i < |ws| ==> leaves[ws[i].index] == Commit(ws[i].note) && ws[i].note.asset == asset
    requires Distinct(InputIndices(ws))
    ensures Unspent(leaves, consumed + SeqSet(InputIndices(ws)), a) + (if a == asset then SumInputs(ws) else 0)
         == Unspent(leaves, consumed, a)
  {
    if ws == [] {
      assert consumed + SeqSet(InputIndices(ws)) == consumed;
    } else {
      var last := |ws| - 1;
      var ids, front := InputIndices(ws), InputIndices(ws[..last]);
      assert front == ids[..last] && ids == front + [ws[last].index];
      UnspentConsumeInputs(leaves, consumed, ws[..last], asset, a);
      assert ws[last].index !in front by {
        assert ids[last] == ws[last].index;
      }
      UnspentConsume(leaves, consumed + SeqSet(front), ws[last].index, a);
      assert consumed + SeqSet(ids) == consumed + SeqSet(front) + {ws[last].index};
    }
  }

  lemma {:induction false} UnspentAppendOutputs(
      leaves: seq<Field>, cms: seq<Field>, consumed: set<nat>, ns: seq<Note>, asset: Address, a: Address)
    requires forall i :: i in consumed ==> i < |leaves|
    requires |cms| == |ns| && forall i :: 0 <= i < |ns| ==> cms[i] == Commit(ns[i]) && ns[i].asset == asset
    ensures Unspent(leaves + cms, consumed, a)
         == Unspent(leaves, consumed, a) + (if a == asset then SumOutputs(ns) else 0)
  {
    if cms == [] {
      assert leaves + cms == leaves;
    } else {
      var last := |cms| - 1;
      UnspentAppendOutputs(leaves, cms[..last], consumed, ns[..last], asset, a);
      assert leaves + cms == leaves + cms[..last] + [cms[last]];
      UnspentAppend(leaves + cms[..last], cms[last], consumed, a);
    }
  }

  // ----- what an accepted spend refers to

  /** The witness of an accepted spend names a leaf of the current tree that is not consumed yet. */
  lemma SpendIsFresh(s: Pool, anchor: Field, nk: Field, nullifier: Field, asset: Address, w: SpendWitness)
    requires Inv(s) && Anchored(s, anchor) && Spends(anchor, nk, nullifier, asset, w)
    requires nullifier !in s.nullifiers
    ensures w.index < |s.log.leaves| && s.log.leaves[w.index] == Commit(w.note)
    ensures w.index !in s.consumed
  {
    CommitmentBinds(w.note);
    NoCollision();
    KnownRootBinds(Poseidon2, EMPTY_LEAF, s.log, anchor, Commit(w.note), w.path, w.index);
  }

  /** Distinct nullifiers of one key come from distinct leaves. */
  lemma InputsAreFresh(s: Pool, n: nat, c: TransferCall)
    requires Inv(s) && Anchored(s, c.pub.anchor) && TransferAccepted(n, c)
    requires Distinct(c.pub.nullifiers) && Disjoint(c.pub.nullifiers, s.nullifiers)
    ensures forall i :: 0 <= i < n ==>
              var w := c.proof.knowledge.inputs[i];
              w.index < |s.log.leaves| && w.index !in s.consumed && s.log.leaves[w.index] == Commit(w.note)
    ensures Distinct(InputIndices(c.proof.knowledge.inputs))
  {
    var t := c.proof.knowledge;
    forall i | 0 <= i < n
      ensures var w := t.inputs[i];
              w.index < |s.log.leaves| && w.index !in s.consumed && s.log.leaves[w.index] == Commit(w.note)
    {
      SpendIsFresh(s, c.pub.anchor, t.nk, c.pub.nullifiers[i], c.pub.asset, t.inputs[i]);
    }
    forall i, j | 0 <= i < j < n
      ensures t.inputs[i].index != t.inputs[j].index
    {
      CommitmentBinds(t.inputs[i].note);
      CommitmentBinds(t.inputs[j].note);
      assert c.pub.nullifiers[i] != c.pub.nullifiers[j];
    }
  }

  // ----- each entrypoint keeps the invariant

  lemma DistinctAppend<T>(xs: seq<T>, ys: seq<T>)
    requires Distinct(xs) && Distinct(ys) && Disjoint(ys, SeqSet(xs))
    ensures Distinct(xs + ys)
    ensures SeqSet(xs + ys) == SeqSet(xs) + SeqSet(ys)
  {
    assert forall i :: 0 <= i < |xs| ==> xs[i] in SeqSet(xs);
    var zs := xs + ys;
    forall i, j | 0 <= i < j < |zs|
      ensures zs[i] != zs[j]
    {
      if i < |xs| <= j {
        assert zs[j] == ys[j - |xs|];
      }
    }
    assert forall y :: y in ys ==> y in zs;
  }

  lemma ShieldLeavesOk(s: Pool, auth: set<Address>, payer: Address, asset: Address, item: ShieldItem)
    requires Inv(s) && Shield(s, auth, payer, asset, item).Ok?
    ensures var s' := Shield(s, auth, payer, asset, item).value.0;
            && (forall i :: 0 <= i < |s'.log.leaves| ==> IsCommitment(s'.log.leaves[i]))
            && Distinct(s'.log.leaves) && s'.seen == SeqSet(s'.log.leaves)
  {
    CommitmentBinds(ItemNote(asset, item));
    DistinctAppend(s.log.leaves, [item.commitment]);
    assert SeqSet([item.commitment]) == {item.commitment};
  }

  lemma ShieldSupplyOk(s: Pool, auth: set<Address>, payer: Address, asset: Address, item: ShieldItem, a: Address)
    requires SupplyMatches(s, a) && |s.log.leaves| !in s.consumed && Shield(s, auth, payer, asset, item).Ok?
    ensures SupplyMatches(Shield(s, auth, payer, asset, item).value.0, a)
  {
    CommitmentBinds(ItemNote(asset, item));
    UnspentAppend(s.log.leaves, item.commitment, s.consumed, a);
  }

  lemma ShieldKeepsInv(s: Pool, auth: set<Address>, payer: Address, asset: Address, item: ShieldItem)
    requires Inv(s) && Shield(s, auth, payer, asset, item).Ok?
    ensures Inv(Shield(s, auth, payer, asset, item).value.0)
  {
    ShieldLeavesOk(s, auth, payer, asset, item);
    forall a
      ensures SupplyMatches(Shield(s, auth, payer, asset, item).value.0, a)
    {
      assert SupplyMatches(s, a);
      ShieldSupplyOk(s, auth, payer, asset, item, a);
    }
  }

  lemma TransferLeavesOk(s: Pool, auth: set<Address>, n: nat, c: TransferCall)
    requires Inv(s) && Transfer(s, auth, n, c).Ok?
    ensures var s' := Transfer(s, auth, n, c).value.0;
            && (forall i :: 0 <= i < |s'.log.leaves| ==> IsCommitment(s'.log.leaves[i]))
            && Distinct(s'.log.leaves) && s'.seen == SeqSet(s'.log.leaves)
  {
    var s' := Transfer(s, auth, n, c).value.0;
    DistinctAppend(s.log.leaves, c.commitments);
    forall i | |s.log.leaves| <= i < |s'.log.leaves|
      ensures IsCommitment(s'.log.leaves[i])
    {
      CommitmentBinds(c.proof.knowledge.outputs[i - |s.log.leaves|]);
    }
  }

  lemma TransferConsumedOk(s: Pool, auth: set<Address>, n: nat, c: TransferCall)
    requires Inv(s) && Transfer(s, auth, n, c).Ok?
    ensures var s' := Transfer(s, auth, n, c).value.0;
            forall i :: i in s'.consumed ==> i < |s.log.leaves| && NullifierSpentFor(s.log.leaves[i], s'.nullifiers)
  {
    var s' := Transfer(s, auth, n, c).value.0;
    var t := c.proof.knowledge;
    InputsAreFresh(s, n, c);
    forall i | i in s'.consumed
      ensures i < |s.log.leaves| && NullifierSpentFor(s.log.leaves[i], s'.nullifiers)
    {
      if i !in s.consumed {
        var k :| 0 <= k < n && InputIndices(t.inputs)[k] == i;
        CommitmentBinds(t.inputs[k].note);
        assert c.nullifiers[k] in s'.nullifiers;
      }
    }
  }

  lemma TransferSupplyOk(s: Pool, auth: set<Address>, n: nat, c: TransferCall, a: Address)
    requires Inv(s) && 1 <= n <= MAX_INSERT_BATCH && Transfer(s, auth, n, c).Ok?
    ensures SupplyMatches(Transfer(s, auth, n, c).value.0, a)
  {
    var s' := Transfer(s, auth, n, c).value.0;
    var t := c.proof.knowledge;
    InputsAreFresh(s, n, c);
    TransferConsumedOk(s, auth, n, c);
    TransferBalances(n, c.pub, t);
    assert SupplyMatches(s, a);
    assert s'.Supply(a) == s.Supply(a) - (if a == c.pub.asset then c.pub.fee else 0);
    UnspentConsumeInputs(s.log.leaves, s.consumed, t.inputs, c.pub.asset, a);
    UnspentAppendOutputs(s.log.leaves, c.commitments, s'.consumed, t.outputs, c.pub.asset, a);
  }

  lemma TransferKeepsInv(s: Pool, auth: set<Address>, n: nat, c: TransferCall)
    requires Inv(s) && 1 <= n <= MAX_INSERT_BATCH && Transfer(s, auth, n, c).Ok?
    ensures Inv(Transfer(s, auth, n, c).value.0)
  {
    var s' := Transfer(s, auth, n, c).value.0;
    TransferLeavesOk(s, auth, n, c);
    TransferConsumedOk(s, auth, n, c);
    forall a
      ensures SupplyMatches(s', a)
    {
      TransferSupplyOk(s, auth, n, c, a);
    }
  }

  lemma UnshieldSupplyOk(s: Pool, c: UnshieldCall, a: Address)
    requires Inv(s) && Unshield(s, c).Ok?
    ensures SupplyMatches(Unshield(s, c).value.0, a)
  {
    var t := c.proof.knowledge;
    SpendIsFresh(s, c.pub.anchor, t.nk, c.nullifier, c.pub.pubAsset, t.spend);
    UnshieldBalances(c.pub, t);
    CommitmentBinds(t.spend.note);
    CommitmentBinds(t.change);
    assert SupplyMatches(s, a);
    UnspentConsume(s.log.leaves, s.consumed, t.spend.index, a);
    UnspentAppend(s.log.leaves, c.changeCommitment, s.consumed + {t.spend.index}, a);
  }

  lemma UnshieldLeavesOk(s: Pool, c: UnshieldCall)
    requires Inv(s) && Unshield(s, c).Ok?
    ensures var s' := Unshield(s, c).value.0;
            && (forall i :: 0 <= i < |s'.log.leaves| ==> IsCommitment(s'.log.leaves[i]))
            && Distinct(s'.log.leaves) && s'.seen == SeqSet(s'.log.leaves)
  {
    CommitmentBinds(c.proof.knowledge.change);
    DistinctAppend(s.log.leaves, [c.changeCommitment]);
    assert SeqSet([c.changeCommitment]) == {c.changeCommitment};
  }

  lemma UnshieldConsumedOk(s: Pool, c: UnshieldCall)
    requires Inv(s) && Unshield(s, c).Ok?
    ensures var s' := Unshield(s, c).value.0;
            forall i :: i in s'.consumed ==> i < |s.log.leaves| && NullifierSpentFor(s.log.leaves[i], s'.nullifiers)
  {
    var t := c.proof.knowledge;
    SpendIsFresh(s, c.pub.anchor, t.nk, c.nullifier, c.pub.pubAsset, t.spend);
    CommitmentBinds(t.spend.note);
  }

  lemma UnshieldKeepsInv(s: Pool, c: UnshieldCall)
    requires Inv(s) && Unshield(s, c).Ok?
    ensures Inv(Unshield(s, c).value.0)
  {
    var s' := Unshield(s, c).value.0;
    UnshieldLeavesOk(s, c);
    UnshieldConsumedOk(s, c);
    forall a
      ensures SupplyMatches(s', a)
    {
      UnshieldSupplyOk(s, c, a);
    }
  }
}
