/**
  What each governance call demands and changes, said without reference to how it is carried out, and
  what cancelling, revoking and approving therefore mean over whole histories.
*/
module GovernanceEffects {
  import opened Wrappers
  import opened Notes
  import opened Groth16
  import opened KeyRegistry
  import opened GovernanceSpec

  // ----- queueing

  /** Only the admin queues, and only while governance is not paused. */
  lemma QueueSucceedsIff(g: Gov, auth: set<Address>, slot: Slot, payload: Payload)
    ensures Next(g, Queue(auth, slot, payload)).Some?
       <==> && g.admin in auth && !g.paused && Fits(slot, payload)
            && (payload.Action? && payload.action.MinShieldAmount? ==> payload.action.amount > 0)
            && g.ledger + 120_960 <= U32_MAX
    ensures Next(g, Queue(auth, slot, payload)).Some? ==>
              Step(g, Queue(auth, slot, payload))
              == g.(pending := g.pending[slot := Pending(payload, g.ledger + 120_960)])
  {
  }

  // ----- cancelling

  /** The event is an authorized cancel of the slot: the guardian's, or the admin's for a key. */
  predicate Cancels(g: Gov, op: Op, slot: Slot) {
    || (op.GuardianCancel? && op.slot == slot && g.guardian in op.auth)
    || (op.CancelVkUpdate? && slot == PendingVkUpdate(op.circuit) && g.admin in op.auth)
  }

  /** A cancel takes effect paused or not, and all it does is to remove what is pending in its slot. */
  lemma CancelRemoves(g: Gov, op: Op, slot: Slot)
    requires Cancels(g, op, slot)
    ensures Next(g, op).Some? && slot !in Step(g, op).pending
    ensures forall other :: other != slot ==>
              && (other in Step(g, op).pending <==> other in g.pending)
              && (other in g.pending ==> Step(g, op).pending[other] == g.pending[other])
    ensures Step(g, op) == g.(pending := Step(g, op).pending)
  {
  }

  /**
    A cancelled change is gone: if event `i` cancelled a slot and a later event `k` executed it, then in
    between the admin queued the payload executed afresh, and its whole timelock ran out after that.
  */
  lemma CancelledNeedsRequeuing(states: seq<Gov>, ops: seq<Op>, i: nat, k: nat, slot: Slot) returns (j: nat)
    requires Trace(states, ops) && i < k < |ops|
    requires Cancels(states[i], ops[i], slot) && Executed(states[k], ops[k], slot)
    ensures i < j < k && Queued(states[j], ops[j], slot, states[k].pending[slot].payload)
    ensures states[i].ledger + 120_960 <= states[j].ledger + 120_960 <= states[k].ledger
  {
    j := ExecutedWasTimelocked(states, ops, k, slot);
    CancelRemoves(states[i], ops[i], slot);
    assert states[i + 1] == Step(states[i], ops[i]);
    LedgersRise(states, ops, i, j);
  }

  /** Nothing happens without authority, and the guardian's reaches no further than removing what is pending. */
  lemma OnlyTheAdminBrings(g: Gov, op: Op)
    requires !op.Tick? && g.admin !in op.auth
    ensures var g' := Step(g, op);
            && g' == g.(pending := g'.pending)
            && (forall slot :: slot in g'.pending ==> slot in g.pending && g'.pending[slot] == g.pending[slot])
            && (g.guardian !in op.auth ==> g' == g)
  {
  }

  // ----- executing a key change

  ghost predicate VkExecutable(g: Gov, auth: set<Address>, circuit: CircuitType) {
    var slot := PendingVkUpdate(circuit);
    && g.admin in auth && !g.paused && !g.registry.paused
    && slot in g.pending && g.pending[slot].payload.NewVk? && g.pending[slot].eta <= g.ledger
    && |g.pending[slot].payload.vk| > 448 && |g.pending[slot].payload.vk| % 64 == 0
  }

  /**
    A pending key is installed exactly under these conditions; the key it replaces, if any, is retained
    for 17,280 ledgers, and nothing else changes for this or any other circuit.
  */
  lemma VkExecution(g: Gov, auth: set<Address>, circuit: CircuitType)
    ensures Next(g, Execute(auth, PendingVkUpdate(circuit))).Some? <==> VkExecutable(g, auth, circuit)
    ensures VkExecutable(g, auth, circuit) ==>
              var g', v := Step(g, Execute(auth, PendingVkUpdate(circuit))), g.registry;
              && g' == g.(pending := g.pending - {PendingVkUpdate(circuit)}, registry := g'.registry)
              && g'.registry.keys == v.keys[circuit := g.pending[PendingVkUpdate(circuit)].payload.vk]
              && !g'.registry.paused
              && (circuit !in v.keys ==>
                    g'.registry.previous == v.previous && g'.registry.previousExpiry == v.previousExpiry)
              && (circuit in v.keys ==>
                    && g'.registry.previous == v.previous[circuit := v.keys[circuit]]
                    && (var end := if g.ledger + 17_280 <= U32_MAX then g.ledger + 17_280 else U32_MAX;
                        g'.registry.previousExpiry == v.previousExpiry[circuit := end]))
  {
  }

  // ----- executing a token action

  ghost predicate ActionExecutable(g: Gov, auth: set<Address>) {
    && g.admin in auth && !g.paused
    && PendingTokenAction in g.pending && g.pending[PendingTokenAction].eta <= g.ledger
    && g.pending[PendingTokenAction].payload.Action?
    && (g.pending[PendingTokenAction].payload.action.MinShieldAmount? ==>
          g.pending[PendingTokenAction].payload.action.amount > 0)
  }

  /** The settings an action leaves: the one thing it names, set as it says. */
  ghost predicate TakesEffect(action: TokenAdminAction, t: TokenSettings, t': TokenSettings) {
    && t'.minShield == (if action.MinShieldAmount? then action.amount else t.minShield)
    && (forall a :: a in t'.approved <==>
          if action.AssetApproval? && action.asset == a then action.approved else a in t.approved)
    && (forall r :: r in t'.relayers <==>
          if action.Relayer? && action.relayer == r then action.approved else r in t.relayers)
  }

  lemma ActionExecution(g: Gov, auth: set<Address>)
    ensures Next(g, Execute(auth, PendingTokenAction)).Some? <==> ActionExecutable(g, auth)
    ensures ActionExecutable(g, auth) ==>
              var g' := Step(g, Execute(auth, PendingTokenAction));
              && g' == g.(pending := g.pending - {PendingTokenAction}, token := g'.token)
              && TakesEffect(g.pending[PendingTokenAction].payload.action, g.token, g'.token)
  {
  }

  /** Event `k` executed this action. */
  ghost predicate ExecutedAction(g: Gov, op: Op, action: TokenAdminAction) {
    Executed(g, op, PendingTokenAction) && g.pending[PendingTokenAction].payload == Action(action)
  }

  lemma TokenStep(g: Gov, op: Op)
    ensures Step(g, op).token == g.token
         || (exists action :: ExecutedAction(g, op, action) && TakesEffect(action, g.token, Step(g, op).token))
  {
    if Executed(g, op, PendingTokenAction) {
      ActionExecution(g, op.auth);
      assert ExecutedAction(g, op, g.pending[PendingTokenAction].payload.action);
    }
  }

  /**
    An asset approved or barred since the deployment was so by an executed action, the last word on that
    asset, which had waited out its timelock.
  */
  lemma {:induction false} ApprovalWasExecuted(states: seq<Gov>, ops: seq<Op>, n: nat, asset: Address)
    returns (j: nat, k: nat)
    requires Trace(states, ops) && n < |states|
    requires (asset in states[n].token.approved) != (asset in states[0].token.approved)
    ensures j < k < n && states[j].ledger + 120_960 <= states[k].ledger
    ensures var action := AssetApproval(asset, asset in states[n].token.approved);
            && ExecutedAction(states[k], ops[k], action)
            && Queued(states[j], ops[j], PendingTokenAction, Action(action))
    ensures forall i :: k < i <= n ==> (asset in states[i].token.approved <==> asset in states[n].token.approved)
    decreases n
  {
    assert states[n] == Step(states[n - 1], ops[n - 1]);
    TokenStep(states[n - 1], ops[n - 1]);
    if asset in states[n - 1].token.approved <==> asset in states[n].token.approved {
      j, k := ApprovalWasExecuted(states, ops, n - 1, asset);
    } else {
      k := n - 1;
      j := ExecutedWasTimelocked(states, ops, k, PendingTokenAction);
    }
  }

  /** Likewise for relayers. */
  lemma {:induction false} RelayerWasExecuted(states: seq<Gov>, ops: seq<Op>, n: nat, relayer: Address)
    returns (j: nat, k: nat)
    requires Trace(states, ops) && n < |states|
    requires (relayer in states[n].token.relayers) != (relayer in states[0].token.relayers)
    ensures j < k < n && states[j].ledger + 120_960 <= states[k].ledger
    ensures var action := Relayer(relayer, relayer in states[n].token.relayers);
            && ExecutedAction(states[k], ops[k], action)
            && Queued(states[j], ops[j], PendingTokenAction, Action(action))
    ensures forall i :: k < i <= n ==> (relayer in states[i].token.relayers <==> relayer in states[n].token.relayers)
    decreases n
  {
    assert states[n] == Step(states[n - 1], ops[n - 1]);
    TokenStep(states[n - 1], ops[n - 1]);
    if relayer in states[n - 1].token.relayers <==> relayer in states[n].token.relayers {
      j, k := RelayerWasExecuted(states, ops, n - 1, relayer);
    } else {
      k := n - 1;
      j := ExecutedWasTimelocked(states, ops, k, PendingTokenAction);
    }
  }

  /** Likewise for the minimum deposit, which is positive wherever it was changed. */
  lemma {:induction false} MinimumWasExecuted(states: seq<Gov>, ops: seq<Op>, n: nat) returns (j: nat, k: nat)
    requires Trace(states, ops) && n < |states| && states[n].token.minShield != states[0].token.minShield
    ensures j < k < n && states[j].ledger + 120_960 <= states[k].ledger
    ensures states[n].token.minShield > 0
    ensures var action := MinShieldAmount(states[n].token.minShield);
            && ExecutedAction(states[k], ops[k], action)
            && Queued(states[j], ops[j], PendingTokenAction, Action(action))
    ensures forall i :: k < i <= n ==> states[i].token.minShield == states[n].token.minShield
    decreases n
  {
    assert states[n] == Step(states[n - 1], ops[n - 1]);
    TokenStep(states[n - 1], ops[n - 1]);
    if states[n - 1].token.minShield == states[n].token.minShield {
      j, k := MinimumWasExecuted(states, ops, n - 1);
    } else {
      k := n - 1;
      j := ExecutedWasTimelocked(states, ops, k, PendingTokenAction);
    }
  }

  // ----- the registry

  /** Revoking needs the admin, works paused or not, and drops the circuit's retained key and nothing else. */
  lemma RevokeDrops(g: Gov, auth: set<Address>, circuit: CircuitType)
    ensures Next(g, RevokePreviousVk(auth, circuit)).Some? <==> g.admin in auth
    ensures g.admin in auth ==>
              var g', v := Step(g, RevokePreviousVk(auth, circuit)), g.registry;
              && g' == g.(registry := g'.registry)
              && g'.registry.keys == v.keys && g'.registry.paused == v.paused
              && circuit !in g'.registry.previous && g'.registry.Expiry(circuit) == 0
              && (forall other :: other != circuit ==>
                    && (other in g'.registry.previous <==> other in v.previous)
                    && (other in v.previous ==> g'.registry.previous[other] == v.previous[other])
                    && g'.registry.Expiry(other) == v.Expiry(other))
  {
  }

  /** A revoked key is gone: a key retained after a revocation was retained by a later rotation. */
  lemma RevokedUntilNextRotation(states: seq<Gov>, ops: seq<Op>, i: nat, n: nat, circuit: CircuitType) returns (k: nat)
    requires Trace(states, ops) && i < n < |states| && ops[i].RevokePreviousVk? && ops[i].circuit == circuit
    requires states[i].admin in ops[i].auth && circuit in states[n].registry.previous
    ensures i < k < n && Executed(states[k], ops[k], PendingVkUpdate(circuit))
    ensures circuit in states[k].registry.keys
    ensures states[n].registry.previous[circuit] == states[k].registry.keys[circuit]
  {
    k := PreviousKeyWasCurrent(states, ops, n, circuit);
    RevokeDrops(states[i], ops[i].auth, circuit);
    assert states[i + 1] == Step(states[i], ops[i]);
  }

  /** A paused verifier accepts nothing, and every other outcome is that of one of the two keys. */
  lemma VerifyOutcomes(v: Registry, c: Curve, circuit: CircuitType, item: BatchProofItem, ledger: u32)
    requires c.p > 0
    ensures var r := VerifySpec(v, c, circuit, item, ledger);
            && (v.paused ==> r == Err(Paused))
            && (!v.paused && |item.proof| != 256 ==> r == Err(InvalidProofLength))
            && (!v.paused && |item.proof| == 256 && circuit !in v.keys ==> r == Err(VkNotRegistered))
            && (!v.paused && |item.proof| == 256 && circuit in v.keys ==>
                  r == if Against(c, v.keys[circuit], item) != Ok(true)
                          && circuit in v.previous && ledger <= v.Expiry(circuit)
                       then Against(c, v.previous[circuit], item)
                       else Against(c, v.keys[circuit], item))
  {
  }
}
