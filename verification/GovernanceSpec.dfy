/** Timelocked governance over the verifier's keys and the token's settings, and its history. */
module GovernanceSpec {
  import opened Wrappers
  import opened Notes
  import Groth16
  import opened KeyRegistry

  const VK_TIMELOCK_LEDGERS: nat := 120_960

  datatype TokenAdminAction =
    | MinShieldAmount(amount: int)
    | AssetApproval(asset: Address, approved: bool)
    | Relayer(relayer: Address, approved: bool)

  /** The storage keys of queued changes. */
  datatype Slot = PendingVkUpdate(circuit: CircuitType) | PendingTokenAction

  datatype Payload = NewVk(vk: seq<byte>) | Action(action: TokenAdminAction)

  datatype Pending = Pending(payload: Payload, eta: u32)

  datatype TokenSettings = TokenSettings(minShield: int, approved: set<Address>, relayers: set<Address>)

  datatype Gov = Gov(
    admin: Address,
    guardian: Address,
    paused: bool,
    pending: map<Slot, Pending>,
    registry: Registry,
    token: TokenSettings,
    ledger: u32)

  predicate Fits(slot: Slot, payload: Payload) {
    slot.PendingVkUpdate? <==> payload.NewVk?
  }

  datatype Op =
    | Queue(auth: set<Address>, slot: Slot, payload: Payload)
    | Execute(auth: set<Address>, slot: Slot)
    | CancelVkUpdate(auth: set<Address>, circuit: CircuitType)
    | GuardianCancel(auth: set<Address>, slot: Slot)
    | RevokePreviousVk(auth: set<Address>, circuit: CircuitType)
    | PauseVerifier(auth: set<Address>, on: bool)
    | PauseGovernance(auth: set<Address>, on: bool)
    | Tick(ledger: u32)

  /** Queue a change; it replaces any pending one and restarts the timelock. */
  function QueueChange(g: Gov, auth: set<Address>, slot: Slot, payload: Payload): Option<Gov> {
    if g.admin !in auth || g.paused || !Fits(slot, payload) then None
    else if payload.Action? && payload.action.MinShieldAmount? && payload.action.amount <= 0 then None
    else if g.ledger + VK_TIMELOCK_LEDGERS > U32_MAX then None
    else Some(g.(pending := g.pending[slot := Pending(payload, g.ledger + VK_TIMELOCK_LEDGERS)]))
  }

  function Apply(t: TokenSettings, action: TokenAdminAction): Option<TokenSettings> {
    match action
    case MinShieldAmount(amount) => if amount <= 0 then None else Some(t.(minShield := amount))
    case AssetApproval(asset, on) => Some(t.(approved := Toggle(t.approved, asset, on)))
    case Relayer(relayer, on) => Some(t.(relayers := Toggle(t.relayers, relayer, on)))
  }

  /** Execute a queued change once its timelock has passed; if the callee refuses, nothing changes. */
  function ExecuteChange(g: Gov, auth: set<Address>, slot: Slot): Option<Gov> {
    if g.admin !in auth || g.paused || slot !in g.pending || g.ledger < g.pending[slot].eta then None
    else
      var cleared := g.(pending := g.pending - {slot});
      match (slot, g.pending[slot].payload)
      case (PendingVkUpdate(circuit), NewVk(vk)) =>
        var r := if circuit in g.registry.keys then Update(g.registry, circuit, vk, g.ledger)
                 else Register(g.registry, circuit, vk);
        if r.Err? then None else Some(cleared.(registry := r.value))
      case (PendingTokenAction, Action(action)) =>
        var t := Apply(g.token, action);
        if t.None? then None else Some(cleared.(token := t.value))
      case _ => None
  }

  function Next(g: Gov, op: Op): Option<Gov> {
    match op
    case Queue(auth, slot, payload) => QueueChange(g, auth, slot, payload)
    case Execute(auth, slot) => ExecuteChange(g, auth, slot)
    case CancelVkUpdate(auth, circuit) =>
      if g.admin !in auth then None else Some(g.(pending := g.pending - {PendingVkUpdate(circuit)}))
    case GuardianCancel(auth, slot) =>
      if g.guardian !in auth then None else Some(g.(pending := g.pending - {slot}))
    case RevokePreviousVk(auth, circuit) =>
      if g.admin !in auth then None else Some(g.(registry := Revoke(g.registry, circuit)))
    case PauseVerifier(auth, on) =>
      if g.admin !in auth then None else Some(g.(registry := g.registry.(paused := on)))
    case PauseGovernance(auth, on) =>
      if g.admin !in auth then None else Some(g.(paused := on))
    case Tick(l) => if l < g.ledger then None else Some(g.(ledger := l))
  }

  /** One event; a call that panics changes nothing. */
  function Step(g: Gov, op: Op): Gov {
    if Next(g, op).Some? then Next(g, op).value else g
  }

  // ----- history

  /** A run from a deployment with nothing queued and no key registered. */
  ghost predicate Trace(states: seq<Gov>, ops: seq<Op>) {
    && |states| == |ops| + 1
    && states[0].pending == map[] && states[0].registry == Registry(false, map[], map[], map[])
    && (forall i :: 0 <= i < |ops| ==> states[i + 1] == Step(states[i], ops[i]))
  }

  /** Event `k` executed what was pending in `slot`. */
  predicate Executed(g: Gov, op: Op, slot: Slot) {
    op.Execute? && op.slot == slot && Next(g, op).Some?
  }

  /** Event `j` queued `payload` in `slot`. */
  predicate Queued(g: Gov, op: Op, slot: Slot, payload: Payload) {
    op.Queue? && op.slot == slot && op.payload == payload && Next(g, op).Some?
  }

  lemma {:induction false} LedgersRise(states: seq<Gov>, ops: seq<Op>, i: nat, j: nat)
    requires Trace(states, ops) && i <= j < |states|
    ensures states[i].ledger <= states[j].ledger
    decreases j - i
  {
    if i < j {
      LedgersRise(states, ops, i, j - 1);
      assert states[j] == Step(states[j - 1], ops[j - 1]);
    }
  }

  /** Whatever is pending was queued by one earlier event, and has been pending ever since. */
  lemma {:induction false} PendingWasQueued(states: seq<Gov>, ops: seq<Op>, k: nat, slot: Slot) returns (j: nat)
    requires Trace(states, ops) && k < |states| && slot in states[k].pending
    ensures j < k && Queued(states[j], ops[j], slot, states[k].pending[slot].payload)
    ensures states[k].pending[slot].eta == states[j].ledger + 120_960
    ensures forall i :: j < i <= k ==> slot in states[i].pending && states[i].pending[slot] == states[k].pending[slot]
    decreases k
  {
    var g, op := states[k - 1], ops[k - 1];
    assert states[k] == Step(g, op);
    if op.Queue? && op.slot == slot && Next(g, op).Some? {
      j := k - 1;
    } else {
      assert slot in g.pending && g.pending[slot] == states[k].pending[slot];
      j := PendingWasQueued(states, ops, k - 1, slot);
    }
  }

  /**
    Every executed change, key or token setting, was queued unchanged at least the timelock earlier
    and neither replaced nor cancelled since.
  */
  lemma ExecutedWasTimelocked(states: seq<Gov>, ops: seq<Op>, k: nat, slot: Slot) returns (j: nat)
    requires Trace(states, ops) && k < |ops| && Executed(states[k], ops[k], slot)
    ensures j < k && Queued(states[j], ops[j], slot, states[k].pending[slot].payload)
    ensures states[j].ledger + 120_960 <= states[k].ledger
    ensures forall i :: j < i <= k ==> slot in states[i].pending && states[i].pending[slot] == states[k].pending[slot]
  {
    j := PendingWasQueued(states, ops, k, slot);
  }

  /** Two executions of the same slot are at least the timelock apart. */
  lemma ExecutionsAreSpaced(states: seq<Gov>, ops: seq<Op>, k1: nat, k2: nat, slot: Slot)
    requires Trace(states, ops) && k1 < k2 < |ops|
    requires Executed(states[k1], ops[k1], slot) && Executed(states[k2], ops[k2], slot)
    ensures states[k1].ledger + 120_960 <= states[k2].ledger
  {
    var j := ExecutedWasTimelocked(states, ops, k2, slot);
    assert states[k1 + 1] == Step(states[k1], ops[k1]);
    assert slot !in states[k1 + 1].pending;
    LedgersRise(states, ops, k1, j);
  }

  /** A circuit's current key changes only by executing its pending change. */
  lemma KeyStep(g: Gov, op: Op, circuit: CircuitType)
    ensures var v, v' := g.registry, Step(g, op).registry;
            if Executed(g, op, PendingVkUpdate(circuit)) then
              && circuit in v'.keys && g.pending[PendingVkUpdate(circuit)].payload == NewVk(v'.keys[circuit])
            else
              && (circuit in v'.keys <==> circuit in v.keys)
              && (circuit in v.keys ==> v'.keys[circuit] == v.keys[circuit])
  {
  }

  /** The current key of a circuit is the payload of an executed change. */
  lemma {:induction false} CurrentKeyWasExecuted(states: seq<Gov>, ops: seq<Op>, n: nat, circuit: CircuitType)
    returns (k: nat)
    requires Trace(states, ops) && n < |states| && circuit in states[n].registry.keys
    ensures k < n && Executed(states[k], ops[k], PendingVkUpdate(circuit))
    ensures states[k].pending[PendingVkUpdate(circuit)].payload == NewVk(states[n].registry.keys[circuit])
    decreases n
  {
    var g, op := states[n - 1], ops[n - 1];
    assert states[n] == Step(g, op);
    KeyStep(g, op, circuit);
    if Executed(g, op, PendingVkUpdate(circuit)) {
      k := n - 1;
    } else {
      k := CurrentKeyWasExecuted(states, ops, n - 1, circuit);
    }
  }

  /** A rotation retains the outgoing key; nothing but that and a revocation touches what is retained. */
  lemma RetentionStep(g: Gov, op: Op, circuit: CircuitType)
    ensures var v, v' := g.registry, Step(g, op).registry;
            if Executed(g, op, PendingVkUpdate(circuit)) && circuit in v.keys then
              && circuit in v'.previous && v'.previous[circuit] == v.keys[circuit]
              && v'.Expiry(circuit) == if g.ledger + 17_280 <= U32_MAX then g.ledger + 17_280 else U32_MAX
            else if op.RevokePreviousVk? && op.circuit == circuit && Next(g, op).Some? then
              circuit !in v'.previous
            else
              && (circuit in v'.previous <==> circuit in v.previous)
              && (circuit in v.previous ==> v'.previous[circuit] == v.previous[circuit])
              && v'.Expiry(circuit) == v.Expiry(circuit)
  {
  }

  /** A retained key was current until one rotation, whose window it carries. */
  lemma {:induction false} PreviousKeyWasCurrent(states: seq<Gov>, ops: seq<Op>, n: nat, circuit: CircuitType)
    returns (k: nat)
    requires Trace(states, ops) && n < |states| && circuit in states[n].registry.previous
    ensures k < n && Executed(states[k], ops[k], PendingVkUpdate(circuit))
    ensures circuit in states[k].registry.keys
    ensures states[n].registry.previous[circuit] == states[k].registry.keys[circuit]
    ensures states[n].registry.Expiry(circuit)
         == if states[k].ledger + 17_280 <= U32_MAX then states[k].ledger + 17_280 else U32_MAX
    ensures forall i :: k < i <= n ==> circuit in states[i].registry.previous
    decreases n
  {
    var g, op := states[n - 1], ops[n - 1];
    assert states[n] == Step(g, op);
    RetentionStep(g, op, circuit);
    if Executed(g, op, PendingVkUpdate(circuit)) && circuit in g.registry.keys {
      k := n - 1;
    } else {
      k := PreviousKeyWasCurrent(states, ops, n - 1, circuit);
    }
  }

  /**
    Whenever `verify` accepts, it does so under a key that was queued byte for byte at least the
    timelock before it was installed: the current one, or the one before it within the retention
    window of the rotation that replaced it.
  */
  lemma AcceptedUnderATimelockedKey(
      states: seq<Gov>, ops: seq<Op>, n: nat, c: Groth16.Curve, circuit: CircuitType, item: Groth16.BatchProofItem)
    returns (vk: seq<byte>, j: nat, k: nat)
    requires Trace(states, ops) && n < |states| && c.p > 0
    requires VerifySpec(states[n].registry, c, circuit, item, states[n].ledger) == Ok(true)
    ensures Groth16.Against(c, vk, item) == Ok(true)
    ensures j < k < n && states[j].ledger + 120_960 <= states[k].ledger <= states[n].ledger
    ensures Queued(states[j], ops[j], PendingVkUpdate(circuit), NewVk(vk))
    ensures Executed(states[k], ops[k], PendingVkUpdate(circuit))
    ensures states[k].pending[PendingVkUpdate(circuit)].payload == NewVk(vk)
    ensures || states[n].registry.keys[circuit] == vk
            || exists r :: && k < r < n && Executed(states[r], ops[r], PendingVkUpdate(circuit))
                           && circuit in states[r].registry.keys && states[r].registry.keys[circuit] == vk
                           && states[n].ledger <= states[r].ledger + 17_280
  {
    var registry := states[n].registry;
    AcceptsUnderNoOtherKey(registry, c, circuit, item, states[n].ledger);
    if Groth16.Against(c, registry.keys[circuit], item) == Ok(true) {
      vk := registry.keys[circuit];
      k := CurrentKeyWasExecuted(states, ops, n, circuit);
    } else {
      vk := registry.previous[circuit];
      var r := PreviousKeyWasCurrent(states, ops, n, circuit);
      k := CurrentKeyWasExecuted(states, ops, r, circuit);
    }
    j := ExecutedWasTimelocked(states, ops, k, PendingVkUpdate(circuit));
    LedgersRise(states, ops, k, n);
  }

  /**
    A rotated-out key stays retained for its whole window, unless it is revoked: no later rotation
    can come soon enough to displace it.
  */
  lemma {:induction false} RetainedForTheWholeWindow(
      states: seq<Gov>, ops: seq<Op>, k: nat, m: nat, circuit: CircuitType)
    requires Trace(states, ops) && k < m < |states| && Executed(states[k], ops[k], PendingVkUpdate(circuit))
    requires circuit in states[k].registry.keys
    requires states[m].ledger <= states[k].ledger + 17_280
    requires forall i :: k < i < m ==>
               !(ops[i].RevokePreviousVk? && ops[i].circuit == circuit && Next(states[i], ops[i]).Some?)
    ensures circuit in states[m].registry.previous
    ensures states[m].registry.previous[circuit] == states[k].registry.keys[circuit]
    ensures states[m].ledger <= states[m].registry.Expiry(circuit)
    ensures states[m].registry.Expiry(circuit)
         == if states[k].ledger + 17_280 <= U32_MAX then states[k].ledger + 17_280 else U32_MAX
    decreases m
  {
    var g, op := states[m - 1], ops[m - 1];
    assert states[m] == Step(g, op);
    RetentionStep(g, op, circuit);
    if m > k + 1 {
      NoRotationInTheWindow(states, ops, k, m - 1, circuit);
      RetainedForTheWholeWindow(states, ops, k, m - 1, circuit);
    }
  }

  lemma NoRotationInTheWindow(states: seq<Gov>, ops: seq<Op>, k: nat, m: nat, circuit: CircuitType)
    requires Trace(states, ops) && k < m < |ops| && Executed(states[k], ops[k], PendingVkUpdate(circuit))
    requires states[m + 1].ledger <= states[k].ledger + 17_280
    ensures states[m].ledger <= states[m + 1].ledger
    ensures !Executed(states[m], ops[m], PendingVkUpdate(circuit))
  {
    LedgersRise(states, ops, m, m + 1);
    if Executed(states[m], ops[m], PendingVkUpdate(circuit)) {
      ExecutionsAreSpaced(states, ops, k, m, PendingVkUpdate(circuit));
    }
  }

  /** The token's settings change only by executing a queued action. */
  lemma SettingsChangeOnlyByExecution(g: Gov, op: Op)
    ensures Step(g, op).token != g.token ==>
              && Executed(g, op, PendingTokenAction)
              && g.pending[PendingTokenAction].payload.Action?
              && Apply(g.token, g.pending[PendingTokenAction].payload.action) == Some(Step(g, op).token)
  {
  }
}
