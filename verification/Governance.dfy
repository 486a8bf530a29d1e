/** The governance contract with its storage, administering a verifier and a pool. */
module Governance {
  import opened Wrappers
  import opened Notes
  import opened KeyRegistry
  import opened GovernanceSpec
  import ShieldedTokens

  class ZKELLAGovernance {
    const verifier: VerifierContract
    const token: ShieldedTokens.ShieldedToken

    var admin: Address
    var guardian: Address
    var paused: bool
    var pending: map<Slot, Pending>

    ghost predicate Valid()
      reads this, verifier
    {
      verifier.Valid() && forall slot :: slot in pending ==> Fits(slot, pending[slot].payload)
    }

    function State(ledger: u32): Gov
      reads this, verifier, token
    {
      Gov(admin, guardian, paused, pending, verifier.State(),
          TokenSettings(token.minShield, token.approved, token.relayers), ledger)
    }

    constructor (admin: Address, guardian: Address, verifier: VerifierContract, token: ShieldedTokens.ShieldedToken)
      requires verifier.Valid()
      ensures Valid() && this.verifier == verifier && this.token == token
      ensures this.admin == admin && this.guardian == guardian && !paused && pending == map[]
    {
      this.admin, this.guardian, this.verifier, this.token := admin, guardian, verifier, token;
      paused, pending := false, map[];
    }

    method QueueTokenAction(ledger: u32, auth: set<Address>, action: TokenAdminAction) returns (ok: bool)
      requires Valid()
      modifies this`pending
      ensures Valid()
      ensures ok == Next(old(State(ledger)), Queue(auth, PendingTokenAction, Action(action))).Some?
      ensures State(ledger) == Step(old(State(ledger)), Queue(auth, PendingTokenAction, Action(action)))
    {
      if admin !in auth || paused || (action.MinShieldAmount? && action.amount <= 0) {
        return false;
      }
      if ledger + VK_TIMELOCK_LEDGERS > U32_MAX {
        return false;
      }
      pending := pending[PendingTokenAction := Pending(Action(action), ledger + VK_TIMELOCK_LEDGERS)];
      ok := true;
    }

    method QueueVkUpdate(ledger: u32, auth: set<Address>, circuit: CircuitType, newVk: seq<byte>) returns (ok: bool)
      requires Valid()
      modifies this`pending
      ensures Valid()
      ensures ok == Next(old(State(ledger)), Queue(auth, PendingVkUpdate(circuit), NewVk(newVk))).Some?
      ensures State(ledger) == Step(old(State(ledger)), Queue(auth, PendingVkUpdate(circuit), NewVk(newVk)))
    {
      if admin !in auth || paused || ledger + VK_TIMELOCK_LEDGERS > U32_MAX {
        return false;
      }
      pending := pending[PendingVkUpdate(circuit) := Pending(NewVk(newVk), ledger + VK_TIMELOCK_LEDGERS)];
      ok := true;
    }

    method ExecuteVkUpdate(ledger: u32, auth: set<Address>, circuit: CircuitType) returns (ok: bool)
      requires Valid()
      modifies this`pending, verifier
      ensures Valid()
      ensures ok == Next(old(State(ledger)), Execute(auth, PendingVkUpdate(circuit))).Some?
      ensures State(ledger) == Step(old(State(ledger)), Execute(auth, PendingVkUpdate(circuit)))
    {
      var slot := PendingVkUpdate(circuit);
      if admin !in auth || paused || slot !in pending || ledger < pending[slot].eta {
        return false;
      }
      var snapshot, vk := pending, pending[slot].payload.vk;
      pending := pending - {slot};
      var r;
      if circuit in verifier.keys {
        r := verifier.UpdateVerifyingKey(true, circuit, vk, ledger);
      } else {
        r := verifier.RegisterVerifyingKey(true, circuit, vk);
      }
      ok := r.Ok?;
      if !ok {
        pending := snapshot; // the verifier's error reverts the whole call
      }
    }

    method ExecuteTokenAction(ledger: u32, auth: set<Address>) returns (ok: bool)
      requires Valid()
      modifies this`pending, token`minShield, token`approved, token`relayers
      ensures Valid()
      ensures ok == Next(old(State(ledger)), Execute(auth, PendingTokenAction)).Some?
      ensures State(ledger) == Step(old(State(ledger)), Execute(auth, PendingTokenAction))
    {
      var slot := PendingTokenAction;
      if admin !in auth || paused || slot !in pending || ledger < pending[slot].eta {
        return false;
      }
      var snapshot, action := pending, pending[slot].payload.action;
      pending := pending - {slot};
      match action {
        case MinShieldAmount(amount) => ok := token.SetMinShieldAmount(true, amount);
        case AssetApproval(asset, on) => ok := token.SetAssetApproved(true, asset, on);
        case Relayer(relayer, on) => ok := token.SetRelayer(true, relayer, on);
      }
      if !ok {
        pending := snapshot;
      }
    }

    method CancelVkUpdate(ledger: u32, auth: set<Address>, circuit: CircuitType) returns (ok: bool)
      requires Valid()
      modifies this`pending
      ensures Valid()
      ensures ok == Next(old(State(ledger)), GovernanceSpec.CancelVkUpdate(auth, circuit)).Some?
      ensures State(ledger) == Step(old(State(ledger)), GovernanceSpec.CancelVkUpdate(auth, circuit))
    {
      if admin !in auth {
        return false;
      }
      pending := pending - {PendingVkUpdate(circuit)};
      ok := true;
    }

    /** Covers both of the guardian's cancels; neither is gated by the pause. */
    method GuardianCancel(ledger: u32, auth: set<Address>, slot: Slot) returns (ok: bool)
      requires Valid()
      modifies this`pending
      ensures Valid()
      ensures ok == Next(old(State(ledger)), GovernanceSpec.GuardianCancel(auth, slot)).Some?
      ensures State(ledger) == Step(old(State(ledger)), GovernanceSpec.GuardianCancel(auth, slot))
    {
      if guardian !in auth {
        return false;
      }
      pending := pending - {slot};
      ok := true;
    }

    method RevokePreviousVk(ledger: u32, auth: set<Address>, circuit: CircuitType) returns (ok: bool)
      requires Valid()
      modifies verifier
      ensures Valid()
      ensures ok == Next(old(State(ledger)), GovernanceSpec.RevokePreviousVk(auth, circuit)).Some?
      ensures State(ledger) == Step(old(State(ledger)), GovernanceSpec.RevokePreviousVk(auth, circuit))
    {
      if admin !in auth {
        return false;
      }
      var r := verifier.RevokePreviousVk(true, circuit);
      ok := true;
    }
  }
}
