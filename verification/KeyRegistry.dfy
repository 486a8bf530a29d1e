/** The verifying-key registry: registration, rotation with a retention window, and verification. */
module KeyRegistry {
  import opened Wrappers
  import opened Groth16
  import opened BatchVerify

  const VK_RETENTION_WINDOW_LEDGERS: nat := 17_280

  datatype CircuitType = Shield | Transfer | Unshield | NonMembership | Transfer4x4 | SwapFairness

  datatype Registry = Registry(
    paused: bool,
    keys: map<CircuitType, seq<byte>>,
    previous: map<CircuitType, seq<byte>>,
    previousExpiry: map<CircuitType, u32>)
  {
    ghost predicate Valid() {
      && (forall c :: c in keys ==> VkShapeOk(keys[c]))
      && (forall c :: c in previous ==> VkShapeOk(previous[c]))
    }

    function Expiry(circuit: CircuitType): u32 {
      if circuit in previousExpiry then previousExpiry[circuit] else 0
    }
  }

  function SaturatingAdd(x: u32, y: u32): u32 {
    if x + y > U32_MAX then U32_MAX else x + y
  }

  function Register(v: Registry, circuit: CircuitType, vk: seq<byte>): Result<Registry, Error> {
    if v.paused then Err(Paused)
    else
      :- Need(circuit !in v.keys, VkAlreadyRegistered);
      :- Need(VkShapeOk(vk), InvalidVkLength);
      Ok(v.(keys := v.keys[circuit := vk]))
  }

  function Update(v: Registry, circuit: CircuitType, vk: seq<byte>, ledger: u32): Result<Registry, Error> {
    if v.paused then Err(Paused)
    else
      :- Need(circuit in v.keys, VkNotRegistered);
      :- Need(VkShapeOk(vk), InvalidVkLength);
      Ok(v.(previous := v.previous[circuit := v.keys[circuit]],
            previousExpiry := v.previousExpiry[circuit := SaturatingAdd(ledger, VK_RETENTION_WINDOW_LEDGERS)],
            keys := v.keys[circuit := vk]))
  }

  function Revoke(v: Registry, circuit: CircuitType): Registry {
    v.(previous := v.previous - {circuit}, previousExpiry := v.previousExpiry - {circuit})
  }

  /** The current key first, then the retained previous one while its window lasts. */
  function VerifySpec(v: Registry, c: Curve, circuit: CircuitType, item: BatchProofItem, ledger: u32): Result<bool, Error>
    requires c.p > 0
  {
    if v.paused then Err(Paused)
    else
      :- Need(|item.proof| == PROOF_LEN, InvalidProofLength);
      :- Need(circuit in v.keys, VkNotRegistered);
      var current := Against(c, v.keys[circuit], item);
      if current == Ok(true) then current
      else if ledger > v.Expiry(circuit) then current
      else if circuit in v.previous then Against(c, v.previous[circuit], item)
      else current
  }

  /** `verify` accepts exactly under the current key or a retained one inside its window. */
  lemma AcceptsUnderNoOtherKey(v: Registry, c: Curve, circuit: CircuitType, item: BatchProofItem, ledger: u32)
    requires c.p > 0
    ensures VerifySpec(v, c, circuit, item, ledger) == Ok(true) <==>
              && !v.paused && |item.proof| == PROOF_LEN && circuit in v.keys
              && (|| Against(c, v.keys[circuit], item) == Ok(true)
                  || (&& ledger <= v.Expiry(circuit) && circuit in v.previous
                      && Against(c, v.previous[circuit], item) == Ok(true)))
  {
  }

  class VerifierContract {
    const curve: Curve
    var paused: bool
    var keys: map<CircuitType, seq<byte>>
    var previous: map<CircuitType, seq<byte>>
    var previousExpiry: map<CircuitType, u32>

    function State(): Registry
      reads this
    {
      Registry(paused, keys, previous, previousExpiry)
    }

    ghost predicate Valid()
      reads this
    {
      curve.Valid() && State().Valid()
    }

    constructor (curve: Curve)
      requires curve.Valid()
      ensures Valid() && this.curve == curve && State() == Registry(false, map[], map[], map[])
    {
      this.curve := curve;
      paused, keys, previous, previousExpiry := false, map[], map[], map[];
    }

    method RegisterVerifyingKey(byAdmin: bool, circuit: CircuitType, vk: seq<byte>) returns (r: Result<(), Error>)
      requires Valid()
      modifies this
      ensures Valid()
      ensures !byAdmin ==> r == Err(Unauthorized) && State() == old(State())
      ensures byAdmin ==> match Register(old(State()), circuit, vk)
                          case Ok(v) => r == Ok(()) && State() == v
                          case Err(e) => r == Err(e) && State() == old(State())
    {
      if !byAdmin { return Err(Unauthorized); }
      :- Need(!paused, Paused);
      :- Need(circuit !in keys, VkAlreadyRegistered);
      :- Need(VkShapeOk(vk), InvalidVkLength);
      keys := keys[circuit := vk];
      r := Ok(());
    }

    method UpdateVerifyingKey(byAdmin: bool, circuit: CircuitType, newVk: seq<byte>, ledger: u32)
      returns (r: Result<(), Error>)
      requires Valid()
      modifies this
      ensures Valid()
      ensures !byAdmin ==> r == Err(Unauthorized) && State() == old(State())
      ensures byAdmin ==> match Update(old(State()), circuit, newVk, ledger)
                          case Ok(v) => r == Ok(()) && State() == v
                          case Err(e) => r == Err(e) && State() == old(State())
    {
      if !byAdmin { return Err(Unauthorized); }
      :- Need(!paused, Paused);
      :- Need(circuit in keys, VkNotRegistered);
      var oldVk := keys[circuit];
      :- Need(VkShapeOk(newVk), InvalidVkLength);
      previous := previous[circuit := oldVk];
      previousExpiry := previousExpiry[circuit := SaturatingAdd(ledger, VK_RETENTION_WINDOW_LEDGERS)];
      keys := keys[circuit := newVk];
      r := Ok(());
    }

    method RevokePreviousVk(byAdmin: bool, circuit: CircuitType) returns (r: Result<(), Error>)
      requires Valid()
      modifies this
      ensures Valid()
      ensures r == if byAdmin then Ok(()) else Err(Unauthorized)
      ensures State() == if byAdmin then Revoke(old(State()), circuit) else old(State())
    {
      if !byAdmin { return Err(Unauthorized); }
      previous := previous - {circuit};
      previousExpiry := previousExpiry - {circuit};
      r := Ok(());
    }

    method SetPaused(byAdmin: bool, on: bool) returns (r: Result<(), Error>)
      requires Valid()
      modifies this`paused
      ensures Valid()
      ensures r == if byAdmin then Ok(()) else Err(Unauthorized)
      ensures paused == if byAdmin then on else old(paused)
    {
      if !byAdmin { return Err(Unauthorized); }
      paused := on;
      r := Ok(());
    }

    method Verify(circuit: CircuitType, item: BatchProofItem, ledger: u32) returns (r: Result<bool, Error>)
      requires Valid() && WellTyped(item)
      ensures r == VerifySpec(State(), curve, circuit, item, ledger)
    {
      if paused { return Err(Paused); }
      :- Need(|item.proof| == PROOF_LEN, InvalidProofLength);
      :- Need(circuit in keys, VkNotRegistered);
      var current := VerifyAgainstVk(curve, keys[circuit], item);
      if current == Ok(true) {
        return Ok(true);
      }
      var expiry := if circuit in previousExpiry then previousExpiry[circuit] else 0;
      if ledger > expiry || circuit !in previous {
        return current;
      }
      r := VerifyAgainstVk(curve, previous[circuit], item);
    }

    /** Only the current key is tried; the challenges are hashes of the whole batch. */
    method VerifyBatch(circuit: CircuitType, items: seq<BatchProofItem>, challenges: seq<nat>)
      returns (r: Result<bool, Error>)
      requires Valid() && |challenges| == |items| && forall j :: 0 <= j < |items| ==> WellTyped(items[j])
      ensures r == if paused then Err(Paused)
                   else if items == [] then Err(EmptyBatch)
                   else if circuit !in keys then Err(VkNotRegistered)
                   else BatchSpec(curve, ParseVk(curve, keys[circuit]), items, challenges)
    {
      if paused { return Err(Paused); }
      :- Need(items != [], EmptyBatch);
      :- Need(circuit in keys, VkNotRegistered);
      r := BatchVerify.VerifyBatch(curve, keys[circuit], items, challenges);
    }
  }
}
