/**
  Where the parts of a verifying key and of a proof lie in their bytes, and acceptance said over those
  parts.
*/
module Groth16Layout {
  import opened Wrappers
  import opened PointEncoding
  import opened Groth16

  function Join(parts: seq<seq<byte>>): seq<byte> {
    if parts == [] then [] else parts[0] + Join(parts[1..])
  }

  predicate AllOfLength(parts: seq<seq<byte>>, n: nat) {
    forall i :: 0 <= i < |parts| ==> |parts[i]| == n
  }

  lemma {:induction false} JoinAt(parts: seq<seq<byte>>, n: nat, i: nat)
    requires AllOfLength(parts, n) && i < |parts|
    ensures 0 <= n * i && n * i + n <= |Join(parts)| == n * |parts|
    ensures Join(parts)[n * i..n * i + n] == parts[i]
    decreases |parts|
  {
    var rest := parts[1..];
    JoinLength(parts, n);
    JoinLength(rest, n);
    if i > 0 {
      JoinAt(rest, n, i - 1);
      assert n * i == n * (i - 1) + n;
      assert Join(parts)[n * i..n * i + n] == Join(rest)[n * (i - 1)..n * (i - 1) + n];
    }
  }

  lemma {:induction false} JoinLength(parts: seq<seq<byte>>, n: nat)
    requires AllOfLength(parts, n)
    ensures |Join(parts)| == n * |parts|
    decreases |parts|
  {
    if parts != [] {
      JoinLength(parts[1..], n);
      assert n * |parts| == n + n * |parts[1..]|;
    }
  }

  /** A verifying key: alpha, beta, gamma, delta, then one G1 point per input and one for the constant. */
  datatype VkParts = VkParts(
    alpha: seq<byte>, beta: seq<byte>, gamma: seq<byte>, delta: seq<byte>, ic: seq<seq<byte>>)
  {
    predicate WellSized() {
      |alpha| == 64 && |beta| == |gamma| == |delta| == 128 && ic != [] && AllOfLength(ic, 64)
    }

    function Bytes(): seq<byte> {
      alpha + beta + gamma + delta + Join(ic)
    }
  }

  datatype ProofParts = ProofParts(a: seq<byte>, b: seq<byte>, c: seq<byte>) {
    predicate WellSized() {
      |a| == 64 && |b| == 128 && |c| == 64
    }

    function Bytes(): seq<byte> {
      a + b + c
    }
  }

  // ----- keys

  /** A key put together from its parts is read back part by part. */
  lemma VkLayout(c: Curve, k: VkParts)
    requires k.WellSized()
    ensures VkShapeOk(k.Bytes())
    ensures var key := ParseVk(c, k.Bytes());
            && key.alpha == c.g1(k.alpha) && key.beta == c.g2(k.beta)
            && key.gamma == c.g2(k.gamma) && key.delta == c.g2(k.delta)
            && |key.ic| == |k.ic| && forall i :: 0 <= i < |k.ic| ==> key.ic[i] == c.g1(k.ic[i])
  {
    FixedPart(k);
    JoinLength(k.ic, 64);
    forall i | 0 <= i < |k.ic|
      ensures 512 + 64 * i <= |k.Bytes()| && k.Bytes()[448 + 64 * i..512 + 64 * i] == k.ic[i]
    {
      JoinAt(k.ic, 64, i);
      Behind(k.Bytes(), Join(k.ic), i);
    }
  }

  lemma Behind(vk: seq<byte>, rest: seq<byte>, i: nat)
    requires |vk| >= 448 && vk[448..] == rest && 64 * i + 64 <= |rest|
    ensures vk[448 + 64 * i..512 + 64 * i] == rest[64 * i..64 * i + 64]
  {
  }

  lemma FixedPart(k: VkParts)
    requires k.WellSized()
    ensures var vk := k.Bytes();
            && |vk| == 448 + |Join(k.ic)| && vk[448..] == Join(k.ic)
            && vk[0..64] == k.alpha && vk[64..192] == k.beta && vk[192..320] == k.gamma && vk[320..448] == k.delta
  {
  }

  /** Every string of an admitted length is such a key. */
  lemma EveryVkHasParts(vk: seq<byte>) returns (k: VkParts)
    requires |vk| > 448 && |vk| % 64 == 0
    ensures k.WellSized() && k.Bytes() == vk
  {
    var n := |vk| / 64 - 7;
    var ic := Chunks(vk[448..], n);
    k := VkParts(vk[..64], vk[64..192], vk[192..320], vk[320..448], ic);
  }

  function Chunks(s: seq<byte>, n: nat): (parts: seq<seq<byte>>)
    requires |s| == 64 * n
    ensures |parts| == n && AllOfLength(parts, 64) && Join(parts) == s
    decreases n
  {
    if n == 0 then [] else [s[..64]] + Chunks(s[64..], n - 1)
  }

  /** The lengths admitted are those: a whole number of 64-byte units, more than the fixed part. */
  lemma AdmittedLengths(vk: seq<byte>)
    ensures VkShapeOk(vk) <==> |vk| > 448 && |vk| % 64 == 0
  {
  }

  // ----- acceptance

  /** The sum of x_i times the i-th point. */
  function InputSum(c: Curve, points: seq<seq<byte>>, xs: seq<nat>): nat
    requires |points| == |xs|
  {
    if xs == [] then 0 else c.g1(points[0]) * xs[0] + InputSum(c, points[1..], xs[1..])
  }

  lemma {:induction false} DotFront(xs: seq<nat>, ys: seq<nat>)
    requires |xs| == |ys| > 0
    ensures Dot(xs, ys) == xs[0] * ys[0] + Dot(xs[1..], ys[1..])
    decreases |xs|
  {
    var n := |xs| - 1;
    if n > 0 {
      DotFront(xs[..n], ys[..n]);
      assert xs[..n][1..] == xs[1..][..n - 1] && ys[..n][1..] == ys[1..][..n - 1];
    }
  }

  lemma {:induction false} InputSumIsDot(c: Curve, points: seq<seq<byte>>, exps: seq<nat>, xs: seq<nat>)
    requires |points| == |exps| == |xs| && forall i :: 0 <= i < |exps| ==> exps[i] == c.g1(points[i])
    ensures Dot(exps, xs) == InputSum(c, points, xs)
    decreases |xs|
  {
    if xs != [] {
      DotFront(exps, xs);
      InputSumIsDot(c, points[1..], exps[1..], xs[1..]);
    }
  }

  /** The exponent of e(-A, B) e(alpha, beta) e(IC_0 + x_1 IC_1 + ..., gamma) e(C, delta). */
  function PairingProduct(c: Curve, k: VkParts, proof: ProofParts, xs: seq<nat>): int
    requires |k.ic| == |xs| + 1
  {
    Combination(c.g1(proof.a), c.g2(proof.b), c.g1(k.alpha), c.g2(k.beta),
                c.g1(k.ic[0]) + InputSum(c, k.ic[1..], xs), c.g2(k.gamma), c.g1(proof.c), c.g2(k.delta))
  }

  function Combination(a: int, b: int, alpha: int, beta: int, x: int, gamma: int, c: int, delta: int): int {
    -a * b + alpha * beta + x * gamma + c * delta
  }

  lemma VkXOverParts(c: Curve, k: VkParts, exps: seq<nat>, xs: seq<nat>)
    requires |k.ic| == |exps| == |xs| + 1 && forall i :: 0 <= i < |exps| ==> exps[i] == c.g1(k.ic[i])
    ensures Dot(exps, [1] + xs) == c.g1(k.ic[0]) + InputSum(c, k.ic[1..], xs)
  {
    DotOne(exps, xs);
    InputSumIsDot(c, k.ic[1..], exps[1..], xs);
  }

  lemma DotOne(exps: seq<nat>, xs: seq<nat>)
    requires |exps| == |xs| + 1
    ensures Dot(exps, [1] + xs) == exps[0] + Dot(exps[1..], xs)
  {
    var ys := [1] + xs;
    assert ys[0] == 1 && ys[1..] == xs;
    DotFront(exps, ys);
  }

  lemma EquationIsCombination(c: Curve, key: Key, item: BatchProofItem)
    requires ItemOk(key, item)
    ensures Equation(c, key, item)
         == Combination(c.g1(item.proof[..64]), c.g2(item.proof[64..192]), key.alpha, key.beta,
                        VkX(key, Scalars(item.publicInputs)), key.gamma, c.g1(item.proof[192..]), key.delta)
  {
  }

  lemma ProofLayout(proof: ProofParts)
    requires proof.WellSized()
    ensures var bytes := proof.Bytes();
            |bytes| == 256 && bytes[..64] == proof.a && bytes[64..192] == proof.b && bytes[192..] == proof.c
  {
  }

  /** The equation checked of a proof and a key given by their bytes is the one over their parts. */
  lemma EquationOverParts(c: Curve, k: VkParts, proof: ProofParts, inputs: seq<seq<byte>>, xs: seq<nat>)
    requires k.WellSized() && proof.WellSized() && |k.ic| == |xs| + 1 && |inputs| == |xs|
    requires forall i :: 0 <= i < |inputs| ==> FrOf(inputs[i]) == Some(xs[i])
    ensures VkShapeOk(k.Bytes())
    ensures var key, item := ParseVk(c, k.Bytes()), BatchProofItem(inputs, proof.Bytes());
            ItemOk(key, item) && Equation(c, key, item) == PairingProduct(c, k, proof, xs)
  {
    VkLayout(c, k);
    ProofLayout(proof);
    var key := ParseVk(c, k.Bytes());
    assert Scalars(inputs) == xs;
    VkXOverParts(c, k, key.ic, xs);
    EquationIsCombination(c, key, BatchProofItem(inputs, proof.Bytes()));
  }

  /**
    A proof made of A, B and C is accepted under a key made of its parts exactly if the pairing equation
    over those parts holds; and it is not looked at if the number of inputs is not the key's, or some
    input is no canonical field element.
  */
  lemma AcceptanceOverParts(c: Curve, k: VkParts, proof: ProofParts, inputs: seq<seq<byte>>)
    requires c.p > 0 && k.WellSized() && proof.WellSized()
    ensures var r := Against(c, k.Bytes(), BatchProofItem(inputs, proof.Bytes()));
            && (|inputs| + 1 != |k.ic| <==> r == Err(PublicInputCountMismatch))
            && (|inputs| + 1 == |k.ic| && !InputsCanonical(inputs) <==> r == Err(NonCanonicalInput))
            && (|inputs| + 1 == |k.ic| && InputsCanonical(inputs) ==>
                  r == Ok(PairingProduct(c, k, proof, Scalars(inputs)) % c.p == 0))
  {
    VkLayout(c, k);
    if |inputs| + 1 == |k.ic| && InputsCanonical(inputs) {
      EquationOverParts(c, k, proof, inputs, Scalars(inputs));
    }
  }

  /** A key that is no such string is refused, and so is a proof that is not 256 bytes long. */
  lemma OtherLengthsAreRefused(c: Curve, vk: seq<byte>, item: BatchProofItem)
    requires c.p > 0
    ensures Against(c, vk, item) == Err(InvalidVkLength) <==> |vk| <= 448 || |vk| % 64 != 0
    ensures Against(c, vk, item) == Err(InvalidProofLength) <==> |vk| > 448 && |vk| % 64 == 0 && |item.proof| != 256
  {
    AdmittedLengths(vk);
  }
}
