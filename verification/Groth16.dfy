/**
  Groth16 verification, one proof at a time and batched. Curve points are their discrete logarithms
  modulo the group order p, so the pairing is multiplication; a curve says which scalar each
  64-byte or 128-byte encoding stands for.
*/
module Groth16 {
  import opened Wrappers
  import opened ModArith
  import opened PointEncoding

  const G1_LEN: nat := 64
  const VK_FIXED_LEN: nat := 448
  const PROOF_LEN: nat := 256

  datatype Error =
    | NotInitialized | Unauthorized | VkAlreadyRegistered | VkNotRegistered | InvalidVkLength
    | InvalidProofLength | PublicInputCountMismatch | EmptyBatch | NonCanonicalInput | Paused

  datatype Curve = Curve(p: nat, g1: seq<byte> -> nat, g2: seq<byte> -> nat) {
    /** Flipping y negates the point. */
    ghost predicate Valid() {
      && p > 1
      && forall point: seq<byte> :: |point| == G1_LEN ==> Cong(p, g1(Negated(point)), -(g1(point) as int))
    }
  }

  datatype Key = Key(alpha: nat, beta: nat, gamma: nat, delta: nat, ic: seq<nat>)

  predicate VkShapeOk(vk: seq<byte>) {
    |vk| > VK_FIXED_LEN && (|vk| - VK_FIXED_LEN) % G1_LEN == 0
  }

  function ParseVk(c: Curve, vk: seq<byte>): Key
    requires VkShapeOk(vk)
  {
    Key(c.g1(vk[0..64]), c.g2(vk[64..192]), c.g2(vk[192..320]), c.g2(vk[320..448]),
        seq((|vk| - VK_FIXED_LEN) / G1_LEN,
            i requires 0 <= i < (|vk| - VK_FIXED_LEN) / G1_LEN => c.g1(vk[448 + 64 * i..512 + 64 * i])))
  }

  /** The parser proper: an offset walks over the bytes. */
  method ReadVk(c: Curve, vk: seq<byte>) returns (key: Key)
    requires VkShapeOk(vk)
    ensures key == ParseVk(c, vk)
  {
    var offset := 0;
    var alpha := c.g1(vk[offset..offset + 64]);
    offset := offset + 64;
    var beta := c.g2(vk[offset..offset + 128]);
    offset := offset + 128;
    var gamma := c.g2(vk[offset..offset + 128]);
    offset := offset + 128;
    var delta := c.g2(vk[offset..offset + 128]);
    offset := offset + 128;
    var count := (|vk| - offset) / G1_LEN;
    var ic := [];
    for i := 0 to count
      invariant offset == 448 + 64 * i
      invariant |ic| == i && forall j :: 0 <= j < i ==> ic[j] == c.g1(vk[448 + 64 * j..512 + 64 * j])
    {
      ic := ic + [c.g1(vk[offset..offset + 64])];
      offset := offset + 64;
    }
    key := Key(alpha, beta, gamma, delta, ic);
  }

  // ----- host operations

  /** Sum of products, the exponent of a multi-scalar multiplication or of a product of pairings. */
  function Dot(xs: seq<nat>, ys: seq<nat>): nat
    requires |xs| == |ys|
  {
    if xs == [] then 0 else Dot(xs[..|xs| - 1], ys[..|ys| - 1]) + xs[|xs| - 1] * ys[|ys| - 1]
  }

  function Msm(p: nat, points: seq<nat>, scalars: seq<nat>): nat
    requires p > 0 && |points| == |scalars|
  {
    Dot(points, scalars) % p
  }

  function PairingCheck(p: nat, g1s: seq<nat>, g2s: seq<nat>): bool
    requires p > 0 && |g1s| == |g2s|
  {
    Dot(g1s, g2s) % p == 0
  }

  lemma DotSnoc(xs: seq<nat>, ys: seq<nat>, x: nat, y: nat)
    requires |xs| == |ys|
    ensures Dot(xs + [x], ys + [y]) == Dot(xs, ys) + x * y
  {
    assert (xs + [x])[..|xs|] == xs && (ys + [y])[..|ys|] == ys;
  }

  // ----- the verification equation

  datatype BatchProofItem = BatchProofItem(publicInputs: seq<seq<byte>>, proof: seq<byte>)

  predicate InputsCanonical(inputs: seq<seq<byte>>) {
    forall i :: 0 <= i < |inputs| ==> FrOf(inputs[i]).Some?
  }

  function Scalars(inputs: seq<seq<byte>>): seq<nat>
    requires InputsCanonical(inputs)
  {
    seq(|inputs|, i requires 0 <= i < |inputs| => FrOf(inputs[i]).value)
  }

  /** IC[0] + sum of x_i * IC[i+1]. */
  function VkX(key: Key, xs: seq<nat>): nat
    requires |key.ic| == |xs| + 1
  {
    Dot(key.ic, [1] + xs)
  }

  /** The exponent of e(-A,B) e(alpha,beta) e(vk_x,gamma) e(C,delta); the proof is valid iff p divides it. */
  function Equation(c: Curve, key: Key, item: BatchProofItem): int
    requires ItemOk(key, item)
  {
    -(c.g1(item.proof[..64]) as int) * c.g2(item.proof[64..192])
    + key.alpha * key.beta
    + VkX(key, Scalars(item.publicInputs)) * key.gamma
    + c.g1(item.proof[192..]) * key.delta
  }

  predicate ItemOk(key: Key, item: BatchProofItem) {
    && |item.proof| == PROOF_LEN
    && |key.ic| == |item.publicInputs| + 1
    && InputsCanonical(item.publicInputs)
  }

  function CheckItem(key: Key, item: BatchProofItem): Guard<Error> {
    if |item.proof| != PROOF_LEN then Fail(InvalidProofLength)
    else if |key.ic| != |item.publicInputs| + 1 then Fail(PublicInputCountMismatch)
    else if !InputsCanonical(item.publicInputs) then Fail(NonCanonicalInput)
    else Pass
  }

  /** Whether one proof is valid under one key. */
  function Against(c: Curve, vk: seq<byte>, item: BatchProofItem): Result<bool, Error>
    requires c.p > 0
  {
    if !VkShapeOk(vk) then Err(InvalidVkLength)
    else
      var key := ParseVk(c, vk);
      :- CheckItem(key, item);
      Ok(Equation(c, key, item) % c.p == 0)
  }

  /** The public-input linear combination, as one multi-scalar multiplication. */
  method VkXOf(c: Curve, key: Key, inputs: seq<seq<byte>>) returns (r: Option<nat>)
    requires c.p > 0 && |key.ic| == |inputs| + 1
    requires forall i :: 0 <= i < |inputs| ==> |inputs[i]| == 32
    ensures r.Some? <==> InputsCanonical(inputs)
    ensures r.Some? ==> r.value == VkX(key, Scalars(inputs)) % c.p
  {
    var points, scalars := [key.ic[0]], [1];
    for i := 0 to |inputs|
      invariant forall j :: 0 <= j < i ==> FrOf(inputs[j]).Some?
      invariant points == key.ic[..i + 1] && |scalars| == i + 1
      invariant scalars[0] == 1 && forall j :: 0 <= j < i ==> scalars[j + 1] == FrOf(inputs[j]).value
    {
      var x := PublicInputToFr(inputs[i]);
      if x.None? {
        return None;
      }
      points, scalars := points + [key.ic[i + 1]], scalars + [x.value];
    }
    assert points == key.ic && scalars == [1] + Scalars(inputs);
    r := Some(Msm(c.p, points, scalars));
  }

  /** Inputs are 32-byte strings by type. */
  predicate WellTyped(item: BatchProofItem) {
    forall i :: 0 <= i < |item.publicInputs| ==> |item.publicInputs[i]| == 32
  }

  method VerifyAgainstVk(c: Curve, vk: seq<byte>, item: BatchProofItem) returns (r: Result<bool, Error>)
    requires c.Valid() && WellTyped(item) && VkShapeOk(vk) && |item.proof| == PROOF_LEN
    ensures r == Against(c, vk, item)
  {
    var key := ReadVk(c, vk);
    if |key.ic| != |item.publicInputs| + 1 {
      return Err(PublicInputCountMismatch);
    }
    var vkX := VkXOf(c, key, item.publicInputs);
    if vkX.None? {
      return Err(NonCanonicalInput);
    }
    var valid := CheckPairings(c, key, item, vkX.value);
    r := Ok(valid);
  }

  /** e(-A,B) e(alpha,beta) e(vk_x,gamma) e(C,delta) == 1. */
  method CheckPairings(c: Curve, key: Key, item: BatchProofItem, vkX: nat) returns (valid: bool)
    requires c.Valid() && ItemOk(key, item) && vkX == VkX(key, Scalars(item.publicInputs)) % c.p
    ensures valid == (Equation(c, key, item) % c.p == 0)
  {
    var negated := NegateG1Bytes(item.proof[..64]);
    var negA, b, cc := c.g1(negated), c.g2(item.proof[64..192]), c.g1(item.proof[192..]);
    valid := PairingCheck(c.p, [negA] + [key.alpha] + [vkX] + [cc], [b] + [key.beta] + [key.gamma] + [key.delta]);
    FourPairings(c, key, item, negA, vkX);
  }

  lemma DotFour(x0: nat, x1: nat, x2: nat, x3: nat, y0: nat, y1: nat, y2: nat, y3: nat)
    ensures Dot([x0] + [x1] + [x2] + [x3], [y0] + [y1] + [y2] + [y3]) == x0 * y0 + x1 * y1 + x2 * y2 + x3 * y3
  {
    DotSnoc([x0] + [x1] + [x2], [y0] + [y1] + [y2], x3, y3);
    DotSnoc([x0] + [x1], [y0] + [y1], x2, y2);
    DotSnoc([x0], [y0], x1, y1);
    assert [x0][..0] == [] && [y0][..0] == [];
  }

  lemma FourPairings(c: Curve, key: Key, item: BatchProofItem, negA: nat, vkX: nat)
    requires c.p > 0 && ItemOk(key, item)
    requires Cong(c.p, negA, -(c.g1(item.proof[..64]) as int)) && vkX == VkX(key, Scalars(item.publicInputs)) % c.p
    ensures var b, cc := c.g2(item.proof[64..192]), c.g1(item.proof[192..]);
            PairingCheck(c.p, [negA] + [key.alpha] + [vkX] + [cc], [b] + [key.beta] + [key.gamma] + [key.delta])
            == (Equation(c, key, item) % c.p == 0)
  {
    var p, b, cc := c.p, c.g2(item.proof[64..192]), c.g1(item.proof[192..]);
    var x := VkX(key, Scalars(item.publicInputs));
    DotFour(negA, key.alpha, vkX, cc, b, key.beta, key.gamma, key.delta);
    CongMul(p, negA, -(c.g1(item.proof[..64]) as int), b);
    CongMod(p, x);
    CongMul(p, vkX, x, key.gamma);
    CongRefl(p, key.alpha * key.beta);
    CongRefl(p, cc * key.delta);
    CongAdd(p, negA * b, -(c.g1(item.proof[..64]) as int) * b, key.alpha * key.beta, key.alpha * key.beta);
    CongAdd(p, negA * b + key.alpha * key.beta, -(c.g1(item.proof[..64]) as int) * b + key.alpha * key.beta,
            vkX * key.gamma, x * key.gamma);
    CongAdd(p, negA * b + key.alpha * key.beta + vkX * key.gamma,
            -(c.g1(item.proof[..64]) as int) * b + key.alpha * key.beta + x * key.gamma, cc * key.delta, cc * key.delta);
    CongZero(p, negA * b + key.alpha * key.beta + vkX * key.gamma + cc * key.delta, Equation(c, key, item));
  }
}
