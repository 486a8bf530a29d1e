/**
  Batch verification: K verification equations, each weighted by its own challenge, collapsed into
  one combined pairing check.
*/
module BatchVerify {
  import opened Wrappers
  import opened ModArith
  import opened Groth16

  ghost predicate AllOk(key: Key, items: seq<BatchProofItem>) {
    forall j :: 0 <= j < |items| ==> ItemOk(key, items[j])
  }

  /** The challenge-weighted sum of the individual verification equations. */
  ghost function Weighted(c: Curve, key: Key, items: seq<BatchProofItem>, rs: seq<nat>): int
    requires AllOk(key, items) && |rs| == |items|
    decreases |items|
  {
    if items == [] then 0
    else
      var last := |items| - 1;
      Weighted(c, key, items[..last], rs[..last]) + rs[last] * Equation(c, key, items[last])
  }

  /** The first error among the items, in the order the loop meets them. */
  function FirstError(key: Key, items: seq<BatchProofItem>): (g: Guard<Error>)
    ensures g.Pass? <==> AllOk(key, items)
    decreases |items|
  {
    if items == [] then Pass
    else
      var g := CheckItem(key, items[0]);
      var rest := FirstError(key, items[1..]);
      assert forall j :: 0 < j < |items| ==> items[j] == items[1..][j - 1];
      if g.Fail? then g else rest
  }

  /** The first error in item order, or whether p divides the weighted sum. */
  ghost function BatchSpec(c: Curve, key: Key, items: seq<BatchProofItem>, rs: seq<nat>): Result<bool, Error>
    requires c.p > 0 && |rs| == |items|
  {
    match FirstError(key, items)
    case Fail(e) => Err(e)
    case Pass => Ok(Weighted(c, key, items, rs) % c.p == 0)
  }

  // ----- the accumulators of the loop

  /** The terms gathered so far: -r*A against B, the weight of alpha, and the vk_x and C terms. */
  datatype Terms = Terms(
    g1: seq<nat>, g2: seq<nat>, weight: nat, vkXs: seq<nat>, vkXScalars: seq<nat>, cs: seq<nat>, cScalars: seq<nat>)
  {
    predicate Shaped() {
      |g1| == |g2| && |vkXs| == |vkXScalars| && |cs| == |cScalars|
    }

    /** The exponent these terms stand for. */
    function Exponent(key: Key): int
      requires Shaped()
    {
      Dot(g1, g2) + weight * (key.alpha * key.beta) + Dot(vkXs, vkXScalars) * key.gamma + Dot(cs, cScalars) * key.delta
    }

    function Push(p: nat, a: nat, b: nat, vkX: nat, cc: nat, r: nat): Terms
      requires p > 0
    {
      Terms(g1 + [(a * ((0 - r) % p)) % p], g2 + [b], (weight + r) % p, vkXs + [vkX], vkXScalars + [r],
            cs + [cc], cScalars + [r])
    }
  }

  lemma PushExponent(p: nat, key: Key, t: Terms, a: nat, b: nat, vkX: nat, x: nat, cc: nat, r: nat)
    requires p > 0 && t.Shaped() && vkX == x % p
    ensures t.Push(p, a, b, vkX, cc, r).Shaped()
    ensures Cong(p, t.Push(p, a, b, vkX, cc, r).Exponent(key),
                 t.Exponent(key) + r * (-(a as int) * b + key.alpha * key.beta + x * key.gamma + cc * key.delta))
  {
    var t' := t.Push(p, a, b, vkX, cc, r);
    var negRA := (a * ((0 - r) % p)) % p;
    DotSnoc(t.g1, t.g2, negRA, b);
    DotSnoc(t.vkXs, t.vkXScalars, vkX, r);
    DotSnoc(t.cs, t.cScalars, cc, r);
    NegatedTerm(p, a, b, r);
    var ab := key.alpha * key.beta;
    CongMod(p, t.weight + r);
    CongMul(p, t'.weight, t.weight + r, ab);
    CongMod(p, x);
    CongMul(p, vkX, x, r * key.gamma);
    CongRefl(p, Dot(t.g1, t.g2));
    CongAdd(p, Dot(t.g1, t.g2), Dot(t.g1, t.g2), negRA * b, r * (-(a as int) * b));
    CongAdd(p, Dot(t.g1, t.g2) + negRA * b, Dot(t.g1, t.g2) + r * (-(a as int) * b), t'.weight * ab, (t.weight + r) * ab);
    VkXAndCTerms(p, key, Dot(t.vkXs, t.vkXScalars), vkX, x, r, Dot(t.cs, t.cScalars), cc);
    CongAdd(p, Dot(t.g1, t.g2) + negRA * b + t'.weight * ab,
            Dot(t.g1, t.g2) + r * (-(a as int) * b) + (t.weight + r) * ab,
            (Dot(t.vkXs, t.vkXScalars) + vkX * r) * key.gamma + (Dot(t.cs, t.cScalars) + cc * r) * key.delta,
            (Dot(t.vkXs, t.vkXScalars) + x * r) * key.gamma + (Dot(t.cs, t.cScalars) + cc * r) * key.delta);
    Regroup(Dot(t.g1, t.g2), t.weight, ab, Dot(t.vkXs, t.vkXScalars), key.gamma, Dot(t.cs, t.cScalars), key.delta,
            r, -(a as int) * b, x, cc);
  }

  lemma NegatedTerm(p: nat, a: nat, b: nat, r: nat)
    requires p > 0
    ensures Cong(p, ((a * ((0 - r) % p)) % p) * b, r * (-(a as int) * b))
  {
    var m := (0 - r) % p;
    CongMod(p, 0 - r);
    CongMul(p, m, 0 - r, a);
    CongMod(p, a * m);
    CongTrans(p, (a * m) % p, a * m, a * (0 - r));
    CongMul(p, (a * m) % p, a * (0 - r), b);
    SignsMove(a, b, r);
  }

  lemma SignsMove(a: int, b: int, r: int)
    ensures (a * (0 - r)) * b == r * ((-a) * b)
  {
    assert a * (0 - r) == r * (-a);
    assert (r * (-a)) * b == r * ((-a) * b);
  }

  lemma VkXAndCTerms(p: nat, key: Key, dx: nat, vkX: nat, x: nat, r: nat, dc: nat, cc: nat)
    requires p > 0 && vkX == x % p
    ensures Cong(p, (dx + vkX * r) * key.gamma + (dc + cc * r) * key.delta,
                 (dx + x * r) * key.gamma + (dc + cc * r) * key.delta)
  {
    CongMod(p, x);
    CongMul(p, vkX, x, r);
    CongRefl(p, dx);
    CongAdd(p, dx, dx, vkX * r, x * r);
    CongMul(p, dx + vkX * r, dx + x * r, key.gamma);
    CongRefl(p, (dc + cc * r) * key.delta);
    CongAdd(p, (dx + vkX * r) * key.gamma, (dx + x * r) * key.gamma, (dc + cc * r) * key.delta, (dc + cc * r) * key.delta);
  }

  lemma Regroup(d: int, w: int, ab: int, dx: int, gamma: int, dc: int, delta: int, r: int, ab': int, x: int, cc: int)
    ensures d + r * ab' + (w + r) * ab + ((dx + x * r) * gamma + (dc + cc * r) * delta)
         == d + w * ab + dx * gamma + dc * delta + r * (ab' + ab + x * gamma + cc * delta)
  {
    assert (w + r) * ab == w * ab + r * ab;
    assert (dx + x * r) * gamma == dx * gamma + r * (x * gamma);
    assert (dc + cc * r) * delta == dc * delta + r * (cc * delta);
    assert r * (ab' + ab + x * gamma + cc * delta) == r * ab' + r * ab + r * (x * gamma) + r * (cc * delta);
  }

  /**
    `challenges` stands for the Fiat-Shamir hashes of the transcript, one per item. The batch passes
    exactly if p divides the weighted sum of the items' own equations.
  */
  method VerifyBatch(c: Curve, vk: seq<byte>, items: seq<BatchProofItem>, challenges: seq<nat>)
    returns (r: Result<bool, Error>)
    requires c.p > 0 && VkShapeOk(vk) && |challenges| == |items|
    requires forall j :: 0 <= j < |items| ==> WellTyped(items[j])
    ensures items == [] ==> r == Err(EmptyBatch)
    ensures items != [] ==> r == BatchSpec(c, ParseVk(c, vk), items, challenges)
  {
    if items == [] {
      return Err(EmptyBatch);
    }
    var key := ReadVk(c, vk);
    var t := Terms([], [], 0, [], [], [], []);
    CongRefl(c.p, 0);
    for j := 0 to |items|
      invariant AllOk(key, items[..j])
      invariant FirstError(key, items) == FirstError(key, items[j..])
      invariant t.Shaped()
      invariant Cong(c.p, t.Exponent(key), Weighted(c, key, items[..j], challenges[..j]))
    {
      var item := items[j];
      assert items[j..][0] == item && items[j..][1..] == items[j + 1..];
      if |item.proof| != PROOF_LEN {
        return Err(InvalidProofLength);
      }
      if |key.ic| != |item.publicInputs| + 1 {
        return Err(PublicInputCountMismatch);
      }
      var vkX := VkXOf(c, key, item.publicInputs);
      if vkX.None? {
        return Err(NonCanonicalInput);
      }
      ghost var before := t;
      t := t.Push(c.p, c.g1(item.proof[..64]), c.g2(item.proof[64..192]), vkX.value, c.g1(item.proof[192..]), challenges[j]);
      PushItem(c, key, items, challenges, j, before, vkX.value);
    }
    assert items[..|items|] == items && challenges[..|items|] == challenges;
    var g1s := t.g1 + [(key.alpha * t.weight) % c.p] + [Msm(c.p, t.vkXs, t.vkXScalars)] + [Msm(c.p, t.cs, t.cScalars)];
    var g2s := t.g2 + [key.beta] + [key.gamma] + [key.delta];
    r := Ok(PairingCheck(c.p, g1s, g2s));
    CombinedCheck(c.p, key, t);
    CongTrans(c.p, Dot(g1s, g2s), t.Exponent(key), Weighted(c, key, items, challenges));
    CongZero(c.p, Dot(g1s, g2s), Weighted(c, key, items, challenges));
  }

  lemma PushItem(c: Curve, key: Key, items: seq<BatchProofItem>, rs: seq<nat>, j: nat, t: Terms, vkX: nat)
    requires c.p > 0 && j < |items| == |rs| && AllOk(key, items[..j]) && ItemOk(key, items[j])
    requires t.Shaped() && Cong(c.p, t.Exponent(key), Weighted(c, key, items[..j], rs[..j]))
    requires vkX == VkX(key, Scalars(items[j].publicInputs)) % c.p
    ensures AllOk(key, items[..j + 1])
    ensures var item := items[j];
            var t' := t.Push(c.p, c.g1(item.proof[..64]), c.g2(item.proof[64..192]), vkX, c.g1(item.proof[192..]), rs[j]);
            t'.Shaped() && Cong(c.p, t'.Exponent(key), Weighted(c, key, items[..j + 1], rs[..j + 1]))
  {
    var item := items[j];
    var a, b, cc := c.g1(item.proof[..64]), c.g2(item.proof[64..192]), c.g1(item.proof[192..]);
    PushExponent(c.p, key, t, a, b, vkX, VkX(key, Scalars(item.publicInputs)), cc, rs[j]);
    assert items[..j + 1][..j] == items[..j] && rs[..j + 1][..j] == rs[..j];
    CongRefl(c.p, rs[j] * Equation(c, key, item));
    CongAdd(c.p, t.Exponent(key), Weighted(c, key, items[..j], rs[..j]),
            rs[j] * Equation(c, key, item), rs[j] * Equation(c, key, item));
    var t' := t.Push(c.p, a, b, vkX, cc, rs[j]);
    CongTrans(c.p, t'.Exponent(key), t.Exponent(key) + rs[j] * Equation(c, key, item),
              Weighted(c, key, items[..j + 1], rs[..j + 1]));
  }

  /** The K + 3 pairings multiply to the exponent the terms stand for. */
  lemma CombinedCheck(p: nat, key: Key, t: Terms)
    requires p > 0 && t.Shaped()
    ensures var g1s := t.g1 + [(key.alpha * t.weight) % p] + [Msm(p, t.vkXs, t.vkXScalars)] + [Msm(p, t.cs, t.cScalars)];
            var g2s := t.g2 + [key.beta] + [key.gamma] + [key.delta];
            |g1s| == |g2s| && Cong(p, Dot(g1s, g2s), t.Exponent(key))
  {
    var aw, dx, dc := key.alpha * t.weight, Dot(t.vkXs, t.vkXScalars), Dot(t.cs, t.cScalars);
    DotSnoc(t.g1, t.g2, aw % p, key.beta);
    DotSnoc(t.g1 + [aw % p], t.g2 + [key.beta], dx % p, key.gamma);
    DotSnoc(t.g1 + [aw % p] + [dx % p], t.g2 + [key.beta] + [key.gamma], dc % p, key.delta);
    ReducedTerm(p, aw, key.beta);
    ReducedTerm(p, dx, key.gamma);
    ReducedTerm(p, dc, key.delta);
    var d, ab := Dot(t.g1, t.g2), aw * key.beta;
    CongSum(p, d, (aw % p) * key.beta, ab, (dx % p) * key.gamma, dx * key.gamma, (dc % p) * key.delta, dc * key.delta);
    AlphaTerm(key.alpha, t.weight, key.beta);
  }

  lemma AlphaTerm(alpha: nat, weight: nat, beta: nat)
    ensures (alpha * weight) * beta == weight * (alpha * beta)
  {
  }

  lemma ReducedTerm(p: nat, x: nat, y: nat)
    requires p > 0
    ensures Cong(p, (x % p) * y, x * y)
  {
    CongMod(p, x);
    CongMul(p, x % p, x, y);
  }

  lemma CongSum(p: nat, d: int, a: int, a': int, b: int, b': int, c: int, c': int)
    requires p > 0 && Cong(p, a, a') && Cong(p, b, b') && Cong(p, c, c')
    ensures Cong(p, d + a + b + c, d + a' + b' + c')
  {
    CongRefl(p, d);
    CongAdd(p, d, d, a, a');
    CongAdd(p, d + a, d + a', b, b');
    CongAdd(p, d + a + b, d + a' + b', c, c');
  }

  // ----- what the combined check is worth

  /** If every proof satisfies its own equation the batch passes, whatever the challenges. */
  lemma {:induction false} ValidBatchPasses(c: Curve, key: Key, items: seq<BatchProofItem>, rs: seq<nat>)
    requires c.p > 0 && AllOk(key, items) && |rs| == |items|
    requires forall j :: 0 <= j < |items| ==> Equation(c, key, items[j]) % c.p == 0
    ensures Weighted(c, key, items, rs) % c.p == 0
    decreases |items|
  {
    if items != [] {
      var last := |items| - 1;
      ValidBatchPasses(c, key, items[..last], rs[..last]);
      SumDivisible(c.p, Weighted(c, key, items[..last], rs[..last]), rs[last], Equation(c, key, items[last]));
    }
  }

  lemma SumDivisible(p: nat, w: int, r: int, e: int)
    requires p > 0 && w % p == 0 && e % p == 0
    ensures (w + r * e) % p == 0
  {
    DivisibleIsCong(p, w);
    DivisibleIsCong(p, e);
    CongMul(p, e, 0, r);
    CongAdd(p, w, 0, r * e, r * 0);
    CongZero(p, w + r * e, 0);
  }

  /** Changing one challenge moves the weighted sum by that item's equation alone. */
  lemma {:induction false} OneChallenge(c: Curve, key: Key, items: seq<BatchProofItem>, rs: seq<nat>, j: nat, r: nat)
    requires AllOk(key, items) && |rs| == |items| && j < |items|
    ensures Weighted(c, key, items, rs[j := r]) - Weighted(c, key, items, rs)
         == (r - rs[j]) * Equation(c, key, items[j])
    decreases |items|
  {
    var last := |items| - 1;
    if j < last {
      assert rs[j := r][..last] == rs[..last][j := r];
      OneChallenge(c, key, items[..last], rs[..last], j, r);
    } else {
      assert rs[j := r][..last] == rs[..last];
      assert r * Equation(c, key, items[j]) - rs[j] * Equation(c, key, items[j]) == (r - rs[j]) * Equation(c, key, items[j]);
    }
  }

  /**
    With the other challenges fixed, at most one residue modulo p of an invalid item's challenge
    lets the batch pass.
  */
  lemma InvalidItemHasOneChallenge(c: Curve, key: Key, items: seq<BatchProofItem>, rs: seq<nat>, j: nat, r: nat)
    requires Prime(c.p) && AllOk(key, items) && |rs| == |items| && j < |items|
    requires Equation(c, key, items[j]) % c.p != 0
    requires Weighted(c, key, items, rs) % c.p == 0
    requires Weighted(c, key, items, rs[j := r]) % c.p == 0
    ensures r % c.p == rs[j] % c.p
  {
    var p, e := c.p, Equation(c, key, items[j]);
    OneChallenge(c, key, items, rs, j, r);
    if r >= rs[j] {
      DifferenceDivides(p, r - rs[j], e, Weighted(c, key, items, rs[j := r]), Weighted(c, key, items, rs));
      SameResidue(p, r, rs[j]);
    } else {
      assert (rs[j] - r) * e == -((r - rs[j]) * e);
      DifferenceDivides(p, rs[j] - r, e, Weighted(c, key, items, rs), Weighted(c, key, items, rs[j := r]));
      SameResidue(p, rs[j], r);
    }
  }

  lemma DifferenceDivides(p: nat, d: nat, e: int, x: int, y: int)
    requires Prime(p) && x % p == 0 && y % p == 0 && x - y == d * e && e % p != 0
    ensures Divides(p, d)
  {
    assert x + y * -1 == e * d;
    assert !Divides(p, e % p) by {
      CongMod(p, e);
      CongZero(p, e % p, e);
    }
    var m := e % p;
    DivisibleIsCong(p, x);
    DivisibleIsCong(p, y);
    CongMul(p, y, 0, -1);
    CongAdd(p, x, 0, y * -1, 0 * -1);
    CongMod(p, e);
    CongMul(p, m, e, d);
    CongTrans(p, m * d, e * d, 0);
    CongZero(p, m * d, 0);
    Euclid(p, m, d);
  }

  lemma SameResidue(p: nat, x: nat, y: nat)
    requires p > 0 && x >= y && Divides(p, x - y)
    ensures x % p == y % p
  {
    DivisibleIsCong(p, x - y);
    CongRefl(p, y);
    CongAdd(p, x - y, 0, y, y);
    CongResidue(p, x, y);
  }
}
