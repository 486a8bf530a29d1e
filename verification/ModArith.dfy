/** Congruence modulo p, and Euclid's lemma for prime p. */
module ModArith {

  ghost predicate Cong(p: nat, x: int, y: int)
    requires p > 0
  {
    exists k: int :: x == y + k * p
  }

  lemma CongMod(p: nat, x: int)
    requires p > 0
    ensures Cong(p, x % p, x)
  {
    assert x % p == x + (-(x / p)) * p;
  }

  lemma CongRefl(p: nat, x: int)
    requires p > 0
    ensures Cong(p, x, x)
  {
    assert x == x + 0 * p;
  }

  lemma CongTrans(p: nat, x: int, y: int, z: int)
    requires p > 0 && Cong(p, x, y) && Cong(p, y, z)
    ensures Cong(p, x, z)
  {
    var k :| x == y + k * p;
    var l :| y == z + l * p;
    assert x == z + (k + l) * p;
  }

  lemma CongAdd(p: nat, x: int, y: int, u: int, v: int)
    requires p > 0 && Cong(p, x, y) && Cong(p, u, v)
    ensures Cong(p, x + u, y + v)
  {
    var k :| x == y + k * p;
    var l :| u == v + l * p;
    assert x + u == y + v + (k + l) * p;
  }

  lemma CongMul(p: nat, x: int, y: int, c: int)
    requires p > 0 && Cong(p, x, y)
    ensures Cong(p, x * c, y * c) && Cong(p, c * x, c * y)
  {
    var k :| x == y + k * p;
    assert x * c == y * c + (k * c) * p;
  }

  lemma MultipleMod(p: nat, k: int)
    requires p > 0
    ensures (k * p) % p == 0
  {
    var x := k * p;
    var q, m := x / p, x % p;
    assert x == p * q + m;
    assert m == (k - q) * p;
    SmallMultiple(p, k - q);
  }

  lemma DivisibleIsCong(p: nat, x: int)
    requires p > 0 && x % p == 0
    ensures Cong(p, x, 0)
  {
    assert x == p * (x / p);
    assert x == 0 + (x / p) * p;
  }

  lemma MultipleOutside(p: nat, k: int)
    ensures k >= 1 ==> k * p >= p
    ensures k <= -1 ==> k * p <= -(p as int)
  {
    if k >= 1 {
      assert k * p == p + (k - 1) * p;
    } else if k <= -1 {
      assert k * p == -(p as int) + (k + 1) * p;
    }
  }

  lemma SmallMultiple(p: nat, k: int)
    requires -(p as int) < k * p < p
    ensures k == 0
  {
    MultipleOutside(p, k);
  }

  /** Congruent numbers have the same residue. */
  lemma CongResidue(p: nat, x: int, y: int)
    requires p > 0 && Cong(p, x, y)
    ensures x % p == y % p
  {
    CongMod(p, x);
    CongMod(p, y);
    CongTrans(p, x % p, x, y);
    var k :| x % p == y + k * p;
    var l :| y % p == y + l * p;
    assert x % p - y % p == (k - l) * p;
    SmallMultiple(p, k - l);
  }

  /** Congruent numbers are divisible together. */
  lemma CongZero(p: nat, x: int, y: int)
    requires p > 0 && Cong(p, x, y)
    ensures x % p == 0 <==> y % p == 0
  {
    CongResidue(p, x, y);
  }

  // ----- Euclid's lemma

  ghost predicate Prime(p: nat) {
    p > 1 && forall d: nat :: 1 < d < p ==> p % d != 0
  }

  predicate Divides(d: nat, x: nat)
    requires d > 0
  {
    x % d == 0
  }

  /** The least positive k with p | k * b. */
  lemma LeastMultiplier(p: nat, b: nat) returns (m: nat)
    requires p > 0
    ensures 0 < m <= p && Divides(p, m * b)
    ensures forall k: nat :: 0 < k < m ==> !Divides(p, k * b)
  {
    MultipleMod(p, b);
    assert p * b == b * p;
    m := 1;
    while !Divides(p, m * b)
      invariant 0 < m <= p
      invariant forall k: nat :: 0 < k < m ==> !Divides(p, k * b)
      decreases p - m
    {
      m := m + 1;
    }
  }

  /** It divides every multiplier: the remainder would be a smaller one. */
  lemma LeastDivides(p: nat, b: nat, m: nat, k: nat)
    requires p > 0 && 0 < m && Divides(p, m * b) && Divides(p, k * b)
    requires forall j: nat :: 0 < j < m ==> !Divides(p, j * b)
    ensures Divides(m, k)
  {
    var q, j := k / m, k % m;
    var x, y := (k * b) / p, (m * b) / p;
    ExactQuotient(k * b, p);
    ExactQuotient(m * b, p);
    DistributeRemainder(k, m, q, j, b);
    DistributeDifference(x, y, q, p);
    assert j * b == (x - q * y) * p;
    MultipleMod(p, x - q * y);
    assert Divides(p, j * b);
  }

  lemma ExactQuotient(n: nat, d: nat)
    requires d > 0 && n % d == 0
    ensures n == (n / d) * d
  {
    assert n == d * (n / d) + n % d;
  }

  lemma DistributeRemainder(k: nat, m: nat, q: nat, j: nat, b: nat)
    requires k == m * q + j
    ensures j * b == k * b - q * (m * b)
  {
    assert (m * q + j) * b == (m * q) * b + j * b;
    assert (m * q) * b == q * (m * b);
  }

  lemma DistributeDifference(x: int, y: int, q: int, p: int)
    ensures x * p - q * (y * p) == (x - q * y) * p
  {
    assert q * (y * p) == (q * y) * p;
  }

  lemma Euclid(p: nat, a: nat, b: nat)
    requires Prime(p) && Divides(p, a * b) && !Divides(p, a)
    ensures Divides(p, b)
  {
    var m := LeastMultiplier(p, b);
    LeastDivides(p, b, m, a);
    MultipleMod(p, b);
    assert p * b == b * p;
    LeastDivides(p, b, m, p);
    if m == p {
      assert false;
    }
    assert m == 1;
    assert 1 * b == b;
  }
}
