/**
  The reference arithmetic modulo r on four 64-bit limbs: byte decoding, addition, the 4x4-limb
  product and its 512-bit reduction. Every result is the representative below r of the integer
  result, and no intermediate leaves its machine type.
*/
module FieldLimbs {
  import opened Wrappers
  import opened Positional
  import opened ByteStrings
  import opened Notes

  const BASE: nat := 0x1_0000_0000_0000_0000
  const TWO_256: nat := 0x1_0000000000000000_0000000000000000_0000000000000000_0000000000000000
  const TWO_128: nat := 0x1_0000000000000000_0000000000000000

  type u64 = x: nat | x < 0x1_0000_0000_0000_0000
  type u128 = x: nat | x < 0x1_0000000000000000_0000000000000000
  type i128 = x: int | -0x80000000_00000000_00000000_00000000 <= x < 0x80000000_00000000_00000000_00000000

  /** A Rust `[u64; 4]`, least significant limb first. */
  type Limbs = xs: seq<u64> | |xs| == 4 witness [0, 0, 0, 0]

  const R: Limbs := [0x43e1f593f0000001, 0x2833e84879b97091, 0xb85045b68181585d, 0x30644e72e131a029]

  const TWO256_MOD_R: Limbs := [0xac96341c4ffffffb, 0x36fc76959f60cd29, 0x666ea36f7879462e, 0x0e0a77c19a07df2f]

  function Val(xs: seq<u64>): nat { Eval(xs, BASE) }

  lemma Powers()
    ensures Pow(BASE, 0) == 1 && Pow(BASE, 1) == BASE && Pow(BASE, 4) == TWO_256
    ensures Pow(BASE, 8) == TWO_256 * TWO_256
  {
    assert Pow(BASE, 1) == BASE * Pow(BASE, 0);
    assert Pow(BASE, 2) == BASE * Pow(BASE, 1);
    assert Pow(BASE, 3) == BASE * Pow(BASE, 2);
    assert Pow(BASE, 4) == BASE * Pow(BASE, 3);
    PowAdd(BASE, 4, 4);
  }

  lemma ValFour(xs: Limbs)
    ensures Val(xs) == xs[0] + BASE * (xs[1] + BASE * (xs[2] + BASE * xs[3]))
  {
    assert xs[1..][1..] == xs[2..] && xs[2..][1..] == xs[3..] && xs[3..] == [xs[3]];
    EvalOne(xs[3], BASE);
    assert Eval(xs[2..], BASE) == xs[2] + BASE * xs[3];
    assert Eval(xs[1..], BASE) == xs[1] + BASE * Eval(xs[2..], BASE);
  }

  lemma ModulusValue()
    ensures Val(R) == FR_MODULUS
    ensures TWO_256 == 5 * FR_MODULUS + Val(TWO256_MOD_R)
  {
    ValFour(R);
    ValFour(TWO256_MOD_R);
  }

  lemma ValBound(xs: Limbs)
    ensures Val(xs) < TWO_256
  {
    EvalBound(xs, BASE);
    Powers();
  }

  /** The representative below r is unique, whichever code computed it. */
  lemma CanonicalIsUnique(xs: Limbs, ys: Limbs, n: nat)
    requires Val(xs) == n % FR_MODULUS && Val(ys) == n % FR_MODULUS
    ensures xs == ys
  {
    EvalInjective(xs, ys, BASE);
  }

  // ----- comparison with r and subtraction of r

  method GeqR(f: Limbs) returns (geq: bool)
    ensures geq <==> Val(f) >= FR_MODULUS
  {
    ModulusValue();
    var i := 4;
    while i > 0
      invariant 0 <= i <= 4 && f[i..] == R[i..]
    {
      i := i - 1;
      if f[i] > R[i] {
        EvalLess(R, f, i, BASE);
        return true;
      }
      if f[i] < R[i] {
        EvalLess(f, R, i, BASE);
        return false;
      }
      assert f[i..] == [f[i]] + f[i + 1..] && R[i..] == [R[i]] + R[i + 1..];
    }
    assert f[0..] == f && R[0..] == R;
    geq := true;
  }

  /** Subtract r, wrapping at 2^256 as the borrow out of the top limb is dropped. */
  method SubR(f: Limbs) returns (limbs: Limbs)
    ensures Val(limbs) == if Val(f) >= FR_MODULUS then Val(f) - FR_MODULUS else Val(f) + TWO_256 - FR_MODULUS
  {
    var borrow: i128 := 0;
    limbs := [0, 0, 0, 0];
    for i := 0 to 4
      invariant borrow == 0 || borrow == 1
      invariant Val(limbs[..i]) + Val(R[..i]) == Val(f[..i]) + Pow(BASE, i) * borrow
    {
      var diff: i128 := f[i] - R[i] - borrow;
      ghost var before, b: nat := limbs, borrow;
      if diff < 0 {
        limbs, borrow := limbs[i := diff + BASE], 1;
      } else {
        limbs, borrow := limbs[i := diff], 0;
      }
      assert limbs[..i] == before[..i];
      BorrowStep(limbs, f, i, b, borrow);
    }
    assert limbs[..4] == limbs && R[..4] == R && f[..4] == f;
    BorrowOut(limbs, f, borrow);
  }

  lemma BorrowStep(limbs: Limbs, f: Limbs, i: nat, b: nat, borrow: nat)
    requires i < 4 && Val(limbs[..i]) + Val(R[..i]) == Val(f[..i]) + Pow(BASE, i) * b
    requires limbs[i] as int + R[i] as int + b == f[i] as int + BASE * borrow
    ensures Val(limbs[..i + 1]) + Val(R[..i + 1]) == Val(f[..i + 1]) + Pow(BASE, i + 1) * borrow
  {
    EvalSnoc(limbs, i, BASE);
    EvalSnoc(R, i, BASE);
    EvalSnoc(f, i, BASE);
    SubPlace(Pow(BASE, i), BASE, Val(limbs[..i]), Val(f[..i]), Val(R[..i]), b, limbs[i], f[i], R[i], borrow);
  }

  lemma BorrowOut(limbs: Limbs, f: Limbs, borrow: nat)
    requires borrow <= 1 && Val(limbs) + Val(R) == Val(f) + Pow(BASE, 4) * borrow
    ensures Val(limbs) == if Val(f) >= FR_MODULUS then Val(f) - FR_MODULUS else Val(f) + TWO_256 - FR_MODULUS
  {
    ModulusValue();
    Powers();
    ValBound(limbs);
    ValBound(f);
  }

  lemma Whole(xs: seq<u64>)
    ensures xs[..|xs|] == xs
  {
  }

  /** The closing loop of every reduction: subtract r until the value is below it. */
  method SubtractWhileGeq(f: Limbs) returns (g: Limbs)
    ensures Val(g) == Val(f) % FR_MODULUS
  {
    g := f;
    var geq := GeqR(g);
    while geq
      invariant geq <==> Val(g) >= FR_MODULUS
      invariant Val(g) % FR_MODULUS == Val(f) % FR_MODULUS
      decreases Val(g)
    {
      ModSubtract(Val(g), 1);
      g := SubR(g);
      geq := GeqR(g);
    }
  }

  lemma ModSubtract(n: nat, k: nat)
    requires k * FR_MODULUS <= n
    ensures (n - k * FR_MODULUS) % FR_MODULUS == n % FR_MODULUS
  {
    var m := n - k * FR_MODULUS;
    var q, d := m / FR_MODULUS, m % FR_MODULUS;
    assert n == FR_MODULUS * (q + k) + d;
    DivModUnique(n, FR_MODULUS, q + k, d);
  }

  lemma DivModUnique(n: nat, d: nat, q: nat, m: nat)
    requires d > 0 && n == d * q + m && m < d
    ensures n / d == q && n % d == m
  {
    LowDigit(n % d, n / d, m, q, d);
  }

  // ----- decoding bytes

  method FromBytes(bytes: seq<byte>) returns (f: Limbs)
    requires |bytes| == 32
    ensures Val(f) == Eval(bytes, 256) % FR_MODULUS
  {
    var limbs: Limbs := [0, 0, 0, 0];
    for i := 0 to 4
      invariant forall j :: 0 <= j < i ==> limbs[j] == Eval(bytes[8 * j..8 * j + 8], 256)
    {
      EvalBound(bytes[8 * i..8 * i + 8], 256);
      EightBytes();
      limbs := limbs[i := Eval(bytes[8 * i..8 * i + 8], 256)]; // u64::from_le_bytes
    }
    LimbsOfBytes(bytes, limbs);
    f := SubtractWhileGeq(limbs);
  }

  lemma EightBytes()
    ensures Pow(256, 8) == BASE
  {
    assert Pow(256, 2) == 256 * Pow(256, 1) == 65536;
    PowAdd(256, 2, 2);
    PowAdd(256, 4, 4);
  }

  lemma LimbsOfBytes(bytes: seq<byte>, limbs: Limbs)
    requires |bytes| == 32
    requires forall j :: 0 <= j < 4 ==> limbs[j] == Eval(bytes[8 * j..8 * j + 8], 256)
    ensures Val(limbs) == Eval(bytes, 256)
  {
    EightBytes();
    ValFour(limbs);
    var b1, b2, b3 := bytes[8..], bytes[16..], bytes[24..];
    assert limbs[0] == Eval(bytes[0..8], 256) && limbs[3] == Eval(bytes[24..32], 256);
    assert bytes == bytes[0..8] + b1 && b1 == bytes[8..16] + b2 && b2 == bytes[16..24] + b3 && b3 == bytes[24..32];
    EvalAppend(bytes[0..8], b1, 256);
    EvalAppend(bytes[8..16], b2, 256);
    EvalAppend(bytes[16..24], b3, 256);
  }

  // ----- addition

  method Add(a: Limbs, b: Limbs) returns (f: Limbs)
    requires Val(a) < FR_MODULUS && Val(b) < FR_MODULUS
    ensures Val(f) == (Val(a) + Val(b)) % FR_MODULUS
  {
    var carry: u64 := 0;
    var limbs: Limbs := [0, 0, 0, 0];
    for i := 0 to 4
      invariant carry <= 1
      invariant Val(limbs[..i]) + Pow(BASE, i) * carry == Val(a[..i]) + Val(b[..i])
    {
      var s: u128 := a[i] + b[i] + carry;
      ghost var before, c := limbs, carry;
      limbs := limbs[i := s % BASE];
      carry := s / BASE;
      assert limbs[..i] == before[..i];
      AddStep(limbs, a, b, i, c, s);
    }
    Whole(limbs);
    Whole(a);
    Whole(b);
    Powers();
    assert carry == 0;
    var geq := GeqR(limbs);
    if geq {
      f := SubR(limbs);
      DivModUnique(Val(a) + Val(b), FR_MODULUS, 1, Val(f));
    } else {
      f := limbs;
      DivModUnique(Val(a) + Val(b), FR_MODULUS, 0, Val(f));
    }
  }

  lemma AddStep(limbs: Limbs, a: Limbs, b: Limbs, i: nat, c: nat, s: nat)
    requires i < 4 && s == a[i] + b[i] + c && limbs[i] == s % BASE
    requires Val(limbs[..i]) + Pow(BASE, i) * c == Val(a[..i]) + Val(b[..i])
    ensures Val(limbs[..i + 1]) + Pow(BASE, i + 1) * (s / BASE) == Val(a[..i + 1]) + Val(b[..i + 1])
  {
    EvalSnoc(limbs, i, BASE);
    EvalSnoc(a, i, BASE);
    EvalSnoc(b, i, BASE);
    AddPlace(Pow(BASE, i), BASE, Val(limbs[..i]), Val(a[..i]), Val(b[..i]), c, a[i], b[i]);
  }

  // ----- multiplication

  /** A Rust `[u64; 8]`. */
  type Wide = xs: seq<u64> | |xs| == 8 witness [0, 0, 0, 0, 0, 0, 0, 0]

  /** The exact schoolbook product; no 128-bit intermediate overflows. */
  method Mul512(a: Limbs, b: Limbs) returns (r: Wide)
    ensures Val(r) == Val(a) * Val(b)
  {
    r := [0, 0, 0, 0, 0, 0, 0, 0];
    AllZero(r);
    for i := 0 to 4
      invariant Val(r) == Val(a[..i]) * Val(b)
      invariant forall k :: i + 4 <= k < 8 ==> r[k] == 0
    {
      r := MulRow(a[i], b, r, i);
      EvalSnoc(a, i, BASE);
      RowSum(Val(a[..i]), Pow(BASE, i), a[i], Val(b));
    }
    Whole(a);
  }

  lemma RowSum(v: nat, p: nat, x: nat, w: nat)
    ensures (v + p * x) * w == v * w + p * (x * w)
  {
  }

  lemma AllZero(xs: seq<u64>)
    requires forall k :: 0 <= k < |xs| ==> xs[k] == 0
    ensures Val(xs) == 0
  {
    if xs != [] {
      AllZero(xs[1..]);
    }
  }

  /** One row: add `x * b` at limb `i`, rippling the carry through four limbs and storing it in the fifth. */
  method MulRow(x: u64, b: Limbs, r0: Wide, i: nat) returns (r: Wide)
    requires i < 4 && forall k :: i + 4 <= k < 8 ==> r0[k] == 0
    ensures Val(r) == Val(r0) + Pow(BASE, i) * (x * Val(b))
    ensures forall k :: i + 5 <= k < 8 ==> r[k] == 0
  {
    r := r0;
    var carry: u64 := 0;
    for j := 0 to 4
      invariant Val(r) + Pow(BASE, i + j) * carry == Val(r0) + Pow(BASE, i) * (x * Val(b[..j]))
      invariant forall k :: i + 4 <= k < 8 ==> r[k] == 0
    {
      ProductFits(x, b[j], r[i + j], carry);
      var prod: u128 := x * b[j] + r[i + j] + carry;
      ghost var before, c := r, carry;
      r := r[i + j := prod % BASE];
      carry := prod / BASE;
      MulStep(x, b, r0, before, i, j, c);
    }
    Whole(b);
    EvalUpdate(r, i + 4, carry, BASE);
    assert r[i + 4] == 0;
    r := r[i + 4 := carry];
  }

  lemma ProductFits(x: u64, y: u64, z: u64, c: u64)
    ensures x * y + z + c < TWO_128 && (x * y + z + c) / BASE < BASE
  {
    MulLe(x, BASE - 1, y);
    MulLe(y, BASE - 1, BASE - 1);
    assert x * y <= (BASE - 1) * (BASE - 1);
  }

  lemma MulStep(x: u64, b: Limbs, r0: Wide, before: Wide, i: nat, j: nat, c: u64)
    requires i < 4 && j < 4
    requires Val(before) + Pow(BASE, i + j) * c == Val(r0) + Pow(BASE, i) * (x * Val(b[..j]))
    ensures var prod := x * b[j] + before[i + j] + c;
            prod % BASE < BASE
            && Val(before[i + j := prod % BASE]) + Pow(BASE, i + j + 1) * (prod / BASE)
               == Val(r0) + Pow(BASE, i) * (x * Val(b[..j + 1]))
  {
    var low := before[i + j];
    EvalUpdate(before, i + j, (x * b[j] + low + c) % BASE, BASE);
    EvalSnoc(b, j, BASE);
    PowAdd(BASE, i, j);
    MulPlace(Pow(BASE, i), Pow(BASE, j), BASE, Val(before), Val(before[i + j := (x * b[j] + low + c) % BASE]),
             Val(r0), Val(b[..j]), x, b[j], low, c);
  }

  /** `MulStep` on plain numbers: `p * q` is the weight of the limb that is replaced. */
  lemma MulPlace(p: nat, q: nat, base: nat, total: nat, total': nat, start: nat, v: nat, x: nat, y: nat, low: nat, c: nat)
    requires base > 0 && total + (p * q) * c == start + p * (x * v)
    requires total' + (p * q) * low == total + (p * q) * ((x * y + low + c) % base)
    ensures total' + (base * (p * q)) * ((x * y + low + c) / base) == start + p * (x * (v + q * y))
  {
    CarryStep(p * q, base, x * y + low + c);
    Distribute(p * q, x * y, low, c);
    RowTerm(p, x, v, q, y);
  }

  lemma RowTerm(p: nat, x: nat, v: nat, q: nat, y: nat)
    ensures p * (x * (v + q * y)) == p * (x * v) + (p * q) * (x * y)
  {
    assert x * (v + q * y) == x * v + q * (x * y);
    assert p * (q * (x * y)) == (p * q) * (x * y);
  }

  /** Replace hi * 2^256 by hi * (2^256 mod r) until nothing is left above 2^256, then subtract r. */
  method Reduce512(wide: Wide) returns (f: Limbs)
    ensures Val(f) == Val(wide) % FR_MODULUS
  {
    var n := wide;
    while n[4..] != [0, 0, 0, 0]
      invariant Val(n) % FR_MODULUS == Val(wide) % FR_MODULUS
      decreases Val(n)
    {
      ghost var before := Val(n);
      n := FoldHigh(n);
      assert Val(n) < before;
    }
    SplitWide(n);
    AllZero(n[4..]);
    f := SubtractWhileGeq(n[..4]);
  }

  /** One round of the reduction. */
  method FoldHigh(n: Wide) returns (n': Wide)
    requires n[4..] != [0, 0, 0, 0]
    ensures Val(n') < Val(n) && Val(n') % FR_MODULUS == Val(n) % FR_MODULUS
  {
    var hi: Limbs := n[4..];
    var lo: Limbs := n[..4];
    var t := Mul512(hi, TWO256_MOD_R);
    SplitWide(n);
    ProductBelow(hi, TWO256_MOD_R);
    n' := AddLow(lo, t);
    FoldShrinks(Val(n), Val(lo), Val(hi), Val(n'), hi);
  }

  lemma ProductBelow(x: Limbs, y: Limbs)
    ensures Val(x) * Val(y) < TWO_256 * (TWO_256 - 1)
  {
    ValBound(x);
    ValBound(y);
    MulLe(Val(x), TWO_256 - 1, Val(y));
    MulLe(Val(y), TWO_256 - 1, TWO_256 - 1);
  }

  lemma SplitWide(n: Wide)
    ensures Val(n) == Val(n[..4]) + TWO_256 * Val(n[4..])
  {
    assert n == n[..4] + n[4..];
    EvalAppend(n[..4], n[4..], BASE);
    Powers();
  }

  lemma FoldShrinks(n: nat, lo: nat, hi: nat, n': nat, hiLimbs: Limbs)
    requires n == lo + TWO_256 * hi && n' == lo + hi * Val(TWO256_MOD_R)
    requires hi == Val(hiLimbs) && hiLimbs != [0, 0, 0, 0]
    ensures n' < n && n' % FR_MODULUS == n % FR_MODULUS
  {
    ModulusValue();
    ValFour(hiLimbs);
    assert n - n' == (5 * hi) * FR_MODULUS by {
      assert TWO_256 * hi == (5 * FR_MODULUS) * hi + Val(TWO256_MOD_R) * hi;
    }
    ModSubtract(n, 5 * hi);
  }

  /** `lo + t` with the carry rippled through all eight limbs; nothing is carried out of the top. */
  method AddLow(lo: Limbs, t: Wide) returns (n: Wide)
    requires Val(t) < TWO_256 * (TWO_256 - 1)
    ensures Val(n) == Val(lo) + Val(t)
  {
    n := [0, 0, 0, 0, 0, 0, 0, 0];
    var padded: Wide := lo + [0, 0, 0, 0];
    var carry: u64 := 0;
    for i := 0 to 8
      invariant carry <= 1
      invariant Val(n[..i]) + Pow(BASE, i) * carry == Val(padded[..i]) + Val(t[..i])
    {
      var s: u128 := (if i < 4 then lo[i] else 0) + t[i] + carry;
      ghost var before, c := n, carry;
      n := n[i := s % BASE];
      carry := s / BASE;
      assert n[..i] == before[..i];
      WideAddStep(n, padded, t, i, c, s);
    }
    Whole(n);
    Whole(padded);
    Whole(t);
    EvalAppend(lo, [0, 0, 0, 0], BASE);
    AllZero([0, 0, 0, 0]);
    ValBound(lo);
    Powers();
  }

  lemma WideAddStep(n: Wide, x: Wide, y: Wide, i: nat, c: nat, s: nat)
    requires i < 8 && s == x[i] + y[i] + c && n[i] == s % BASE
    requires Val(n[..i]) + Pow(BASE, i) * c == Val(x[..i]) + Val(y[..i])
    ensures Val(n[..i + 1]) + Pow(BASE, i + 1) * (s / BASE) == Val(x[..i + 1]) + Val(y[..i + 1])
  {
    EvalSnoc(n, i, BASE);
    EvalSnoc(x, i, BASE);
    EvalSnoc(y, i, BASE);
    AddPlace(Pow(BASE, i), BASE, Val(n[..i]), Val(x[..i]), Val(y[..i]), c, x[i], y[i]);
  }

  method Mul(a: Limbs, b: Limbs) returns (f: Limbs)
    ensures Val(f) == (Val(a) * Val(b)) % FR_MODULUS
  {
    var wide := Mul512(a, b);
    f := Reduce512(wide);
  }

  method Pow5(x: Limbs) returns (f: Limbs)
    ensures Val(f) == Pow(Val(x), 5) % FR_MODULUS
  {
    var x2 := Mul(x, x);
    var x4 := Mul(x2, x2);
    f := Mul(x4, x);
    FifthPower(Val(x), Val(x2), Val(x4));
  }

  lemma MulMod(a: nat, b: nat)
    ensures ((a % FR_MODULUS) * b) % FR_MODULUS == (a * b) % FR_MODULUS
  {
    var q, d := a / FR_MODULUS, a % FR_MODULUS;
    assert a == FR_MODULUS * q + d;
    assert a * b == (q * b) * FR_MODULUS + d * b;
    ModSubtract(a * b, q * b);
  }

  lemma FifthPower(x: nat, x2: nat, x4: nat)
    requires x2 == (x * x) % FR_MODULUS && x4 == (x2 * x2) % FR_MODULUS
    ensures (x4 * x) % FR_MODULUS == Pow(x, 5) % FR_MODULUS
  {
    var y := x * x;
    SquareMod(y, x2);
    assert (x2 * x2) % FR_MODULUS == (y * y) % FR_MODULUS;
    MulMod(x2 * x2, x);
    MulMod(y * y, x);
    FifthPowerIs(x);
  }

  lemma SquareMod(y: nat, z: nat)
    requires z == y % FR_MODULUS
    ensures (z * z) % FR_MODULUS == (y * y) % FR_MODULUS
  {
    MulMod(y, z);
    MulMod(y, y);
    assert y * z == z * y;
  }

  lemma FifthPowerIs(x: nat)
    ensures Pow(x, 5) == ((x * x) * (x * x)) * x
  {
    assert Pow(x, 2) == x * Pow(x, 1) == x * x;
    PowAdd(x, 2, 2);
    PowAdd(x, 4, 1);
  }

  // ----- the hasher's inputs

  /** The eight little-endian bytes of a limb. */
  function LimbBytes(x: u64): (bytes: seq<byte>)
    ensures |bytes| == 8 && Eval(bytes, 256) == x
  {
    EightBytes();
    DigitsOf(x, 8)
  }

  method ToBytes(f: Limbs) returns (out: seq<byte>)
    ensures |out| == 32 && Eval(out, 256) == Val(f)
  {
    out := [];
    for i := 0 to 4
      invariant |out| == 8 * i
      invariant Eval(out, 256) == Val(f[..i])
    {
      EvalAppend(out, LimbBytes(f[i]), 256);
      EvalSnoc(f, i, BASE);
      PowersMatch(i);
      out := out + LimbBytes(f[i]);
    }
    Whole(f);
  }

  lemma {:induction false} PowersMatch(i: nat)
    ensures Pow(256, 8 * i) == Pow(BASE, i)
  {
    EightBytes();
    if i > 0 {
      PowersMatch(i - 1);
      PowAdd(256, 8, 8 * (i - 1));
    }
  }

  /**
    What both copies of the hasher pass to the host: the big-endian bytes of the canonical residue
    of a little-endian input.
  */
  method HasherInput(bytes: seq<byte>) returns (be: seq<byte>)
    requires |bytes| == 32
    ensures |be| == 32 && BigEndian(be) == Eval(bytes, 256) % FR_MODULUS
  {
    var f := FromBytes(bytes);
    var le := ToBytes(f);
    be := Reversed(le);
    ReversedValue(le);
  }
}
