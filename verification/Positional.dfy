/** Numbers as little-endian digit sequences in any base. */
module Positional {

  function Pow(base: nat, n: nat): nat {
    if n == 0 then 1 else base * Pow(base, n - 1)
  }

  function Eval(xs: seq<nat>, base: nat): nat {
    if xs == [] then 0 else xs[0] + base * Eval(xs[1..], base)
  }

  ghost predicate Digits(xs: seq<nat>, base: nat) {
    forall i :: 0 <= i < |xs| ==> xs[i] < base
  }

  lemma {:induction false} PowAdd(base: nat, m: nat, n: nat)
    ensures Pow(base, m + n) == Pow(base, m) * Pow(base, n)
  {
    if m > 0 {
      PowAdd(base, m - 1, n);
      MulAssociates(base, Pow(base, m - 1), Pow(base, n));
    }
  }

  lemma {:induction false} EvalAppend(xs: seq<nat>, ys: seq<nat>, base: nat)
    ensures Eval(xs + ys, base) == Eval(xs, base) + Pow(base, |xs|) * Eval(ys, base)
  {
    if xs == [] {
      assert xs + ys == ys;
    } else {
      EvalAppend(xs[1..], ys, base);
      assert (xs + ys)[1..] == xs[1..] + ys;
      MulAssociates(base, Pow(base, |xs| - 1), Eval(ys, base));
      Distribute(base, Eval(xs[1..], base), Pow(base, |xs| - 1) * Eval(ys, base), 0);
    }
  }

  lemma MulAssociates(a: nat, b: nat, c: nat)
    ensures a * (b * c) == (a * b) * c
  {
  }

  lemma EvalOne(x: nat, base: nat)
    ensures Eval([x], base) == x
  {
    assert [x][1..] == [];
  }

  lemma EvalSnoc(xs: seq<nat>, i: nat, base: nat)
    requires i < |xs|
    ensures Eval(xs[..i + 1], base) == Eval(xs[..i], base) + Pow(base, i) * xs[i]
  {
    assert xs[..i + 1] == xs[..i] + [xs[i]];
    EvalAppend(xs[..i], [xs[i]], base);
    EvalOne(xs[i], base);
  }

  lemma {:induction false} EvalBound(xs: seq<nat>, base: nat)
    requires Digits(xs, base)
    ensures Eval(xs, base) < Pow(base, |xs|) || base == 0
  {
    if xs != [] {
      EvalBound(xs[1..], base);
      if base > 0 {
        DigitBelow(xs[0], Eval(xs[1..], base), Pow(base, |xs| - 1), base);
      }
    }
  }

  lemma DigitBelow(x: nat, rest: nat, p: nat, base: nat)
    requires x < base && rest < p
    ensures x + base * rest < base * p
  {
    MulLe(rest + 1, p, base);
    assert base * (rest + 1) == base * rest + base;
  }

  /** Sequences of digits of the same length with the same value are equal. */
  lemma {:induction false} EvalInjective(xs: seq<nat>, ys: seq<nat>, base: nat)
    requires |xs| == |ys| && Digits(xs, base) && Digits(ys, base)
    requires Eval(xs, base) == Eval(ys, base)
    ensures xs == ys
  {
    if xs != [] {
      LowDigit(xs[0], Eval(xs[1..], base), ys[0], Eval(ys[1..], base), base);
      EvalInjective(xs[1..], ys[1..], base);
      assert xs == [xs[0]] + xs[1..] && ys == [ys[0]] + ys[1..];
    }
  }

  lemma LowDigit(x: nat, q: nat, y: nat, p: nat, base: nat)
    requires x < base && y < base && x + base * q == y + base * p
    ensures x == y && q == p
  {
    if q < p {
      MulLe(q + 1, p, base);
    } else if p < q {
      MulLe(p + 1, q, base);
    }
  }

  lemma MulLe(a: nat, b: nat, c: nat)
    requires a <= b
    ensures a * c <= b * c && c * a <= c * b
  {
  }

  /** Of two digit sequences that agree above place `i`, the one with the larger digit there is larger. */
  lemma EvalLess(xs: seq<nat>, ys: seq<nat>, i: nat, base: nat)
    requires |xs| == |ys| && i < |xs| && Digits(xs, base)
    requires xs[i + 1..] == ys[i + 1..] && xs[i] < ys[i]
    ensures Eval(xs, base) < Eval(ys, base)
  {
    var p := Pow(base, i);
    EvalSplit(xs, i, base);
    EvalSplit(ys, i, base);
    EvalBound(xs[..i], base);
    var tail := Pow(base, i + 1) * Eval(xs[i + 1..], base);
    HigherDigitWins(p, Eval(xs[..i], base), xs[i], Eval(ys[..i], base), ys[i], tail);
  }

  lemma HigherDigitWins(p: nat, low: nat, x: nat, low': nat, y: nat, tail: nat)
    requires low < p && x < y
    ensures low + p * x + tail < low' + p * y + tail
  {
    MulLe(x + 1, y, p);
    assert p * (x + 1) == p * x + p;
  }

  lemma EvalSplit(xs: seq<nat>, i: nat, base: nat)
    requires i < |xs|
    ensures Eval(xs, base)
         == Eval(xs[..i], base) + Pow(base, i) * xs[i] + Pow(base, i + 1) * Eval(xs[i + 1..], base)
  {
    assert xs == xs[..i + 1] + xs[i + 1..];
    EvalAppend(xs[..i + 1], xs[i + 1..], base);
    EvalSnoc(xs, i, base);
  }

  /** Changing one digit changes the value by the difference at that place. */
  lemma EvalUpdate(xs: seq<nat>, i: nat, x: nat, base: nat)
    requires i < |xs|
    ensures Eval(xs[i := x], base) + Pow(base, i) * xs[i] == Eval(xs, base) + Pow(base, i) * x
  {
    EvalSplit(xs, i, base);
    EvalSplit(xs[i := x], i, base);
    assert xs[i := x][..i] == xs[..i] && xs[i := x][i + 1..] == xs[i + 1..];
  }

  /** One place of an addition with carry: `s` is split into a digit and a carry to the next place. */
  lemma CarryStep(p: nat, base: nat, s: nat)
    requires base > 0
    ensures p * s == p * (s % base) + (base * p) * (s / base)
  {
    var q, d := s / base, s % base;
    assert s == base * q + d;
    assert p * (base * q) == (base * p) * q;
  }

  /** One place of a two-operand addition on running totals. */
  lemma AddPlace(p: nat, base: nat, total: nat, a: nat, b: nat, c: nat, x: nat, y: nat)
    requires base > 0 && total + p * c == a + b
    ensures var s := x + y + c;
            total + p * (s % base) + (base * p) * (s / base) == (a + p * x) + (b + p * y)
  {
    var s := x + y + c;
    CarryStep(p, base, s);
    Distribute(p, x, y, c);
  }

  lemma Distribute(p: nat, x: nat, y: nat, z: nat)
    ensures p * (x + y + z) == p * x + p * y + p * z
  {
  }

  /** One place of a subtraction with borrow on running totals. */
  lemma SubPlace(p: nat, base: nat, total: nat, a: nat, b: nat, borrow: nat, digit: nat, x: nat, y: nat, borrow': nat)
    requires total + b == a + p * borrow && digit + y + borrow == x + base * borrow'
    ensures (total + p * digit) + (b + p * y) == (a + p * x) + (base * p) * borrow'
  {
    Distribute(p, digit, y, borrow);
    Distribute(p, x, base * borrow', 0);
    assert p * (base * borrow') == (base * p) * borrow';
  }
}
