/** The arithmetic of custody shortfalls: backing ratios and pro-rata payouts. */
module PoolBacking {
  import opened PoolSpec
  import opened Positional

  /** min(1, balance / supply). */
  function Backing(balance: nat, supply: nat): real {
    if balance >= supply then 1.0 else balance as real / supply as real
  }

  lemma DivisionLe(x: real, y: real, u: real, v: real)
    requires y > 0.0 && v > 0.0 && x * v <= u * y
    ensures x / y <= u / v
  {
    var p, q := x / y, u / v;
    assert p * y == x && q * v == u;
  }

  lemma BackingLe(balance: nat, supply: nat, balance': nat, supply': nat)
    requires balance' >= supply' || (balance < supply && balance * supply' <= balance' * supply)
    ensures Backing(balance, supply) <= Backing(balance', supply')
  {
    if balance' < supply' {
      assert (balance * supply') as real == balance as real * supply' as real;
      assert (balance' * supply) as real == balance' as real * supply as real;
      DivisionLe(balance as real, supply as real, balance' as real, supply' as real);
    } else if balance < supply {
      DivisionLe(balance as real, supply as real, 1.0, 1.0);
    }
  }

  /** The rounding of a payout: never more than the share, short of it by less than one unit. */
  lemma PayoutRounds(value: nat, balance: nat, supply: nat)
    requires 0 < value <= supply && balance < supply
    ensures var p := Payout(value, balance, supply);
            p * supply <= value * balance < p * supply + supply
  {
    DivRounds(value * balance, supply);
  }

  lemma DivRounds(n: nat, d: nat)
    requires d > 0
    ensures (n / d) * d <= n < (n / d) * d + d
  {
    assert n == d * (n / d) + n % d;
    assert (n / d) * d == d * (n / d);
  }

  lemma MulLeCancel(a: nat, b: nat, c: nat)
    requires c > 0 && a * c <= b * c
    ensures a <= b
  {
    if a > b {
      MulLe(b + 1, a, c);
    }
  }

  /** Under a shortfall a payout exceeds neither the value nor the balance, and takes no more than its share. */
  lemma PayoutShare(value: nat, balance: nat, supply: nat, p: nat)
    requires 0 < value <= supply && balance < supply && p == Payout(value, balance, supply)
    ensures p <= value && p <= balance
    ensures balance * (supply - value) <= (balance - p) * supply
  {
    PayoutRounds(value, balance, supply);
    MulLe(value, supply, balance);
    MulLe(balance, supply, value);
    assert value * balance == balance * value && supply * balance == balance * supply;
    MulLeCancel(p, value, supply);
    MulLeCancel(p, balance, supply);
    assert balance * (supply - value) == balance * supply - balance * value;
    assert (balance - p) * supply == balance * supply - p * supply;
  }

  /** Rounding down never leaves the pool holding more than it owes. */
  lemma PayoutKeepsShort(value: nat, balance: nat, supply: nat, p: nat)
    requires 0 < value <= supply && balance < supply && p == Payout(value, balance, supply) && p <= value
    ensures value - p <= supply - balance
  {
    PayoutRounds(value, balance, supply);
    // (value - p) * supply < value * (supply - balance) + supply <= supply * (supply - balance) + supply
    MulLe(value, supply, supply - balance);
    assert value * (supply - balance) == value * supply - value * balance;
    assert (value - p) * supply == value * supply - p * supply;
    assert (supply - balance + 1) * supply == supply * (supply - balance) + supply;
    if value - p > supply - balance {
      MulLe(supply - balance + 1, value - p, supply);
    }
  }

  /**
    A payout never exceeds the value or the balance, leaves the backing ratio no lower, and never
    leaves the pool holding more than it owes when it held less before.
  */
  lemma PayoutIsFair(value: nat, balance: nat, supply: nat)
    requires 0 < value <= supply
    ensures var p := Payout(value, balance, supply);
            && p <= value && p <= balance
            && Backing(balance, supply) <= Backing(balance - p, supply - value)
            && (balance <= supply ==> balance - p <= supply - value)
            && (balance >= supply ==> balance - p >= supply - value)
  {
    if balance < supply {
      var p := Payout(value, balance, supply);
      PayoutShare(value, balance, supply, p);
      PayoutKeepsShort(value, balance, supply, p);
      BackingLe(balance, supply, balance - p, supply - value);
    }
  }

  // ----- a whole series of withdrawals

  /** A withdrawal of `value`; `kept` when its recipient is the pool itself, so that no balance leaves. */
  datatype Payment = Payment(value: nat, kept: bool)

  /** One withdrawal turns balance `b` and supply `t` into `b'` and `t'`. */
  predicate Withdraws(b: nat, t: nat, w: Payment, b': nat, t': nat) {
    0 < w.value <= t && t' == t - w.value && b' == b - (if w.kept then 0 else Payout(w.value, b, t))
  }

  /** Successive balances and supplies of a series of withdrawals. */
  ghost predicate Series(bs: seq<nat>, ts: seq<nat>, ws: seq<Payment>) {
    && |bs| == |ts| == |ws| + 1
    && (forall i :: 0 <= i < |ws| ==> Withdraws(bs[i], ts[i], ws[i], bs[i + 1], ts[i + 1]))
  }

  /** A withdrawal the pool keeps never overshoots: its value fits under the shortfall at that moment. */
  ghost predicate KeptWithin(bs: seq<nat>, ts: seq<nat>, ws: seq<Payment>, n: nat)
    requires |bs| == |ts| == |ws| + 1 && n <= |ws|
  {
    forall i :: 0 <= i < n && ws[i].kept ==> bs[i] + ws[i].value <= ts[i]
  }

  /** What the first `n` withdrawals paid to others. */
  ghost function PaidOut(bs: seq<nat>, ts: seq<nat>, ws: seq<Payment>, n: nat): nat
    requires Series(bs, ts, ws) && n <= |ws|
  {
    if n == 0 then 0
    else
      assert Withdraws(bs[n - 1], ts[n - 1], ws[n - 1], bs[n], ts[n]);
      PaidOut(bs, ts, ws, n - 1) + if ws[n - 1].kept then 0 else Payout(ws[n - 1].value, bs[n - 1], ts[n - 1])
  }

  lemma {:induction false} PaidConserves(bs: seq<nat>, ts: seq<nat>, ws: seq<Payment>, n: nat)
    requires Series(bs, ts, ws) && n <= |ws|
    ensures bs[n] + PaidOut(bs, ts, ws, n) == bs[0]
  {
    if n > 0 {
      PaidConserves(bs, ts, ws, n - 1);
      assert Withdraws(bs[n - 1], ts[n - 1], ws[n - 1], bs[n], ts[n]);
    }
  }

  /** From a state that is not over-funded only a kept withdrawal beyond the shortfall leads to one that is. */
  lemma WithdrawsWithin(b: nat, t: nat, w: Payment, b': nat, t': nat)
    requires Withdraws(b, t, w, b', t') && b <= t
    ensures b' <= t' <==> (w.kept ==> b + w.value <= t)
  {
    PayoutIsFair(w.value, b, t);
  }

  /** An over-funded pool pays in full and stays over-funded. */
  lemma StaysOverFunded(b: nat, t: nat, w: Payment, b': nat, t': nat)
    requires Withdraws(b, t, w, b', t') && b > t
    ensures b' > t'
  {
  }

  /** After `n` withdrawals the pool is not over-funded exactly if each kept one fitted under the shortfall. */
  lemma {:induction false} NeverOverFunded(bs: seq<nat>, ts: seq<nat>, ws: seq<Payment>, n: nat)
    requires Series(bs, ts, ws) && bs[0] <= ts[0] && n <= |ws|
    ensures bs[n] <= ts[n] <==> KeptWithin(bs, ts, ws, n)
  {
    if n > 0 {
      var i := n - 1;
      NeverOverFunded(bs, ts, ws, i);
      if bs[i] <= ts[i] {
        WithdrawsWithin(bs[i], ts[i], ws[i], bs[n], ts[n]);
        assert KeptWithin(bs, ts, ws, n) <==> (ws[i].kept ==> bs[i] + ws[i].value <= ts[i]);
      } else {
        StaysOverFunded(bs[i], ts[i], ws[i], bs[n], ts[n]);
      }
    }
  }

  /** Whatever the starting ratio was, a withdrawal leaves it no lower. */
  lemma ShareKept(b0: nat, t0: nat, b: nat, t: nat, w: Payment, b': nat, t': nat)
    requires b0 <= t0 && b0 * t <= b * t0 && Withdraws(b, t, w, b', t')
    ensures b0 * t' <= b' * t0
  {
    MulLe(t', t, b0);
    if w.kept {
      assert b' * t0 == b * t0;
    } else if b < t {
      PayoutShare(w.value, b, t, Payout(w.value, b, t));
      RatioTransitive(b0, t0, b, t, b', t');
    } else {
      MulLe(t', b', t0);
      MulLe(b0, t0, t');
    }
  }

  lemma {:induction false} RatioNeverDrops(bs: seq<nat>, ts: seq<nat>, ws: seq<Payment>, n: nat)
    requires Series(bs, ts, ws) && bs[0] <= ts[0] && n <= |ws|
    ensures ts[n] <= ts[0] && bs[0] * ts[n] <= bs[n] * ts[0]
  {
    if n > 0 {
      RatioNeverDrops(bs, ts, ws, n - 1);
      ShareKept(bs[0], ts[0], bs[n - 1], ts[n - 1], ws[n - 1], bs[n], ts[n]);
    }
  }

  /** Backing never drops along the way, so each withdrawal gets at least its share at the start. */
  lemma EachGetsItsShare(bs: seq<nat>, ts: seq<nat>, ws: seq<Payment>, i: nat)
    requires Series(bs, ts, ws) && bs[0] <= ts[0] && i < |ws|
    ensures ts[0] > 0 && Payout(ws[i].value, bs[i], ts[i]) >= ws[i].value * bs[0] / ts[0]
  {
    RatioNeverDrops(bs, ts, ws, i);
    assert Withdraws(bs[i], ts[i], ws[i], bs[i + 1], ts[i + 1]);
    ShareAtLeast(ws[i].value, bs[0], ts[0], bs[i], ts[i]);
  }

  lemma ShareAtLeast(value: nat, balance0: nat, supply0: nat, balance: nat, supply: nat)
    requires 0 < value <= supply && balance0 <= supply0 && 0 < supply0
    requires balance0 * supply <= balance * supply0
    ensures Payout(value, balance, supply) >= value * balance0 / supply0
  {
    var n := value * balance0;
    DivRounds(n, supply0);
    PayoutCovers(n / supply0, value, balance0, supply0, balance, supply);
  }

  /** A payout covers any whole number of units within the value's share of the starting balance. */
  lemma PayoutCovers(q: nat, value: nat, balance0: nat, supply0: nat, balance: nat, supply: nat)
    requires 0 < value <= supply && balance0 <= supply0 && 0 < supply0
    requires balance0 * supply <= balance * supply0 && q * supply0 <= value * balance0
    ensures Payout(value, balance, supply) >= q
  {
    if balance >= supply {
      MulLe(balance0, supply0, value);
      MulLeCancel(q, value, supply0);
    } else {
      RatioTransitive(q, value, balance0, supply0, balance, supply);
      MulLeQuotient(q, value * balance, supply);
    }
  }

  lemma MulLeQuotient(q: nat, n: nat, d: nat)
    requires d > 0 && q * d <= n
    ensures q <= n / d
  {
    DivRounds(n, d);
    if q > n / d {
      MulLe(n / d + 1, q, d);
    }
  }

  /** a/b <= c/d and c/d <= e/f give a/b <= e/f, cross-multiplied. */
  lemma RatioTransitive(a: nat, b: nat, c: nat, d: nat, e: nat, f: nat)
    requires d > 0 && a * d <= c * b && c * f <= e * d
    ensures a * f <= e * b
  {
    MulLe(a * d, c * b, f);
    MulLe(c * f, e * d, b);
    assert (a * f) * d == (a * d) * f;
    assert (c * b) * f == (c * f) * b;
    assert (e * d) * b == (e * b) * d;
    MulLeCancel(a * f, e * b, d);
  }

  /**
    Any order and split of withdrawals that exhausts the supply pays out exactly the starting balance,
    with the pool never over-funded on the way, if and only if each withdrawal the pool kept fitted
    under the shortfall at that moment. Each withdrawal gets at least its share of that balance anyway.
  */
  lemma ExhaustingWithdrawalsPayTheBalance(bs: seq<nat>, ts: seq<nat>, ws: seq<Payment>)
    requires Series(bs, ts, ws) && bs[0] <= ts[0] && ts[|ws|] == 0
    ensures PaidOut(bs, ts, ws, |ws|) == bs[0] <==> KeptWithin(bs, ts, ws, |ws|)
    ensures (forall k :: 0 <= k <= |ws| ==> bs[k] <= ts[k]) <==> KeptWithin(bs, ts, ws, |ws|)
    ensures forall i :: 0 <= i < |ws| ==>
              ts[0] > 0 && Payout(ws[i].value, bs[i], ts[i]) >= ws[i].value * bs[0] / ts[0]
  {
    PaidConserves(bs, ts, ws, |ws|);
    forall k | 0 <= k <= |ws|
      ensures bs[k] <= ts[k] <==> KeptWithin(bs, ts, ws, k)
    {
      NeverOverFunded(bs, ts, ws, k);
    }
    forall i | 0 <= i < |ws|
      ensures ts[0] > 0 && Payout(ws[i].value, bs[i], ts[i]) >= ws[i].value * bs[0] / ts[0]
    {
      EachGetsItsShare(bs, ts, ws, i);
    }
  }
}
