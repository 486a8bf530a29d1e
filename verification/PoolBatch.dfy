/** Shielding a batch in one call does what shielding its items one call at a time would do. */
module PoolBatch {
  import opened Wrappers
  import opened NoteTrees
  import opened Notes
  import opened Tokens
  import opened PoolSpec
  import opened PoolConservation

  /** One `shield` call per item, all or nothing, with the index each call returned. */
  function ShieldEach(s: Pool, auth: set<Address>, payer: Address, asset: Address, items: seq<ShieldItem>)
    : Result<(Pool, seq<nat>), Error>
    decreases |items|
  {
    if items == [] then Ok((s, []))
    else
      var (s', index) :- Shield(s, auth, payer, asset, items[0]);
      var (s'', indices) :- ShieldEach(s', auth, payer, asset, items[1..]);
      Ok((s'', [index] + indices))
  }

  function Total(items: seq<ShieldItem>): int {
    if items == [] then 0 else items[0].amount + Total(items[1..])
  }

  /** Every item passes its checks, later items seeing the commitments of earlier ones. */
  predicate ItemsPass(minShield: int, seen: set<Field>, asset: Address, items: seq<ShieldItem>)
    decreases |items|
  {
    items == []
    || (&& CheckItem(minShield, seen, asset, items[0]).Pass?
        && ItemsPass(minShield, seen + {items[0].commitment}, asset, items[1..]))
  }

  lemma {:induction false} TotalPositive(minShield: int, seen: set<Field>, asset: Address, items: seq<ShieldItem>)
    requires ItemsPass(minShield, seen, asset, items)
    ensures items != [] ==> Total(items) > 0
    decreases |items|
  {
    if items != [] {
      TotalPositive(minShield, seen + {items[0].commitment}, asset, items[1..]);
    }
  }

  lemma CommitmentsOfCons(items: seq<ShieldItem>)
    requires items != []
    ensures CommitmentsOf(items) == [items[0].commitment] + CommitmentsOf(items[1..])
    ensures SeqSet(CommitmentsOf(items)) == {items[0].commitment} + SeqSet(CommitmentsOf(items[1..]))
  {
    var tail := CommitmentsOf(items[1..]);
    assert CommitmentsOf(items) == [items[0].commitment] + tail;
    assert forall x :: x in CommitmentsOf(items) <==> x == items[0].commitment || x in tail;
  }

  lemma {:induction false} CheckBatchPasses(
      minShield: int, seen: set<Field>, total: nat, asset: Address, items: seq<ShieldItem>)
    requires total <= I128_MAX
    ensures var r := CheckBatch(minShield, seen, total, asset, items);
            && (r.Ok? <==> ItemsPass(minShield, seen, asset, items) && total + Total(items) <= I128_MAX)
            && (r.Ok? ==> r.value == (seen + SeqSet(CommitmentsOf(items)), total + Total(items)))
    decreases |items|
  {
    if items == [] {
      assert seen + SeqSet(CommitmentsOf(items)) == seen;
    } else if CheckItem(minShield, seen, asset, items[0]).Pass? {
      CommitmentsOfCons(items);
      var seen' := seen + {items[0].commitment};
      if ItemsPass(minShield, seen', asset, items[1..]) {
        TotalPositive(minShield, seen', asset, items[1..]);
      }
      if total + items[0].amount <= I128_MAX {
        CheckBatchPasses(minShield, seen', total + items[0].amount, asset, items[1..]);
        assert seen + SeqSet(CommitmentsOf(items)) == seen' + SeqSet(CommitmentsOf(items[1..]));
      }
    }
  }

  lemma PayTwice(b: Bank, asset: Address, payer: Address, payee: Address, x: nat, y: nat)
    requires payer != payee && Pay(b, asset, payer, payee, x).Some?
    ensures Pay(Pay(b, asset, payer, payee, x).value, asset, payer, payee, y) == Pay(b, asset, payer, payee, x + y)
  {
    if x + y <= BalanceOf(b, asset, payer) {
      var b1 := Pay(b, asset, payer, payee, x).value;
      assert Pay(b1, asset, payer, payee, y).value == Pay(b, asset, payer, payee, x + y).value;
    }
  }

  /** A state credited with `total`: new commitments, more supply, and the balances and log given. */
  function Credited(s: Pool, asset: Address, commitments: set<Field>, total: nat, bank: Bank, log: Log<Field>): Pool {
    s.(log := log,
       seen := s.seen + commitments,
       supply := s.supply[asset := s.Supply(asset) + total],
       bank := bank)
  }

  lemma CreditedTwice(s: Pool, asset: Address, c1: set<Field>, x: nat, bank1: Bank, log1: Log<Field>,
                      c2: set<Field>, y: nat, bank2: Bank, log2: Log<Field>, c: set<Field>, total: nat)
    requires c == c1 + c2 && total == x + y
    ensures Credited(Credited(s, asset, c1, x, bank1, log1), asset, c2, y, bank2, log2)
         == Credited(s, asset, c, total, bank2, log2)
  {
    var s1 := Credited(s, asset, c1, x, bank1, log1);
    assert s1.seen + c2 == s.seen + c;
    assert s1.supply[asset := s1.Supply(asset) + y] == s.supply[asset := s.Supply(asset) + total];
  }

  /** What depositing `items` makes of a state, apart from how the log records the calls. */
  function Deposited(s: Pool, payer: Address, asset: Address, items: seq<ShieldItem>, log: Log<Field>): Pool
    requires 0 <= Total(items) <= BalanceOf(s.bank, asset, payer)
  {
    Credited(s, asset, SeqSet(CommitmentsOf(items)), Total(items),
             Pay(s.bank, asset, payer, s.self, Total(items)).value, log)
  }

  predicate BatchFits(s: Pool, payer: Address, asset: Address, items: seq<ShieldItem>) {
    && ItemsPass(s.minShield, s.seen, asset, items)
    && s.log.HasCapacity(|items|)
    && s.Supply(asset) + Total(items) <= I128_MAX
    && Total(items) <= BalanceOf(s.bank, asset, payer)
  }

  lemma SingleItem(item: ShieldItem)
    ensures CommitmentsOf([item]) == [item.commitment]
    ensures SeqSet(CommitmentsOf([item])) == {item.commitment}
    ensures Total([item]) == item.amount
  {
    assert Total([item][1..]) == 0;
  }

  lemma ShieldOneResult(s: Pool, auth: set<Address>, payer: Address, asset: Address, item: ShieldItem)
    requires payer in auth && !s.paused && asset in s.approved
    ensures Shield(s, auth, payer, asset, item).Ok? <==> BatchFits(s, payer, asset, [item])
    ensures BatchFits(s, payer, asset, [item]) ==>
              && item.amount > 0
              && Shield(s, auth, payer, asset, item).value
                 == (Deposited(s, payer, asset, [item], s.log.Insert([item.commitment])), |s.log.leaves|)
  {
    SingleItem(item);
    assert [item][1..] == [];
    assert ItemsPass(s.minShield, s.seen, asset, [item]) <==> CheckItem(s.minShield, s.seen, asset, item).Pass?;
    if CheckItem(s.minShield, s.seen, asset, item).Pass? {
      assert Shield(s, auth, payer, asset, item).Ok? <==>
        s.log.HasCapacity(1) && s.Supply(asset) + item.amount <= I128_MAX && item.amount <= BalanceOf(s.bank, asset, payer);
    }
  }

  lemma FitsCompose(s: Pool, payer: Address, asset: Address, items: seq<ShieldItem>, log1: Log<Field>)
    requires payer != s.self && |items| > 1
    requires BatchFits(s, payer, asset, [items[0]]) && 0 <= Total([items[0]])
    requires log1.leaves == s.log.leaves + [items[0].commitment]
    requires ItemsPass(s.minShield, s.seen + {items[0].commitment}, asset, items[1..])
    ensures 0 < Total(items[1..]) < Total(items)
    ensures BatchFits(Deposited(s, payer, asset, [items[0]], log1), payer, asset, items[1..])
       <==> BatchFits(s, payer, asset, items)
  {
    SingleItem(items[0]);
    TotalPositive(s.minShield, s.seen + {items[0].commitment}, asset, items[1..]);
    PayMoves(s.bank, asset, payer, s.self, items[0].amount, asset, payer);
    assert CheckItem(s.minShield, s.seen, asset, items[0]).Pass? by {
      assert ItemsPass(s.minShield, s.seen, asset, [items[0]]);
    }
  }

  lemma PaysTogether(b: Bank, asset: Address, payer: Address, payee: Address, x: nat, y: nat, total: nat, b1: Bank)
    requires payer != payee && total == x + y <= BalanceOf(b, asset, payer) && Pay(b, asset, payer, payee, x) == Some(b1)
    ensures y <= BalanceOf(b1, asset, payer)
    ensures Pay(b1, asset, payer, payee, y) == Pay(b, asset, payer, payee, total)
  {
    PayMoves(b, asset, payer, payee, x, asset, payer);
    PayTwice(b, asset, payer, payee, x, y);
  }

  /** Two deposits are one deposit of what they add up to. */
  lemma DepositedTwice(s: Pool, payer: Address, asset: Address, xs: seq<ShieldItem>, ys: seq<ShieldItem>,
                       all: seq<ShieldItem>, log1: Log<Field>, log2: Log<Field>)
    requires payer != s.self && 0 <= Total(xs) && 0 <= Total(ys)
    requires Total(all) == Total(xs) + Total(ys) <= BalanceOf(s.bank, asset, payer)
    requires SeqSet(CommitmentsOf(all)) == SeqSet(CommitmentsOf(xs)) + SeqSet(CommitmentsOf(ys))
    ensures var s' := Deposited(s, payer, asset, xs, log1);
            && Total(ys) <= BalanceOf(s'.bank, asset, payer)
            && Deposited(s', payer, asset, ys, log2) == Deposited(s, payer, asset, all, log2)
  {
    var x, y, total := Total(xs), Total(ys), Total(all);
    var b1, b2 := Pay(s.bank, asset, payer, s.self, x).value, Pay(s.bank, asset, payer, s.self, total).value;
    PaysTogether(s.bank, asset, payer, s.self, x, y, total, b1);
    CreditedTwice(s, asset, SeqSet(CommitmentsOf(xs)), x, b1, log1, SeqSet(CommitmentsOf(ys)), y, b2, log2,
                  SeqSet(CommitmentsOf(all)), total);
  }

  /** Depositing a first item and then the rest is depositing them all. */
  lemma DepositsCompose(s: Pool, payer: Address, asset: Address, items: seq<ShieldItem>, log1: Log<Field>, log2: Log<Field>)
    requires payer != s.self && |items| > 1
    requires 0 <= items[0].amount && 0 <= Total(items[1..]) && Total(items) <= BalanceOf(s.bank, asset, payer)
    requires Total([items[0]]) == items[0].amount
    ensures var s' := Deposited(s, payer, asset, [items[0]], log1);
            && Total(items[1..]) <= BalanceOf(s'.bank, asset, payer)
            && Deposited(s', payer, asset, items[1..], log2) == Deposited(s, payer, asset, items, log2)
  {
    SingleItem(items[0]);
    CommitmentsOfCons(items);
    DepositedTwice(s, payer, asset, [items[0]], items[1..], items, log1, log2);
  }

  lemma IndicesCons(first: nat, count: nat)
    requires count > 0
    ensures Indices(first, count) == [first] + Indices(first + 1, count - 1)
  {
  }

  lemma {:induction false} ShieldEachResult(
      s: Pool, auth: set<Address>, payer: Address, asset: Address, items: seq<ShieldItem>)
    requires payer in auth && !s.paused && asset in s.approved && payer != s.self && items != []
    ensures ShieldEach(s, auth, payer, asset, items).Ok? <==> BatchFits(s, payer, asset, items)
    ensures BatchFits(s, payer, asset, items) ==>
              && Total(items) >= 0
              && ShieldEach(s, auth, payer, asset, items).value
                 == (Deposited(s, payer, asset, items, InsertEach(s.log, CommitmentsOf(items))),
                     Indices(|s.log.leaves|, |items|))
    decreases |items|
  {
    var rest := items[1..];
    ShieldOneResult(s, auth, payer, asset, items[0]);
    SingleItem(items[0]);
    CommitmentsOfCons(items);
    assert CommitmentsOf(items)[1..] == CommitmentsOf(rest);
    if |items| == 1 {
      assert items == [items[0]];
      if BatchFits(s, payer, asset, items) {
        ShieldEachStep(s, auth, payer, asset, items, Shield(s, auth, payer, asset, items[0]).value.0);
      }
    } else if BatchFits(s, payer, asset, [items[0]]) {
      var log' := s.log.Insert([items[0].commitment]);
      var s' := Deposited(s, payer, asset, [items[0]], log');
      ShieldEachResult(s', auth, payer, asset, rest);
      if ItemsPass(s.minShield, s.seen + {items[0].commitment}, asset, rest) {
        FitsCompose(s, payer, asset, items, log');
        if BatchFits(s, payer, asset, items) {
          ShieldEachStep(s, auth, payer, asset, items, s');
          DepositsCompose(s, payer, asset, items, log', InsertEach(s.log, CommitmentsOf(items)));
        }
      }
    } else if ItemsPass(s.minShield, s.seen, asset, items) {
      TotalPositive(s.minShield, s.seen + {items[0].commitment}, asset, rest);
    }
  }

  /** The first call and then the rest. */
  lemma ShieldEachStep(s: Pool, auth: set<Address>, payer: Address, asset: Address, items: seq<ShieldItem>, s': Pool)
    requires items != [] && Shield(s, auth, payer, asset, items[0]) == Ok((s', |s.log.leaves|))
    requires ShieldEach(s', auth, payer, asset, items[1..]).Ok?
    requires ShieldEach(s', auth, payer, asset, items[1..]).value.1 == Indices(|s.log.leaves| + 1, |items| - 1)
    ensures ShieldEach(s, auth, payer, asset, items)
         == Ok((ShieldEach(s', auth, payer, asset, items[1..]).value.0, Indices(|s.log.leaves|, |items|)))
  {
    IndicesCons(|s.log.leaves|, |items|);
  }

  lemma BatchSettles(s: Pool, payer: Address, asset: Address, items: seq<ShieldItem>)
    requires Total(items) >= 0
    ensures var cs := CommitmentsOf(items);
            var r := SettleDeposit(s, payer, asset, cs, s.seen + SeqSet(cs), Total(items));
            && (r.Ok? <==>
                  s.Supply(asset) + Total(items) <= I128_MAX && Total(items) <= BalanceOf(s.bank, asset, payer))
            && (r.Ok? ==> r.value == Deposited(s, payer, asset, items, s.log.Insert(cs)))
  {
  }

  lemma ShieldBatchResult(s: Pool, auth: set<Address>, payer: Address, asset: Address, items: seq<ShieldItem>)
    requires payer in auth && !s.paused && asset in s.approved && 1 <= |items| <= MAX_SHIELD_BATCH
    ensures ShieldBatch(s, auth, payer, asset, items).Ok? <==> BatchFits(s, payer, asset, items)
    ensures BatchFits(s, payer, asset, items) ==>
              && Total(items) >= 0
              && ShieldBatch(s, auth, payer, asset, items).value
                 == (Deposited(s, payer, asset, items, s.log.Insert(CommitmentsOf(items))),
                     Indices(|s.log.leaves|, |items|))
  {
    CheckBatchPasses(s.minShield, s.seen, 0, asset, items);
    if ItemsPass(s.minShield, s.seen, asset, items) {
      TotalPositive(s.minShield, s.seen, asset, items);
      BatchSettles(s, payer, asset, items);
    }
  }

  /**
    A batch of 1..8 items succeeds exactly when one call per item would, and leaves the same leaves
    (so the same stored tree and root), commitments, supplies and balances; only the record of
    which roots were current along the way differs.
  */
  lemma BatchIsOneByOne(s: Pool, auth: set<Address>, payer: Address, asset: Address, items: seq<ShieldItem>)
    requires s.log.Valid() && s.self !in auth && 1 <= |items| <= MAX_SHIELD_BATCH
    ensures ShieldBatch(s, auth, payer, asset, items).Ok? <==> ShieldEach(s, auth, payer, asset, items).Ok?
    ensures ShieldBatch(s, auth, payer, asset, items).Ok? ==>
              var (batch, indices) := ShieldBatch(s, auth, payer, asset, items).value;
              var (each, eachIndices) := ShieldEach(s, auth, payer, asset, items).value;
              && batch == each.(log := batch.log)
              && batch.log.leaves == each.log.leaves
              && indices == eachIndices == Indices(|s.log.leaves|, |items|)
  {
    if payer in auth && !s.paused && asset in s.approved {
      ShieldEachResult(s, auth, payer, asset, items);
      ShieldBatchResult(s, auth, payer, asset, items);
      if BatchFits(s, payer, asset, items) {
        InsertEachLeaves(s.log, CommitmentsOf(items));
      }
    }
  }

  // ----- the batch keeps the pool's invariant because single shields do

  lemma {:induction false} ShieldEachKeepsInv(
      s: Pool, auth: set<Address>, payer: Address, asset: Address, items: seq<ShieldItem>)
    requires Inv(s) && ShieldEach(s, auth, payer, asset, items).Ok?
    ensures Inv(ShieldEach(s, auth, payer, asset, items).value.0)
    decreases |items|
  {
    if items != [] {
      ShieldKeepsInv(s, auth, payer, asset, items[0]);
      ShieldEachKeepsInv(Shield(s, auth, payer, asset, items[0]).value.0, auth, payer, asset, items[1..]);
    }
  }

  lemma InvIgnoresSizes(s: Pool, log: Log<Field>)
    requires Inv(s) && log.Valid() && log.leaves == s.log.leaves
    ensures Inv(s.(log := log))
  {
    var s' := s.(log := log);
    forall a
      ensures SupplyMatches(s', a)
    {
      assert SupplyMatches(s, a);
    }
  }

  lemma ShieldBatchKeepsInv(s: Pool, auth: set<Address>, payer: Address, asset: Address, items: seq<ShieldItem>)
    requires Inv(s) && s.self !in auth && ShieldBatch(s, auth, payer, asset, items).Ok?
    ensures Inv(ShieldBatch(s, auth, payer, asset, items).value.0)
  {
    BatchIsOneByOne(s, auth, payer, asset, items);
    ShieldEachKeepsInv(s, auth, payer, asset, items);
    var batch := ShieldBatch(s, auth, payer, asset, items).value.0;
    InvIgnoresSizes(ShieldEach(s, auth, payer, asset, items).value.0, batch.log);
  }
}
