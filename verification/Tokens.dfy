/** SEP-41 balances of every asset, as the contracts see them through `transfer` and `balance`. */
module Tokens {
  import opened Wrappers
  import opened Notes

  /** Balances by (asset, holder); a missing entry is zero. */
  type Bank = map<(Address, Address), nat>

  function BalanceOf(b: Bank, asset: Address, who: Address): nat {
    if (asset, who) in b then b[(asset, who)] else 0
  }

  /** A `transfer`; `None` when the payer lacks the funds and the host traps. */
  function Pay(b: Bank, asset: Address, payer: Address, payee: Address, amount: nat): Option<Bank> {
    if BalanceOf(b, asset, payer) < amount then None
    else
      var debited := b[(asset, payer) := BalanceOf(b, asset, payer) - amount];
      Some(debited[(asset, payee) := BalanceOf(debited, asset, payee) + amount])
  }

  /** A transfer moves exactly `amount` and touches no other balance. */
  lemma PayMoves(b: Bank, asset: Address, payer: Address, payee: Address, amount: nat, a: Address, who: Address)
    requires Pay(b, asset, payer, payee, amount).Some?
    ensures BalanceOf(Pay(b, asset, payer, payee, amount).value, a, who)
         == BalanceOf(b, a, who)
            - (if a == asset && who == payer then amount else 0)
            + (if a == asset && who == payee then amount else 0)
  {
  }

  class TokenContracts {
    var balances: Bank

    constructor (balances: Bank)
      ensures this.balances == balances
    {
      this.balances := balances;
    }

    method Transfer(asset: Address, payer: Address, payee: Address, amount: nat) returns (ok: bool)
      modifies this
      ensures ok == Pay(old(balances), asset, payer, payee, amount).Some?
      ensures balances == if ok then Pay(old(balances), asset, payer, payee, amount).value else old(balances)
    {
      var funds := BalanceOf(balances, asset, payer);
      ok := amount <= funds;
      if ok {
        balances := balances[(asset, payer) := funds - amount];
        balances := balances[(asset, payee) := BalanceOf(balances, asset, payee) + amount];
      }
    }
  }
}
