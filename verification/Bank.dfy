/** Balances and supply, as the market module uses the bank: send, burn and mint single coins. */
module Bank {
  import opened Orders
  import opened Outcome

  /** Balances by denom and account, and the total supply by denom. */
  datatype Bank = Bank(balances: map<string, map<string, int>>, supply: map<string, int>)

  function Book(b: Bank, d: string): map<string, int> {
    if d in b.balances then b.balances[d] else map[]
  }

  function BalanceOf(b: Bank, account: string, d: string): int {
    if account in Book(b, d) then Book(b, d)[account] else 0
  }

  function SupplyOf(b: Bank, d: string): int {
    if d in b.supply then b.supply[d] else 0
  }

  function Credit(b: Bank, account: string, d: string, amount: int): Bank {
    b.(balances := b.balances[d := Book(b, d)[account := BalanceOf(b, account, d) + amount]])
  }

  function Send(b: Bank, from: string, to: string, d: string, amount: nat): Option<Bank> {
    if BalanceOf(b, from, d) < amount then None
    else Some(Credit(Credit(b, from, d, 0 - amount), to, d, amount))
  }

  function Burn(b: Bank, account: string, d: string, amount: nat): Option<Bank> {
    if BalanceOf(b, account, d) < amount then None
    else Some(Credit(b, account, d, 0 - amount).(supply := b.supply[d := SupplyOf(b, d) - amount]))
  }

  function Mint(b: Bank, account: string, d: string, amount: nat): Bank {
    Credit(b, account, d, amount).(supply := b.supply[d := SupplyOf(b, d) + amount])
  }

  function AmountIn(book: map<string, int>): string -> int {
    (account: string) => if account in book then book[account] else 0
  }

  /** All that is held of a denom. */
  ghost function Held(b: Bank, d: string): int {
    SumSet(Book(b, d).Keys, AmountIn(Book(b, d)))
  }

  /** Nobody owes anything, and what is held is what was issued. */
  ghost predicate Sound(b: Bank) {
    && (forall a, d :: BalanceOf(b, a, d) >= 0)
    && (forall d :: SupplyOf(b, d) == Held(b, d))
  }

  lemma CreditBalance(b: Bank, account: string, d: string, amount: int, a: string, e: string)
    ensures BalanceOf(Credit(b, account, d, amount), a, e) ==
            BalanceOf(b, a, e) + (if a == account && e == d then amount else 0)
  {
  }

  lemma CreditHeld(b: Bank, account: string, d: string, amount: int, e: string)
    ensures Held(Credit(b, account, d, amount), e) == Held(b, e) + (if e == d then amount else 0)
  {
    if e == d {
      var book, book' := Book(b, d), Book(Credit(b, account, d, amount), d);
      var others := book.Keys - {account};
      SumSetEqual(others, AmountIn(book), AmountIn(book'));
      assert book'.Keys == others + {account};
      SumSetAdd(others, account, AmountIn(book'));
      if account in book {
        SumSetRemove(book.Keys, account, AmountIn(book));
      } else {
        assert others == book.Keys;
      }
    }
  }

  lemma CreditSupply(b: Bank, account: string, d: string, amount: int)
    ensures Credit(b, account, d, amount).supply == b.supply
  {
  }

  lemma HeldIgnoresSupply(b: Bank, account: string, d: string, amount: int, total: int, a: string, e: string)
    ensures var c := Credit(b, account, d, amount);
            var c' := c.(supply := b.supply[d := total]);
            BalanceOf(c', a, e) == BalanceOf(c, a, e) && Held(c', e) == Held(c, e)
  {
  }

  lemma SendMoves(b: Bank, from: string, to: string, d: string, amount: nat, a: string, e: string)
    requires Send(b, from, to, d, amount).Some?
    ensures var b' := Send(b, from, to, d, amount).value;
            && BalanceOf(b', a, e) == BalanceOf(b, a, e)
                 + (if a == to && e == d then amount else 0) - (if a == from && e == d then amount else 0)
            && SupplyOf(b', e) == SupplyOf(b, e) && Held(b', e) == Held(b, e)
  {
    hide Credit, BalanceOf, Held;
    var b1 := Credit(b, from, d, 0 - amount);
    CreditSupply(b, from, d, 0 - amount);
    CreditSupply(b1, to, d, amount);
    CreditBalance(b, from, d, 0 - amount, a, e);
    CreditBalance(b1, to, d, amount, a, e);
    CreditHeld(b, from, d, 0 - amount, e);
    CreditHeld(b1, to, d, amount, e);
  }

  lemma BurnDestroys(b: Bank, account: string, d: string, amount: nat, a: string, e: string)
    requires Burn(b, account, d, amount).Some?
    ensures var b' := Burn(b, account, d, amount).value;
            && BalanceOf(b', a, e) == BalanceOf(b, a, e) - (if a == account && e == d then amount else 0)
            && SupplyOf(b', e) == SupplyOf(b, e) - (if e == d then amount else 0)
            && Held(b', e) == Held(b, e) - (if e == d then amount else 0)
  {
    hide Credit, BalanceOf, Held;
    HeldIgnoresSupply(b, account, d, 0 - amount, SupplyOf(b, d) - amount, a, e);
    CreditSupply(b, account, d, 0 - amount);
    CreditBalance(b, account, d, 0 - amount, a, e);
    CreditHeld(b, account, d, 0 - amount, e);
  }

  lemma MintCreates(b: Bank, account: string, d: string, amount: nat, a: string, e: string)
    ensures var b' := Mint(b, account, d, amount);
            && BalanceOf(b', a, e) == BalanceOf(b, a, e) + (if a == account && e == d then amount else 0)
            && SupplyOf(b', e) == SupplyOf(b, e) + (if e == d then amount else 0)
            && Held(b', e) == Held(b, e) + (if e == d then amount else 0)
  {
    hide Credit, BalanceOf, Held;
    HeldIgnoresSupply(b, account, d, amount, SupplyOf(b, d) + amount, a, e);
    CreditSupply(b, account, d, amount);
    CreditBalance(b, account, d, amount, a, e);
    CreditHeld(b, account, d, amount, e);
  }
}
