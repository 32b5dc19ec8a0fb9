/**
 * What the aperture export is worth (app/export/aperture/contract_export_aperture_vaults.go): whatever the
 * schedule of the workers, each holder is credited the sum over its open positions, in one denom only.
 */
module ApertureLaws {
  import opened Orders
  import opened Outcome
  import opened Snapshot
  import opened Aperture
  import opened ApertureOrder

  /** All the contract answers for the first `n` positions. */
  function Answers(p: Pool, n: nat): seq<Item> {
    if n == 0 then [] else Answers(p, n - 1) + p.respond(n - 1)
  }

  function WhenOpen(f: Item -> int): Item -> int {
    (i: Item) => if i.closeHeight == 0 then f(i) else 0
  }

  lemma OpenSum(answer: seq<Item>, f: Item -> int)
    ensures SumBy(FlatMap(answer, OpenOnly()), f) == SumBy(answer, WhenOpen(f))
  {
    SumByFlatMap(answer, OpenOnly(), f, WhenOpen(f));
  }

  lemma OpenItemsSum(p: Pool, j: nat, f: Item -> int)
    ensures SumBy(OpenItems(p)(j), f) == SumBy(p.respond(j), WhenOpen(f))
  {
    OpenSum(p.respond(j), f);
  }

  lemma {:induction false} FirstItemsSum(p: Pool, n: nat, f: Item -> int)
    requires n <= p.positions
    ensures SumBy(FirstItems(p, n), f) == SumBy(Answers(p, n), WhenOpen(f))
  {
    hide FirstItems, OpenItems, WhenOpen, SumBy;
    if n == 0 {
      NoItems(p, f);
    } else {
      FirstItemsSum(p, n - 1, f);
      FirstItemsNext(p, n - 1);
      SumByAppend(FirstItems(p, n - 1), OpenItems(p)(n - 1), f);
      SumByAppend(Answers(p, n - 1), p.respond(n - 1), WhenOpen(f));
      OpenItemsSum(p, n - 1, f);
    }
  }

  lemma NoItems(p: Pool, f: Item -> int)
    ensures SumBy(FirstItems(p, 0), f) == 0 && SumBy(Answers(p, 0), WhenOpen(f)) == 0
  {
    assert Positions(p)[..0] == [];
  }

  /** Whatever is summed over the results is summed over the answers about open positions. */
  lemma ResultsSum(p: Pool, choices: seq<Choice>, f: Item -> int)
    requires p.workers > 0 && Complete(p, choices)
    ensures SumBy(After(p, choices).value.items, f) == SumBy(Answers(p, p.positions), WhenOpen(f))
  {
    hide After, Finished, Answers;
    FinishedHasAll(p, choices);
    SumByPermutation(After(p, choices).value.items, AllItems(p), f);
    FirstItemsAll(p);
    FirstItemsSum(p, p.positions, f);
  }

  function IsItem(i: Item): Item -> int {
    (k: Item) => if k == i then 1 else 0
  }

  /** An item is sent as often as the contract answers it, if the position is open, and else never. */
  lemma SentAsOften(p: Pool, choices: seq<Choice>, i: Item)
    requires p.workers > 0 && Complete(p, choices)
    ensures SumBy(After(p, choices).value.items, IsItem(i)) ==
            if i.closeHeight == 0 then SumBy(Answers(p, p.positions), IsItem(i)) else 0
  {
    hide After, Finished, Answers;
    ResultsSum(p, choices, IsItem(i));
    if i.closeHeight == 0 {
      SumByEqual(Answers(p, p.positions), WhenOpen(IsItem(i)), IsItem(i));
    } else {
      SumByZero(Answers(p, p.positions), WhenOpen(IsItem(i)));
    }
  }

  /** What one item adds to a holder: the aUST it put up before the attack, its worth in UST after it. */
  function Adds(h: string, preAttack: bool, d: string): Item -> int {
    (i: Item) =>
      if i.holder != h then 0
      else if preAttack && d == "aUST" && i.aUst.Some? then i.aUst.value
      else if !preAttack && d == "uusd" && i.ust.Some? then i.ust.value
      else 0
  }

  lemma CreditedSum(items: seq<Item>, h: string, preAttack: bool, d: string)
    ensures Holding(EntriesAt(Credited(items, preAttack), h), d) == SumBy(items, Adds(h, preAttack, d))
  {
    hide AbsorbAll;
    var credits := FlatMap(items, CreditsOf(h, preAttack));
    forall i | i in items ensures Adds(h, preAttack, d)(i) == SumBy(CreditsOf(h, preAttack)(i), AmountIn(d)) {
      assert "aUST" != "uusd";
    }
    SumByFlatMap(items, CreditsOf(h, preAttack), AmountIn(d), Adds(h, preAttack, d));
    if h in Holders(items) {
      AbsorbAllHolding([], credits, d);
    } else {
      NoCredits(items, h, preAttack);
    }
  }

  /** In every denom each holder is credited the sum over the answers about its open positions, for every schedule. */
  lemma HolderIsCredited(p: Pool, choices: seq<Choice>, h: string, preAttack: bool, d: string)
    requires p.workers > 0 && Complete(p, choices)
    ensures Holding(EntriesAt(Credited(After(p, choices).value.items, preAttack), h), d) ==
            SumBy(Answers(p, p.positions), WhenOpen(Adds(h, preAttack, d)))
  {
    hide After, Finished, Answers;
    CreditedSum(After(p, choices).value.items, h, preAttack, d);
    ResultsSum(p, choices, Adds(h, preAttack, d));
  }
}
