/**
 * Prices of denoms, and what the export does to the value of a snapshot at any prices that agree with
 * the exchange rates: nothing but the added holders can raise it (app/export/contract_export.go).
 */
module Value {
  import opened Orders
  import opened Outcome
  import opened Snapshot
  import SM = SnapshotMap
  import opened Denoms
  import opened Resolve
  import opened Pipeline
  import Dec

  type Prices = string -> int

  function WorthOf(w: Prices): Entry -> int {
    (e: Entry) => w(e.denom) * ValueOf(e)
  }

  function Worth(es: seq<Entry>, w: Prices): int {
    SumBy(es, WorthOf(w))
  }

  function WorthAt(m: Ledger, w: Prices): string -> int {
    (a: string) => Worth(EntriesAt(m, a), w)
  }

  ghost function Value(m: Ledger, w: Prices): int {
    SumSet(m.Keys, WorthAt(m, w))
  }

  ghost predicate NoDebts(es: seq<Entry>) {
    forall e :: e in es ==> ValueOf(e) >= 0
  }

  ghost predicate Solvent(m: Ledger) {
    forall a :: a in m ==> NoDebts(m[a])
  }

  ghost predicate NonNegative(balances: map<string, int>) {
    forall a :: a in balances ==> balances[a] >= 0
  }

  /** The new denom is not priced above what the rate makes of the old one. */
  ghost predicate Agrees(w: Prices, rule: Rule) {
    0 <= w(rule.to) && 0 <= w(rule.from) && 0 <= rule.rate && w(rule.to) * rule.rate <= w(rule.from) * Dec.ONE
  }

  // ---------- one stage ----------

  lemma RewriteWorth(e: Entry, rule: Rule, w: Prices)
    requires Agrees(w, rule) && ValueOf(e) >= 0
    ensures ValueOf(Rewrite(e, rule)) >= 0 && WorthOf(w)(Rewrite(e, rule)) <= WorthOf(w)(e)
  {
    hide AtRate;
    if e.denom == rule.from {
      var x, y := ValueOf(e), AtRate(rule.rate, ValueOf(e));
      AtRateLoss(rule.rate, x);
      Converted(w(rule.from), w(rule.to), rule.rate, x, y);
    }
  }

  lemma Converted(from: int, to: int, rate: int, x: int, y: int)
    requires to >= 0 && x >= 0 && to * rate <= from * Dec.ONE && y * Dec.ONE <= rate * x
    ensures to * y <= from * x
  {
    Dec.MulLe2(to, y * Dec.ONE, rate * x);
    Dec.MulLe(to * rate, from * Dec.ONE, x);
    assert to * (y * Dec.ONE) == (to * y) * Dec.ONE;
    assert to * (rate * x) == (to * rate) * x;
    assert (from * Dec.ONE) * x == (from * x) * Dec.ONE;
  }

  function WorthAfter(g: Entry -> seq<Entry>, w: Prices): Entry -> int {
    (e: Entry) => Worth(g(e), w)
  }

  /** A change entry by entry that raises no entry's worth does not raise the worth of a list. */
  lemma ListWorth(es: seq<Entry>, g: Entry -> seq<Entry>, w: Prices)
    requires forall e :: e in es ==> NoDebts(g(e)) && Worth(g(e), w) <= WorthOf(w)(e)
    ensures NoDebts(FlatMap(es, g)) && Worth(FlatMap(es, g), w) <= Worth(es, w)
  {
    SumByFlatMap(es, g, WorthOf(w), WorthAfter(g, w));
    SumByMonotone(es, WorthAfter(g, w), WorthOf(w));
    forall x | x in FlatMap(es, g) ensures ValueOf(x) >= 0 {
      InFlatMap(es, g, x);
    }
  }

  lemma OneEntry(e: Entry, w: Prices)
    ensures Worth([e], w) == WorthOf(w)(e)
  {
    assert [] + [e] == [e];
    SumBySnoc([], e, WorthOf(w));
  }

  lemma LedgerValue(m: Ledger, m': Ledger, w: Prices)
    requires m'.Keys == m.Keys && forall a :: a in m ==> NoDebts(m'[a]) && Worth(m'[a], w) <= Worth(m[a], w)
    ensures Solvent(m') && Value(m', w) <= Value(m, w)
  {
    SumSetMonotone(m.Keys, WorthAt(m', w), WorthAt(m, w));
  }

  lemma AppliedValue(m: Ledger, rule: Rule, w: Prices)
    requires Solvent(m) && Agrees(w, rule)
    ensures Solvent(Applied(m, rule)) && Value(Applied(m, rule), w) <= Value(m, w)
  {
    hide Agrees, Rewrite, WorthOf;
    forall a | a in m ensures NoDebts(Rewritten(m[a], rule)) && Worth(Rewritten(m[a], rule), w) <= Worth(m[a], w) {
      forall e | e in m[a] ensures NoDebts(RewriteOf(rule)(e)) && Worth(RewriteOf(rule)(e), w) <= WorthOf(w)(e) {
        RewriteWorth(e, rule, w);
        OneEntry(Rewrite(e, rule), w);
      }
      ListWorth(m[a], RewriteOf(rule), w);
    }
    LedgerValue(m, Applied(m, rule), w);
  }

  lemma ZeroedWorth(e: Entry, denoms: set<string>, w: Prices)
    requires w(e.denom) >= 0 && ValueOf(e) >= 0
    ensures ValueOf(Zeroed(e, denoms)) >= 0 && WorthOf(w)(Zeroed(e, denoms)) <= WorthOf(w)(e)
  {
    Dec.MulLe2(w(e.denom), 0, ValueOf(e));
  }

  lemma PurgedValue(m: Ledger, bl: Blacklist, w: Prices)
    requires Solvent(m) && forall d :: w(d) >= 0
    ensures Solvent(Purged(m, bl)) && Value(Purged(m, bl), w) <= Value(m, w)
  {
    hide Zeroed, WorthOf, DenomsFor;
    forall a | a in m
      ensures NoDebts(Purged(m, bl)[a]) && Worth(Purged(m, bl)[a], w) <= Worth(m[a], w)
    {
      var denoms := DenomsFor(bl, a);
      forall e | e in m[a] ensures NoDebts(ZeroedOf(denoms)(e)) && Worth(ZeroedOf(denoms)(e), w) <= WorthOf(w)(e) {
        ZeroedWorth(e, denoms, w);
        OneEntry(Zeroed(e, denoms), w);
      }
      ListWorth(m[a], ZeroedOf(denoms), w);
    }
    LedgerValue(m, Purged(m, bl), w);
  }

  lemma RelabelWorth(e: Entry, w: Prices)
    requires w(CLUNA) <= w(PLUNA) && ValueOf(e) >= 0
    ensures ValueOf(Relabel(e)) >= 0 && WorthOf(w)(Relabel(e)) <= WorthOf(w)(e)
  {
    Dec.MulLe(w(CLUNA), w(PLUNA), ValueOf(e));
  }

  lemma SwappedValue(m: Ledger, w: Prices)
    requires Solvent(m) && w(CLUNA) <= w(PLUNA)
    ensures Solvent(Swapped(m)) && Value(Swapped(m), w) <= Value(m, w)
  {
    hide Relabel, WorthOf;
    forall a | a in m ensures NoDebts(Swapped(m)[a]) && Worth(Swapped(m)[a], w) <= Worth(m[a], w) {
      forall e | e in m[a] ensures NoDebts(RelabelOf()(e)) && Worth(RelabelOf()(e), w) <= WorthOf(w)(e) {
        RelabelWorth(e, w);
        OneEntry(Relabel(e), w);
      }
      ListWorth(m[a], RelabelOf(), w);
    }
    LedgerValue(m, Swapped(m), w);
  }

  // ---------- adding holders ----------

  function GiftTo(balances: map<string, int>, price: int): string -> int {
    (a: string) => price * AmountOf(balances, a)
  }

  /** What a set of holders is worth at the price of their denom. */
  ghost function Gift(balances: map<string, int>, price: int): int {
    SumSet(balances.Keys, GiftTo(balances, price))
  }

  lemma AddedWorth(m: Ledger, balances: map<string, int>, d: string, w: Prices, a: string)
    requires Solvent(m) && NonNegative(balances) && a in SM.Added(m, balances, d)
    ensures NoDebts(SM.Added(m, balances, d)[a])
    ensures WorthAt(SM.Added(m, balances, d), w)(a) == WorthAt(m, w)(a) + GiftTo(balances, w(d))(a)
  {
    if a in balances {
      SumBySnoc(EntriesAt(m, a), Entry(d, Some(balances[a])), WorthOf(w));
    }
  }

  lemma AddedValue(m: Ledger, balances: map<string, int>, d: string, w: Prices)
    requires Solvent(m) && NonNegative(balances)
    ensures Solvent(SM.Added(m, balances, d))
    ensures Value(SM.Added(m, balances, d), w) == Value(m, w) + Gift(balances, w(d))
  {
    hide Worth, NoDebts, SumSet, NonNegative;
    var keys, after := m.Keys + balances.Keys, SM.Added(m, balances, d);
    assert after.Keys == keys;
    forall a | a in keys
      ensures NoDebts(after[a]) && WorthAt(after, w)(a) == WorthAt(m, w)(a) + GiftTo(balances, w(d))(a)
    {
      AddedWorth(m, balances, d, w, a);
    }
    SumSetSum(keys, WorthAt(m, w), GiftTo(balances, w(d)), WorthAt(after, w));
    NothingHeld(w);
    SumSetOver(keys, m.Keys, WorthAt(m, w));
    SumSetOver(keys, balances.Keys, GiftTo(balances, w(d)));
  }

  lemma NothingHeld(w: Prices)
    ensures Worth([], w) == 0
  {
  }

  // ---------- the final collapse ----------

  lemma {:induction false} AbsorbWorth(es: seq<Entry>, e: Entry, w: Prices)
    ensures Worth(Absorb(es, e), w) == Worth(es, w) + WorthOf(w)(e)
  {
    if es == [] {
      OneEntry(e, w);
    } else {
      var r := Absorb(es, e);
      if es[0].denom == e.denom && e.balance.Some? {
        assert r[1..] == es[1..];
        assert w(e.denom) * (ValueOf(es[0]) + ValueOf(e)) == w(e.denom) * ValueOf(es[0]) + w(e.denom) * ValueOf(e);
      } else {
        assert r[1..] == Absorb(es[1..], e);
        AbsorbWorth(es[1..], e, w);
      }
    }
  }

  lemma {:induction false} AbsorbAllWorth(es: seq<Entry>, more: seq<Entry>, w: Prices)
    ensures Worth(AbsorbAll(es, more), w) == Worth(es, w) + Worth(more, w)
  {
    if more != [] {
      var n := |more| - 1;
      assert more == more[..n + 1];
      AbsorbAllWorth(es, more[..n], w);
      AbsorbWorth(AbsorbAll(es, more[..n]), more[n], w);
      SumByTake(more, n, WorthOf(w));
    }
  }

  lemma {:induction false} AbsorbNoDebts(es: seq<Entry>, e: Entry)
    requires NoDebts(es) && ValueOf(e) >= 0
    ensures NoDebts(Absorb(es, e))
  {
    if es != [] && !(es[0].denom == e.denom && e.balance.Some?) {
      AbsorbNoDebts(es[1..], e);
    }
  }

  lemma {:induction false} AbsorbAllNoDebts(es: seq<Entry>, more: seq<Entry>)
    requires NoDebts(es) && NoDebts(more)
    ensures NoDebts(AbsorbAll(es, more))
  {
    if more != [] {
      AbsorbAllNoDebts(es, more[..|more| - 1]);
      AbsorbNoDebts(AbsorbAll(es, more[..|more| - 1]), more[|more| - 1]);
    }
  }

  lemma GatheredOne(m: Ledger, a: string)
    ensures Gathered([map[], m], a) == EntriesAt(m, a)
  {
    var empty: Ledger := map[];
    assert [empty, m][..1] == [empty] && [empty, m][..2] == [empty, m] && [empty, m][..0] == [];
    FlatMapTake([empty, m], 0, EntriesOf(a));
    FlatMapTake([empty, m], 1, EntriesOf(a));
  }

  lemma CollapsedValue(m: Ledger, w: Prices)
    requires Solvent(m)
    ensures Solvent(Merged([map[], m])) && Value(Merged([map[], m]), w) == Value(m, w)
  {
    hide AbsorbAll, Gathered;
    var after := Merged([map[], m]);
    forall a
      ensures a in after <==> a in m && m[a] != []
      ensures a in after ==> NoDebts(after[a])
      ensures a in after ==> WorthAt(after, w)(a) == WorthAt(m, w)(a)
    {
      GatheredOne(m, a);
      AddressesIff([map[], m], a);
      if a in after {
        AbsorbAllWorth([], m[a], w);
        AbsorbAllNoDebts([], m[a]);
      }
    }
    assert after.Keys <= m.Keys;
    SumSetOver(m.Keys, after.Keys, WorthAt(m, w));
    SumSetEqual(after.Keys, WorthAt(after, w), WorthAt(m, w));
  }

  // ---------- the whole export ----------

  /** Prices that agree with all exchange rates of the export. */
  ghost predicate Sensible(w: Prices, i: Inputs) {
    && (forall d :: w(d) >= 0)
    && Agrees(w, Rule(NLUNA, BLUNA, i.nRate))
    && Agrees(w, Rule(BLUNA, ULUNA, i.bRate))
    && Agrees(w, Rule(STLUNA, ULUNA, i.stRate))
    && Agrees(w, Rule(CLUNA, ULUNA, i.cRate))
    && Agrees(w, Rule(STEAK, ULUNA, i.steakRate))
    && Agrees(w, Rule(LUNAX, ULUNA, i.lunaxRate))
    && w(CLUNA) <= w(PLUNA)
  }

  ghost predicate Genuine(i: Inputs) {
    && NonNegative(i.stHolders) && NonNegative(i.bHolders)
    && (i.unbonding.Some? ==> NonNegative(i.unbonding.value.0) && NonNegative(i.unbonding.value.1))
  }

  /** The worth of everything the export reads from contracts and adds. */
  ghost function Gifts(i: Inputs, w: Prices): int {
    Gift(i.stHolders, w(STLUNA)) + Gift(i.bHolders, w(BLUNA))
    + (if i.unbonding.Some? then Gift(UnbondingLuna(i), w(ULUNA)) else 0)
  }

  lemma UnbondingNonNegative(i: Inputs)
    requires Genuine(i) && i.unbonding.Some? && i.bRate >= 0 && i.stRate >= 0
    ensures NonNegative(UnbondingLuna(i))
  {
    hide AtRate;
    forall x: int | x >= 0 ensures AtRate(i.bRate, x) >= 0 && AtRate(i.stRate, x) >= 0 {
      AtRateLoss(i.bRate, x);
      AtRateLoss(i.stRate, x);
    }
  }

  lemma HoldersValue(m: Ledger, i: Inputs, bl: Blacklist, w: Prices)
    requires Solvent(m) && Sensible(w, i) && Genuine(i)
    ensures Solvent(AfterHolders(m, i, bl))
    ensures Value(AfterHolders(m, i, bl), w) <= Value(m, w) + Gift(i.stHolders, w(STLUNA)) + Gift(i.bHolders, w(BLUNA))
  {
    hide Value, Solvent, Gift, NonNegative, Purged, SM.Added, Agrees;
    var one := SM.Added(m, i.stHolders, STLUNA);
    AddedValue(m, i.stHolders, STLUNA, w);
    PurgedValue(one, bl, w);
    var two := SM.Added(Purged(one, bl), i.bHolders, BLUNA);
    AddedValue(Purged(one, bl), i.bHolders, BLUNA, w);
    PurgedValue(two, bl, w);
  }

  lemma LidoValue(m: Ledger, i: Inputs, bl: Blacklist, w: Prices)
    requires Solvent(m) && Sensible(w, i) && Genuine(i)
    ensures Solvent(AfterLido(m, i, bl))
    ensures Value(AfterLido(m, i, bl), w) <=
            Value(m, w) + (if i.unbonding.Some? then Gift(UnbondingLuna(i), w(ULUNA)) else 0)
  {
    hide Value, Solvent, Gift, NonNegative, Purged, SM.Added, Applied, UnbondingLuna;
    var purged := Purged(m, bl);
    PurgedValue(m, bl, w);
    var first := Applied(purged, Rule(BLUNA, ULUNA, i.bRate));
    AppliedValue(purged, Rule(BLUNA, ULUNA, i.bRate), w);
    AppliedValue(first, Rule(STLUNA, ULUNA, i.stRate), w);
    if i.unbonding.Some? {
      UnbondingNonNegative(i);
      AddedValue(LidoRewritten(m, i, bl), UnbondingLuna(i), ULUNA, w);
    }
  }

  lemma PrismValue(m: Ledger, i: Inputs, bl: Blacklist, w: Prices)
    requires Solvent(m) && Sensible(w, i)
    ensures Solvent(AfterPrism(m, i, bl)) && Value(AfterPrism(m, i, bl), w) <= Value(m, w)
  {
    hide Value, Solvent, Purged, Swapped, Applied, Agrees;
    PurgedValue(m, bl, w);
    SwappedValue(Purged(m, bl), w);
    PurgedValue(Swapped(Purged(m, bl)), bl, w);
    AppliedValue(Purged(Swapped(Purged(m, bl)), bl), Rule(CLUNA, ULUNA, i.cRate), w);
  }

  /** At any sensible prices the export raises the value of a snapshot by no more than what it adds. */
  lemma ExportCreatesNothing(m: Ledger, i: Inputs, bl: Blacklist, w: Prices)
    requires Solvent(m) && Sensible(w, i) && Genuine(i)
    ensures Solvent(Exported(m, i, bl))
    ensures Value(Exported(m, i, bl), w) <= Value(m, w) + Gifts(i, w)
  {
    hide Value, Solvent, Gift, NonNegative, Purged, Applied, Agrees, AfterHolders, AfterLido, AfterPrism, Merged;
    AppliedValue(m, Rule(NLUNA, BLUNA, i.nRate), w);
    var nexus := AfterNexus(m, i);
    HoldersValue(nexus, i, bl, w);
    var holders := AfterHolders(nexus, i, bl);
    PurgedValue(holders, bl, w);
    LidoValue(AfterRewards(holders, bl), i, bl, w);
    var lido := UpToLido(m, i, bl);
    PrismValue(lido, i, LidoBlacklist(bl, i), w);
    var prism := AfterPrism(lido, i, LidoBlacklist(bl, i));
    AppliedValue(prism, Rule(STEAK, ULUNA, i.steakRate), w);
    AppliedValue(AfterSteak(prism, i), Rule(LUNAX, ULUNA, i.lunaxRate), w);
    CollapsedValue(Resolved(m, i, bl), w);
  }

  // ---------- in LUNA ----------

  /** LUNA prices of the derivatives, scaled by 10^36; nexus takes two conversions. */
  function LunaPrices(i: Inputs): Prices {
    (d: string) =>
      if d == ULUNA then Dec.ONE * Dec.ONE
      else if d == BLUNA then i.bRate * Dec.ONE
      else if d == STLUNA then i.stRate * Dec.ONE
      else if d == CLUNA || d == PLUNA then i.cRate * Dec.ONE
      else if d == STEAK then i.steakRate * Dec.ONE
      else if d == LUNAX then i.lunaxRate * Dec.ONE
      else if d == NLUNA then i.nRate * i.bRate
      else 0
  }

  ghost predicate NonNegativeRates(i: Inputs) {
    i.nRate >= 0 && i.bRate >= 0 && i.stRate >= 0 && i.cRate >= 0 && i.steakRate >= 0 && i.lunaxRate >= 0
  }

  lemma LunaPricesAreSensible(i: Inputs)
    requires NonNegativeRates(i)
    ensures Sensible(LunaPrices(i), i)
  {
    var w := LunaPrices(i);
    Dec.MulLe2(i.nRate, 0, i.bRate);
    assert w(BLUNA) * i.nRate == w(NLUNA) * Dec.ONE;
  }

  lemma {:induction false} LunaWorth(es: seq<Entry>, w: Prices)
    requires NoDebts(es) && forall d :: w(d) >= 0
    ensures w(ULUNA) * Holding(es, ULUNA) <= Worth(es, w)
  {
    if es != [] {
      LunaWorth(es[1..], w);
      Dec.MulLe2(w(es[0].denom), 0, ValueOf(es[0]));
      assert w(ULUNA) * (AmountIn(ULUNA)(es[0]) + Holding(es[1..], ULUNA))
          == w(ULUNA) * AmountIn(ULUNA)(es[0]) + w(ULUNA) * Holding(es[1..], ULUNA);
    }
  }

  lemma {:induction false} SumSetScaled(s: set<string>, f: string -> int, g: string -> int, c: int)
    requires forall a :: a in s ==> c * f(a) <= g(a)
    ensures c * SumSet(s, f) <= SumSet(s, g)
  {
    if s != {} {
      var x := Pick(s);
      SumSetScaled(s - {x}, f, g, c);
      SumSetRemove(s, x, f);
      SumSetRemove(s, x, g);
      assert c * (f(x) + SumSet(s - {x}, f)) == c * f(x) + c * SumSet(s - {x}, f);
    }
  }

  /**
   * The export creates no LUNA: what it ends with is at most the LUNA the snapshot began with, and its
   * derivatives and the added holders at their exact exchange rates.
   */
  lemma ExportCreatesNoLuna(m: Ledger, i: Inputs, bl: Blacklist)
    requires Solvent(m) && Genuine(i) && NonNegativeRates(i)
    ensures Dec.ONE * Dec.ONE * Total(Exported(m, i, bl), ULUNA) <= Value(m, LunaPrices(i)) + Gifts(i, LunaPrices(i))
  {
    hide Exported, LunaPrices, Gifts, Sensible, Genuine, Holding, Worth;
    var after, w := Exported(m, i, bl), LunaPrices(i);
    LunaPricesAreSensible(i);
    ExportCreatesNothing(m, i, bl, w);
    LunaPrice(i);
    forall a | a in after ensures Dec.ONE * Dec.ONE * HoldingAt(after, ULUNA)(a) <= WorthAt(after, w)(a) {
      LunaWorth(after[a], w);
    }
    SumSetScaled(after.Keys, HoldingAt(after, ULUNA), WorthAt(after, w), Dec.ONE * Dec.ONE);
  }

  lemma LunaPrice(i: Inputs)
    requires NonNegativeRates(i)
    ensures LunaPrices(i)(ULUNA) == Dec.ONE * Dec.ONE && forall d :: LunaPrices(i)(d) >= 0
  {
    Dec.MulLe2(i.nRate, 0, i.bRate);
  }
}
