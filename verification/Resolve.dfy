/**
 * Rewriting staking derivatives to LUNA, as values: one rewrite of all entries of a denom, what it
 * loses to truncation, and the fixed order of rewrites of the exporter (app/export/contract_export.go).
 */
module Resolve {
  import opened Orders
  import opened Outcome
  import opened Snapshot
  import opened SnapshotMap
  import Dec

  const BLUNA := "ubluna"
  const STLUNA := "ustluna"
  const STEAK := "usteak"
  const NLUNA := "unluna"
  const CLUNA := "ucluna"
  const PLUNA := "upluna"
  const LUNAX := "ulunax"
  const LIDO_HUB := "terra1mtwph2juhj0rvjz7dy92gvl6xvukaxu8rfv8ts"

  predicate Derivative(d: string) {
    d in {BLUNA, STLUNA, STEAK, NLUNA, CLUNA, PLUNA, LUNAX}
  }

  /** An amount at an exchange rate, in whole units. */
  function AtRate(rate: int, amount: int): int {
    Dec.TruncateInt(rate * amount)
  }

  datatype Rule = Rule(from: string, to: string, rate: int)

  function Rewrite(e: Entry, rule: Rule): Entry {
    if e.denom == rule.from then Entry(rule.to, Some(AtRate(rule.rate, ValueOf(e)))) else e
  }

  function RewriteOf(rule: Rule): Entry -> seq<Entry> {
    (e: Entry) => [Rewrite(e, rule)]
  }

  function Rewritten(es: seq<Entry>, rule: Rule): seq<Entry> {
    FlatMap(es, RewriteOf(rule))
  }

  function Relabel(e: Entry): Entry {
    if e.denom == PLUNA then e.(denom := CLUNA) else e
  }

  function RelabelOf(): Entry -> seq<Entry> {
    (e: Entry) => [Relabel(e)]
  }

  function Relabelled(es: seq<Entry>): seq<Entry> {
    FlatMap(es, RelabelOf())
  }

  ghost function Applied(m: Ledger, rule: Rule): Ledger {
    map a | a in m :: Rewritten(m[a], rule)
  }

  ghost function Swapped(m: Ledger): Ledger {
    map a | a in m :: Relabelled(m[a])
  }

  ghost predicate ListSet(es: seq<Entry>, d: string) {
    forall e :: e in es && e.denom == d ==> e.balance.Some?
  }

  /** Multiplying a nil balance panics. */
  ghost predicate SetIn(m: Ledger, d: string) {
    forall a :: a in m ==> ListSet(m[a], d)
  }

  // ---------- what one rewrite loses ----------

  /** Truncation loses less than one unit. */
  lemma AtRateLoss(rate: int, amount: int)
    requires rate >= 0 && amount >= 0
    ensures AtRate(rate, amount) >= 0
    ensures 0 <= rate * amount - AtRate(rate, amount) * Dec.ONE < Dec.ONE
  {
    Dec.MulLe2(rate, 0, amount);
    Dec.DivBounds(rate * amount, Dec.ONE);
  }

  /** The number of entries of a denom. */
  function Entries(es: seq<Entry>, d: string): int {
    SumBy(es, IsIn(d))
  }

  /**
   * Over a list of entries a rewrite turns what was held of the old denom into the new one at the
   * exact rate, less than one unit short per rewritten entry; other denoms keep their holdings.
   */
  lemma {:induction false} RewriteLoss(es: seq<Entry>, rule: Rule)
    requires rule.rate >= 0 && rule.from != rule.to && forall e :: e in es && e.denom == rule.from ==> ValueOf(e) >= 0
    ensures Entries(es, rule.from) >= 0 && Holding(Rewritten(es, rule), rule.from) == 0
    ensures var loss := rule.rate * Holding(es, rule.from)
                        - (Holding(Rewritten(es, rule), rule.to) - Holding(es, rule.to)) * Dec.ONE;
            && 0 <= loss <= Entries(es, rule.from) * Dec.ONE
            && (Entries(es, rule.from) > 0 ==> loss < Entries(es, rule.from) * Dec.ONE)
  {
    hide AtRate;
    if es != [] {
      var e, rest := es[0], es[1..];
      RewriteLoss(rest, rule);
      RewrittenCons(es, rule);
      if e.denom == rule.from {
        AtRateLoss(rule.rate, ValueOf(e));
        assert rule.rate * (ValueOf(e) + Holding(rest, rule.from)) ==
            rule.rate * ValueOf(e) + rule.rate * Holding(rest, rule.from);
      }
    }
  }

  lemma RewrittenCons(es: seq<Entry>, rule: Rule)
    requires es != []
    ensures Rewritten(es, rule) == [Rewrite(es[0], rule)] + Rewritten(es[1..], rule)
  {
  }

  lemma {:induction false} RewriteKeepsOthers(es: seq<Entry>, rule: Rule, d: string)
    requires d != rule.from && d != rule.to
    ensures Holding(Rewritten(es, rule), d) == Holding(es, d)
  {
    if es != [] {
      RewriteKeepsOthers(es[1..], rule, d);
      RewrittenCons(es, rule);
    }
  }

  lemma {:induction false} RelabelKeepsOthers(es: seq<Entry>, d: string)
    requires d != PLUNA && d != CLUNA
    ensures Holding(Relabelled(es), d) == Holding(es, d)
  {
    if es != [] {
      RelabelKeepsOthers(es[1..], d);
      assert Relabelled(es) == [Relabel(es[0])] + Relabelled(es[1..]);
    }
  }

  function EntriesIn(m: Ledger, d: string): string -> int {
    (a: string) => Entries(EntriesAt(m, a), d)
  }

  /** The number of entries of a denom in a whole snapshot. */
  ghost function Count(m: Ledger, d: string): int {
    SumSet(m.Keys, EntriesIn(m, d))
  }

  lemma {:induction false} SumLoss(keys: set<string>, rate: int, from: string -> int, gain: string -> int,
      count: string -> int)
    requires forall a :: a in keys ==> 0 <= rate * from(a) - gain(a) * Dec.ONE <= count(a) * Dec.ONE
    requires forall a :: a in keys ==> count(a) >= 0 && (count(a) > 0 ==>
        rate * from(a) - gain(a) * Dec.ONE < count(a) * Dec.ONE)
    ensures 0 <= rate * SumSet(keys, from) - SumSet(keys, gain) * Dec.ONE <= SumSet(keys, count) * Dec.ONE
    ensures SumSet(keys, count) >= 0
    ensures SumSet(keys, count) > 0 ==>
              rate * SumSet(keys, from) - SumSet(keys, gain) * Dec.ONE < SumSet(keys, count) * Dec.ONE
  {
    if keys != {} {
      var a := Pick(keys);
      SumSetRemove(keys, a, from);
      SumSetRemove(keys, a, gain);
      SumSetRemove(keys, a, count);
      SumLoss(keys - {a}, rate, from, gain, count);
      assert rate * (from(a) + SumSet(keys - {a}, from)) == rate * from(a) + rate * SumSet(keys - {a}, from);
    }
  }

  function GainIn(m: Ledger, m': Ledger, d: string): string -> int {
    (a: string) => Holding(EntriesAt(m', a), d) - Holding(EntriesAt(m, a), d)
  }

  /** The same over a whole snapshot: one rewrite loses less than one unit per entry it rewrites. */
  lemma TotalLoss(m: Ledger, rule: Rule)
    requires rule.rate >= 0 && rule.from != rule.to
    requires forall a, e :: a in m && e in m[a] && e.denom == rule.from ==> ValueOf(e) >= 0
    ensures var loss := rule.rate * Total(m, rule.from) - (Total(Applied(m, rule), rule.to) -
        Total(m, rule.to)) * Dec.ONE;
            && 0 <= loss <= Count(m, rule.from) * Dec.ONE
            && (Count(m, rule.from) > 0 ==> loss < Count(m, rule.from) * Dec.ONE)
  {
    hide Holding, Entries, Rewritten;
    var m' := Applied(m, rule);
    forall a | a in m
      ensures var loss := rule.rate * HoldingAt(m, rule.from)(a) - GainIn(m, m', rule.to)(a) * Dec.ONE;
              && EntriesIn(m, rule.from)(a) >= 0
              && 0 <= loss <= EntriesIn(m, rule.from)(a) * Dec.ONE
              && (EntriesIn(m, rule.from)(a) > 0 ==> loss < EntriesIn(m, rule.from)(a) * Dec.ONE)
    {
      RewriteLoss(m[a], rule);
    }
    SumLoss(m.Keys, rule.rate, HoldingAt(m, rule.from), GainIn(m, m', rule.to), EntriesIn(m, rule.from));
    assert m'.Keys == m.Keys;
    SumSetSum(m.Keys, GainIn(m, m', rule.to), HoldingAt(m, rule.to), HoldingAt(m', rule.to));
  }

  // ---------- which denoms are left ----------

  ghost predicate Lacks(m: Ledger, d: string) {
    forall a :: a in m ==> forall e :: e in m[a] ==> e.denom != d
  }

  lemma RewriteLacks(m: Ledger, rule: Rule, d: string)
    requires rule.from != rule.to && (d == rule.from || (d != rule.to && Lacks(m, d)))
    ensures Lacks(Applied(m, rule), d)
  {
    forall a, e | a in Applied(m, rule) && e in Applied(m, rule)[a] ensures e.denom != d {
      InFlatMap(m[a], RewriteOf(rule), e);
    }
  }

  lemma RelabelLacks(m: Ledger, d: string)
    requires d == PLUNA || (d != CLUNA && Lacks(m, d))
    ensures Lacks(Swapped(m), d)
  {
    forall a, e | a in Swapped(m) && e in Swapped(m)[a] ensures e.denom != d {
      InFlatMap(m[a], RelabelOf(), e);
    }
  }

  lemma PurgeLacks(m: Ledger, bl: Blacklist, d: string)
    requires Lacks(m, d)
    ensures Lacks(Purged(m, bl), d)
  {
    forall a, e | a in Purged(m, bl) && e in Purged(m, bl)[a] ensures e.denom != d {
      InFlatMap(m[a], ZeroedOf(DenomsFor(bl, a)), e);
    }
  }

  lemma AddLacks(m: Ledger, balances: map<string, int>, denom: string, d: string)
    requires Lacks(m, d) && d != denom
    ensures Lacks(Added(m, balances, denom), d)
  {
  }

  lemma {:induction false} AbsorbLacks(es: seq<Entry>, more: seq<Entry>, d: string)
    requires (forall e :: e in es ==> e.denom != d) && (forall e :: e in more ==> e.denom != d)
    ensures forall e :: e in AbsorbAll(es, more) ==> e.denom != d
  {
    if more != [] {
      AbsorbLacks(es, more[..|more| - 1], d);
      AbsorbOneLacks(AbsorbAll(es, more[..|more| - 1]), more[|more| - 1], d);
    }
  }

  lemma {:induction false} AbsorbOneLacks(es: seq<Entry>, x: Entry, d: string)
    requires (forall e :: e in es ==> e.denom != d) && x.denom != d
    ensures forall e :: e in Absorb(es, x) ==> e.denom != d
  {
    if es != [] && !(es[0].denom == x.denom && x.balance.Some?) {
      AbsorbOneLacks(es[1..], x, d);
    }
  }

  lemma MergeLacks(ms: seq<Ledger>, d: string)
    requires forall m :: m in ms ==> Lacks(m, d)
    ensures Lacks(Merged(ms), d)
  {
    forall a | a in Merged(ms) ensures forall e :: e in Merged(ms)[a] ==> e.denom != d {
      forall e | e in Gathered(ms, a) ensures e.denom != d {
        InFlatMap(ms, EntriesOf(a), e);
      }
      AbsorbLacks([], Gathered(ms, a), d);
    }
  }
}
