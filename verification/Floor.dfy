/**
 * How much LUNA the export must end with at least (app/export/contract_export.go). Every entry is scored
 * by its worth, unless it is blacklisted, less what truncation can take from it on its way to LUNA; no
 * stage lowers the total score.
 */
module Floor {
  import opened Orders
  import opened Outcome
  import opened Snapshot
  import SM = SnapshotMap
  import opened Denoms
  import opened Resolve
  import opened Pipeline
  import opened Value
  import Dec

  /** What a unit of a denom is worth at an address, and what may be lost on an entry of it. */
  datatype Scale = Scale(worth: (string, string) -> int, toll: string -> int)

  function ScoreOf(s: Scale, a: string): Entry -> int {
    (e: Entry) => s.worth(a, e.denom) * ValueOf(e) - s.toll(e.denom)
  }

  function Score(es: seq<Entry>, s: Scale, a: string): int {
    SumBy(es, ScoreOf(s, a))
  }

  function ScoreAt(m: Ledger, s: Scale): string -> int {
    (a: string) => Score(EntriesAt(m, a), s, a)
  }

  ghost function TotalScore(m: Ledger, s: Scale): int {
    SumSet(m.Keys, ScoreAt(m, s))
  }

  /** The toll of the old denom covers one unit of the new one, which is what truncation loses. */
  ghost predicate Covers(s: Scale, rule: Rule) {
    && rule.rate >= 0
    && forall a :: 0 <= s.worth(a, rule.from) && s.worth(a, rule.from) * Dec.ONE <= s.worth(a, rule.to) * rule.rate
                   && 0 <= s.worth(a, rule.to) && s.toll(rule.to) + s.worth(a, rule.to) <= s.toll(rule.from)
  }

  // ---------- entry by entry ----------

  lemma RewriteScore(e: Entry, rule: Rule, s: Scale, a: string)
    requires Covers(s, rule) && ValueOf(e) >= 0
    ensures ValueOf(Rewrite(e, rule)) >= 0 && ScoreOf(s, a)(Rewrite(e, rule)) >= ScoreOf(s, a)(e)
  {
    hide AtRate;
    if e.denom == rule.from {
      var x, y := ValueOf(e), AtRate(rule.rate, ValueOf(e));
      AtRateLoss(rule.rate, x);
      Truncated(s.worth(a, rule.from), s.worth(a, rule.to), rule.rate, x, y);
    }
  }

  lemma Truncated(from: int, to: int, rate: int, x: int, y: int)
    requires to >= 0 && x >= 0 && from * Dec.ONE <= to * rate && rate * x - y * Dec.ONE < Dec.ONE
    ensures from * x <= to * y + to
  {
    Dec.MulLe(from * Dec.ONE, to * rate, x);
    Dec.MulLe2(to, rate * x, y * Dec.ONE + Dec.ONE);
    assert (from * Dec.ONE) * x == (from * x) * Dec.ONE;
    assert (to * rate) * x == to * (rate * x);
    assert to * (y * Dec.ONE + Dec.ONE) == (to * y + to) * Dec.ONE;
  }

  function ScoreAfter(g: Entry -> seq<Entry>, s: Scale, a: string): Entry -> int {
    (e: Entry) => Score(g(e), s, a)
  }

  lemma ListScore(es: seq<Entry>, g: Entry -> seq<Entry>, s: Scale, a: string)
    requires forall e :: e in es ==> NoDebts(g(e)) && Score(g(e), s, a) >= ScoreOf(s, a)(e)
    ensures NoDebts(FlatMap(es, g)) && Score(FlatMap(es, g), s, a) >= Score(es, s, a)
  {
    SumByFlatMap(es, g, ScoreOf(s, a), ScoreAfter(g, s, a));
    SumByMonotone(es, ScoreOf(s, a), ScoreAfter(g, s, a));
    forall x | x in FlatMap(es, g) ensures ValueOf(x) >= 0 {
      InFlatMap(es, g, x);
    }
  }

  lemma OneScore(e: Entry, s: Scale, a: string)
    ensures Score([e], s, a) == ScoreOf(s, a)(e)
  {
    assert [] + [e] == [e];
    SumBySnoc([], e, ScoreOf(s, a));
  }

  lemma LedgerScore(m: Ledger, m': Ledger, s: Scale)
    requires m'.Keys == m.Keys && forall a :: a in m ==> NoDebts(m'[a]) && Score(m'[a], s, a) >= Score(m[a], s, a)
    ensures Solvent(m') && TotalScore(m', s) >= TotalScore(m, s)
  {
    SumSetMonotone(m.Keys, ScoreAt(m, s), ScoreAt(m', s));
  }

  lemma AppliedScore(m: Ledger, rule: Rule, s: Scale)
    requires Solvent(m) && Covers(s, rule)
    ensures Solvent(Applied(m, rule)) && TotalScore(Applied(m, rule), s) >= TotalScore(m, s)
  {
    hide Covers, Rewrite, ScoreOf;
    forall a | a in m
      ensures NoDebts(Rewritten(m[a], rule)) && Score(Rewritten(m[a], rule), s, a) >= Score(m[a], s, a)
    {
      forall e | e in m[a] ensures NoDebts(RewriteOf(rule)(e)) && Score(RewriteOf(rule)(e), s, a) >= ScoreOf(s, a)(e) {
        RewriteScore(e, rule, s, a);
        OneScore(Rewrite(e, rule), s, a);
      }
      ListScore(m[a], RewriteOf(rule), s, a);
    }
    LedgerScore(m, Applied(m, rule), s);
  }

  /** What the blacklist takes is not worth anything. */
  ghost predicate Spares(s: Scale, bl: Blacklist) {
    forall a, d :: Banned(bl, a, d) ==> s.worth(a, d) == 0
  }

  lemma PurgedScore(m: Ledger, bl: Blacklist, s: Scale)
    requires Solvent(m) && Spares(s, bl)
    ensures Solvent(Purged(m, bl)) && TotalScore(Purged(m, bl), s) >= TotalScore(m, s)
  {
    hide ScoreOf, Zeroed;
    forall a | a in m
      ensures NoDebts(Purged(m, bl)[a]) && Score(Purged(m, bl)[a], s, a) >= Score(m[a], s, a)
    {
      var denoms := DenomsFor(bl, a);
      forall e | e in m[a]
        ensures NoDebts(ZeroedOf(denoms)(e)) && Score(ZeroedOf(denoms)(e), s, a) >= ScoreOf(s, a)(e)
      {
        ZeroedScore(e, bl, s, a);
        OneScore(Zeroed(e, denoms), s, a);
      }
      ListScore(m[a], ZeroedOf(denoms), s, a);
    }
    LedgerScore(m, Purged(m, bl), s);
  }

  lemma ZeroedScore(e: Entry, bl: Blacklist, s: Scale, a: string)
    requires ValueOf(e) >= 0 && Spares(s, bl)
    ensures ValueOf(Zeroed(e, DenomsFor(bl, a))) >= 0
    ensures ScoreOf(s, a)(Zeroed(e, DenomsFor(bl, a))) == ScoreOf(s, a)(e)
  {
    if e.denom in DenomsFor(bl, a) {
      assert Banned(bl, a, e.denom);
    }
  }

  lemma SwappedScore(m: Ledger, s: Scale)
    requires Solvent(m) && s.toll(CLUNA) <= s.toll(PLUNA) && forall a :: s.worth(a, PLUNA) <= s.worth(a, CLUNA)
    ensures Solvent(Swapped(m)) && TotalScore(Swapped(m), s) >= TotalScore(m, s)
  {
    hide ScoreOf, Relabel;
    forall a | a in m ensures NoDebts(Swapped(m)[a]) && Score(Swapped(m)[a], s, a) >= Score(m[a], s, a) {
      forall e | e in m[a] ensures NoDebts(RelabelOf()(e)) && Score(RelabelOf()(e), s, a) >= ScoreOf(s, a)(e) {
        RelabelScore(e, s, a);
        OneScore(Relabel(e), s, a);
      }
      ListScore(m[a], RelabelOf(), s, a);
    }
    LedgerScore(m, Swapped(m), s);
  }

  lemma RelabelScore(e: Entry, s: Scale, a: string)
    requires ValueOf(e) >= 0 && s.toll(CLUNA) <= s.toll(PLUNA) && s.worth(a, PLUNA) <= s.worth(a, CLUNA)
    ensures ValueOf(Relabel(e)) >= 0 && ScoreOf(s, a)(Relabel(e)) >= ScoreOf(s, a)(e)
  {
    Dec.MulLe(s.worth(a, PLUNA), s.worth(a, CLUNA), ValueOf(e));
  }

  // ---------- adding holders ----------

  function GiftScoreTo(balances: map<string, int>, s: Scale, d: string): string -> int {
    (a: string) => if a in balances then s.worth(a, d) * balances[a] - s.toll(d) else 0
  }

  ghost function GiftScore(balances: map<string, int>, s: Scale, d: string): int {
    SumSet(balances.Keys, GiftScoreTo(balances, s, d))
  }

  lemma AddedScoreAt(m: Ledger, balances: map<string, int>, d: string, s: Scale, a: string)
    requires Solvent(m) && NonNegative(balances) && a in SM.Added(m, balances, d)
    ensures NoDebts(SM.Added(m, balances, d)[a])
    ensures ScoreAt(SM.Added(m, balances, d), s)(a) == ScoreAt(m, s)(a) + GiftScoreTo(balances, s, d)(a)
  {
    if a in balances {
      SumBySnoc(EntriesAt(m, a), Entry(d, Some(balances[a])), ScoreOf(s, a));
    }
  }

  lemma AddedScore(m: Ledger, balances: map<string, int>, d: string, s: Scale)
    requires Solvent(m) && NonNegative(balances)
    ensures Solvent(SM.Added(m, balances, d))
    ensures TotalScore(SM.Added(m, balances, d), s) == TotalScore(m, s) + GiftScore(balances, s, d)
  {
    hide Score, NoDebts, SumSet, NonNegative;
    var keys, after := m.Keys + balances.Keys, SM.Added(m, balances, d);
    assert after.Keys == keys;
    forall a | a in keys
      ensures NoDebts(after[a]) && ScoreAt(after, s)(a) == ScoreAt(m, s)(a) + GiftScoreTo(balances, s, d)(a)
    {
      AddedScoreAt(m, balances, d, s, a);
    }
    SumSetSum(keys, ScoreAt(m, s), GiftScoreTo(balances, s, d), ScoreAt(after, s));
    forall a ensures Score([], s, a) == 0 {
      NoScore(s, a);
    }
    SumSetOver(keys, m.Keys, ScoreAt(m, s));
    SumSetOver(keys, balances.Keys, GiftScoreTo(balances, s, d));
  }

  lemma NoScore(s: Scale, a: string)
    ensures Score([], s, a) == 0
  {
  }

  // ---------- the final collapse ----------

  /** Entries that are merged pay one toll instead of two. */
  lemma {:induction false} AbsorbScore(es: seq<Entry>, e: Entry, s: Scale, a: string)
    requires forall d :: s.toll(d) >= 0
    ensures Score(Absorb(es, e), s, a) >= Score(es, s, a) + ScoreOf(s, a)(e)
  {
    if es == [] {
      OneScore(e, s, a);
    } else {
      var r := Absorb(es, e);
      if es[0].denom == e.denom && e.balance.Some? {
        assert r[1..] == es[1..];
        var w := s.worth(a, e.denom);
        assert w * (ValueOf(es[0]) + ValueOf(e)) == w * ValueOf(es[0]) + w * ValueOf(e);
      } else {
        assert r[1..] == Absorb(es[1..], e);
        AbsorbScore(es[1..], e, s, a);
      }
    }
  }

  lemma {:induction false} AbsorbAllScore(es: seq<Entry>, more: seq<Entry>, s: Scale, a: string)
    requires forall d :: s.toll(d) >= 0
    ensures Score(AbsorbAll(es, more), s, a) >= Score(es, s, a) + Score(more, s, a)
  {
    if more != [] {
      var n := |more| - 1;
      assert more == more[..n + 1];
      AbsorbAllScore(es, more[..n], s, a);
      AbsorbScore(AbsorbAll(es, more[..n]), more[n], s, a);
      SumByTake(more, n, ScoreOf(s, a));
    }
  }

  lemma CollapsedScore(m: Ledger, s: Scale)
    requires Solvent(m) && forall d :: s.toll(d) >= 0
    ensures Solvent(Merged([map[], m])) && TotalScore(Merged([map[], m]), s) >= TotalScore(m, s)
  {
    hide AbsorbAll, Gathered, Score;
    var after := Merged([map[], m]);
    forall a
      ensures a in after <==> a in m && m[a] != []
      ensures a in after ==> NoDebts(after[a])
      ensures a in after ==> ScoreAt(m, s)(a) <= ScoreAt(after, s)(a)
      ensures Score([], s, a) == 0
    {
      GatheredOne(m, a);
      AddressesIff([map[], m], a);
      NoScore(s, a);
      if a in after {
        AbsorbAllScore([], m[a], s, a);
        AbsorbAllNoDebts([], m[a]);
      }
    }
    assert after.Keys <= m.Keys;
    SumSetOver(m.Keys, after.Keys, ScoreAt(m, s));
    SumSetMonotone(after.Keys, ScoreAt(m, s), ScoreAt(after, s));
  }

  // ---------- the whole export ----------

  /** A scale that covers every rewrite of the export and gives nothing for what its blacklists take. */
  ghost predicate Suits(s: Scale, i: Inputs, bl: Blacklist) {
    && Spares(s, bl) && Spares(s, LidoBlacklist(bl, i)) && (forall d :: s.toll(d) >= 0)
    && Covers(s, Rule(NLUNA, BLUNA, i.nRate))
    && Covers(s, Rule(BLUNA, ULUNA, i.bRate))
    && Covers(s, Rule(STLUNA, ULUNA, i.stRate))
    && Covers(s, Rule(CLUNA, ULUNA, i.cRate))
    && Covers(s, Rule(STEAK, ULUNA, i.steakRate))
    && Covers(s, Rule(LUNAX, ULUNA, i.lunaxRate))
    && s.toll(CLUNA) <= s.toll(PLUNA) && forall a :: s.worth(a, PLUNA) <= s.worth(a, CLUNA)
  }

  ghost function GiftScores(i: Inputs, s: Scale): int {
    GiftScore(i.stHolders, s, STLUNA) + GiftScore(i.bHolders, s, BLUNA)
    + (if i.unbonding.Some? then GiftScore(UnbondingLuna(i), s, ULUNA) else 0)
  }

  lemma HoldersScore(m: Ledger, i: Inputs, bl: Blacklist, s: Scale)
    requires Solvent(m) && Suits(s, i, bl) && Genuine(i)
    ensures Solvent(AfterHolders(m, i, bl))
    ensures TotalScore(AfterHolders(m, i, bl), s) >= TotalScore(m, s) + GiftScore(i.stHolders, s, STLUNA) +
        GiftScore(i.bHolders, s, BLUNA)
  {
    hide TotalScore, Solvent, GiftScore, NonNegative, Purged, SM.Added, Covers, Spares;
    var one := SM.Added(m, i.stHolders, STLUNA);
    AddedScore(m, i.stHolders, STLUNA, s);
    PurgedScore(one, bl, s);
    AddedScore(Purged(one, bl), i.bHolders, BLUNA, s);
    PurgedScore(SM.Added(Purged(one, bl), i.bHolders, BLUNA), bl, s);
  }

  lemma RatesNonNegative(i: Inputs, bl: Blacklist, s: Scale)
    requires Suits(s, i, bl)
    ensures i.bRate >= 0 && i.stRate >= 0
  {
  }

  lemma LidoScore(m: Ledger, i: Inputs, bl: Blacklist, s: Scale)
    requires Solvent(m) && Suits(s, i, bl) && Genuine(i)
    ensures Solvent(AfterLido(m, i, bl))
    ensures TotalScore(AfterLido(m, i, bl), s) >=
            TotalScore(m, s) + (if i.unbonding.Some? then GiftScore(UnbondingLuna(i), s, ULUNA) else 0)
  {
    hide TotalScore, Solvent, GiftScore, NonNegative, Purged, SM.Added, Applied, UnbondingLuna, Covers, Spares;
    var purged := Purged(m, bl);
    PurgedScore(m, bl, s);
    AppliedScore(purged, Rule(BLUNA, ULUNA, i.bRate), s);
    AppliedScore(Applied(purged, Rule(BLUNA, ULUNA, i.bRate)), Rule(STLUNA, ULUNA, i.stRate), s);
    if i.unbonding.Some? {
      RatesNonNegative(i, bl, s);
      UnbondingNonNegative(i);
      AddedScore(LidoRewritten(m, i, bl), UnbondingLuna(i), ULUNA, s);
    }
  }

  lemma PrismScore(m: Ledger, i: Inputs, bl: Blacklist, s: Scale)
    requires Solvent(m) && Suits(s, i, bl)
    ensures Solvent(AfterPrism(m, i, LidoBlacklist(bl, i)))
    ensures TotalScore(AfterPrism(m, i, LidoBlacklist(bl, i)), s) >= TotalScore(m, s)
  {
    hide TotalScore, Solvent, Purged, Swapped, Applied, Covers, Spares;
    var bl' := LidoBlacklist(bl, i);
    PurgedScore(m, bl', s);
    SwappedScore(Purged(m, bl'), s);
    PurgedScore(Swapped(Purged(m, bl')), bl', s);
    AppliedScore(Purged(Swapped(Purged(m, bl')), bl'), Rule(CLUNA, ULUNA, i.cRate), s);
  }

  /** On any scale that suits it the export ends with at least the score it began with and was given. */
  lemma ExportKeepsScore(m: Ledger, i: Inputs, bl: Blacklist, s: Scale)
    requires Solvent(m) && Suits(s, i, bl) && Genuine(i)
    ensures Solvent(Exported(m, i, bl))
    ensures TotalScore(Exported(m, i, bl), s) >= TotalScore(m, s) + GiftScores(i, s)
  {
    hide TotalScore, Solvent, GiftScore, Purged, Applied, Covers, Spares, AfterHolders, AfterLido, AfterPrism, Merged;
    AppliedScore(m, Rule(NLUNA, BLUNA, i.nRate), s);
    var nexus := AfterNexus(m, i);
    HoldersScore(nexus, i, bl, s);
    var holders := AfterHolders(nexus, i, bl);
    PurgedScore(holders, bl, s);
    LidoScore(AfterRewards(holders, bl), i, bl, s);
    var lido := UpToLido(m, i, bl);
    PrismScore(lido, i, bl, s);
    var prism := AfterPrism(lido, i, LidoBlacklist(bl, i));
    AppliedScore(prism, Rule(STEAK, ULUNA, i.steakRate), s);
    AppliedScore(AfterSteak(prism, i), Rule(LUNAX, ULUNA, i.lunaxRate), s);
    CollapsedScore(Resolved(m, i, bl), s);
  }

  // ---------- in LUNA ----------

  /** The pair is blacklisted, or a denom it is converted to on the way to LUNA is. */
  ghost predicate Blocked(bl: Blacklist, a: string, d: string) {
    || Banned(bl, a, d)
    || (Derivative(d) && Banned(bl, a, ULUNA))
    || (d == NLUNA && Banned(bl, a, BLUNA))
    || (d == PLUNA && Banned(bl, a, CLUNA))
  }

  /** LUNA prices of what is not blocked; a conversion may lose a unit of its result. */
  ghost function LunaScale(i: Inputs, bl: Blacklist): Scale {
    Scale((a: string, d: string) => if Blocked(LidoBlacklist(bl, i), a, d) then 0 else LunaPrices(i)(d),
          (d: string) => if d == NLUNA then i.bRate * Dec.ONE + Dec.ONE * Dec.ONE
            else if Derivative(d) then Dec.ONE * Dec.ONE else 0)
  }

  lemma LunaScaleSuits(i: Inputs, bl: Blacklist)
    requires NonNegativeRates(i)
    ensures Suits(LunaScale(i, bl), i, bl)
  {
    hide Banned, LidoBlacklist, LunaPrices;
    var s := LunaScale(i, bl);
    LunaPrice(i);
    PricesAgree(i);
    forall a, d | Banned(bl, a, d) ensures Banned(LidoBlacklist(bl, i), a, d) {
      StillBanned(bl, i, a, d);
    }
  }

  lemma StillBanned(bl: Blacklist, i: Inputs, a: string, d: string)
    requires Banned(bl, a, d)
    ensures Banned(LidoBlacklist(bl, i), a, d)
  {
  }

  lemma PricesAgree(i: Inputs)
    requires NonNegativeRates(i)
    ensures var w := LunaPrices(i);
            && w(NLUNA) * Dec.ONE == w(BLUNA) * i.nRate && w(BLUNA) * Dec.ONE == w(ULUNA) * i.bRate
            && w(STLUNA) * Dec.ONE == w(ULUNA) * i.stRate && w(CLUNA) * Dec.ONE == w(ULUNA) * i.cRate
            && w(STEAK) * Dec.ONE == w(ULUNA) * i.steakRate && w(LUNAX) * Dec.ONE == w(ULUNA) * i.lunaxRate
            && w(PLUNA) == w(CLUNA) && w(BLUNA) == i.bRate * Dec.ONE
  {
  }

  lemma EntryScore(e: Entry, i: Inputs, bl: Blacklist, a: string)
    requires ValueOf(e) >= 0 && !Derivative(e.denom)
    ensures ScoreOf(LunaScale(i, bl), a)(e) <= Dec.ONE * Dec.ONE * AmountIn(ULUNA)(e)
  {
    hide LunaScale;
    WorthIs(i, bl, a, e.denom);
    if e.denom == ULUNA {
      Dec.MulLe(LunaScale(i, bl).worth(a, ULUNA), Dec.ONE * Dec.ONE, ValueOf(e));
    }
  }

  lemma WorthIs(i: Inputs, bl: Blacklist, a: string, d: string)
    requires !Derivative(d)
    ensures var s := LunaScale(i, bl);
            && s.toll(d) == 0 && (d != ULUNA ==> s.worth(a, d) == 0)
            && s.worth(a, ULUNA) in {0, Dec.ONE * Dec.ONE}
  {
    hide Blocked, LunaPrices;
    OtherPrices(i, d);
  }

  lemma OtherPrices(i: Inputs, d: string)
    requires !Derivative(d)
    ensures LunaPrices(i)(ULUNA) == Dec.ONE * Dec.ONE && (d != ULUNA ==> LunaPrices(i)(d) == 0)
  {
  }

  lemma {:induction false} ScoreIsLuna(es: seq<Entry>, i: Inputs, bl: Blacklist, a: string)
    requires NoDebts(es) && forall e :: e in es ==> !Derivative(e.denom)
    ensures Score(es, LunaScale(i, bl), a) <= Dec.ONE * Dec.ONE * Holding(es, ULUNA)
  {
    hide LunaScale, ScoreOf, AmountIn;
    if es != [] {
      ScoreIsLuna(es[1..], i, bl, a);
      EntryScore(es[0], i, bl, a);
    }
  }

  lemma LunaAt(m: Ledger, i: Inputs, bl: Blacklist, a: string)
    requires a in m && NoDebts(m[a]) && forall e :: e in m[a] ==> !Derivative(e.denom)
    ensures ScoreAt(m, LunaScale(i, bl))(a) <= Scaled(m)(a)
  {
    hide LunaScale, Score, Holding;
    ScoreIsLuna(m[a], i, bl, a);
    assert ScoreAt(m, LunaScale(i, bl))(a) == Score(m[a], LunaScale(i, bl), a);
    assert HoldingAt(m, ULUNA)(a) == Holding(m[a], ULUNA);
  }

  // ---------- unbonding tokens at their exact rates ----------

  /** Unbonding tokens are converted once; where LUNA is blocked they are worth nothing. */
  function UnbondingTo(balances: map<string, int>, s: Scale, rate: int): string -> int {
    (a: string) =>
      if a !in balances then 0
      else (if s.worth(a, ULUNA) == 0 then 0 else rate * Dec.ONE) * balances[a] - Dec.ONE * Dec.ONE
  }

  ghost function UnbondingScore(balances: map<string, int>, s: Scale, rate: int): int {
    SumSet(balances.Keys, UnbondingTo(balances, s, rate))
  }

  /** All that is read from contracts and added, at exact rates. */
  ghost function ExactGifts(i: Inputs, s: Scale): int {
    GiftScore(i.stHolders, s, STLUNA) + GiftScore(i.bHolders, s, BLUNA)
    + (if i.unbonding.Some? then
         UnbondingScore(i.unbonding.value.0, s, i.bRate) + UnbondingScore(i.unbonding.value.1, s, i.stRate)
       else 0)
  }

  lemma ConvertedScore(w: int, rate: int, x: int)
    requires w in {0, Dec.ONE * Dec.ONE} && rate >= 0 && x >= 0
    ensures w * AtRate(rate, x) >= (if w == 0 then 0 else rate * Dec.ONE) * x - Dec.ONE * Dec.ONE
  {
    hide AtRate;
    AtRateLoss(rate, x);
    var y := AtRate(rate, x);
    if w != 0 {
      assert rate * Dec.ONE * x == (rate * x) * Dec.ONE;
      assert w * y == (y * Dec.ONE) * Dec.ONE;
    }
  }

  lemma UnbondingAt(i: Inputs, bl: Blacklist, a: string)
    requires Genuine(i) && NonNegativeRates(i) && i.unbonding.Some? && a in UnbondingLuna(i)
    ensures var s := LunaScale(i, bl);
            GiftScoreTo(UnbondingLuna(i), s, ULUNA)(a) >=
            UnbondingTo(i.unbonding.value.0, s, i.bRate)(a) + UnbondingTo(i.unbonding.value.1, s, i.stRate)(a)
  {
    hide AtRate, LunaScale;
    var s, b, st := LunaScale(i, bl), i.unbonding.value.0, i.unbonding.value.1;
    var w := s.worth(a, ULUNA);
    WorthIs(i, bl, a, ULUNA);
    var x, y := AmountOf(ConvertAll(b, i.bRate), a), AmountOf(ConvertAll(st, i.stRate), a);
    assert UnbondingLuna(i)[a] == x + y;
    assert w * (x + y) == w * x + w * y;
    if a in b {
      ConvertedScore(w, i.bRate, b[a]);
    }
    if a in st {
      ConvertedScore(w, i.stRate, st[a]);
    }
  }

  function Both(f: string -> int, g: string -> int): string -> int {
    (a: string) => f(a) + g(a)
  }

  lemma UnbondingIsExact(i: Inputs, bl: Blacklist)
    requires Genuine(i) && NonNegativeRates(i) && i.unbonding.Some?
    ensures var s := LunaScale(i, bl);
            GiftScore(UnbondingLuna(i), s, ULUNA) >=
            UnbondingScore(i.unbonding.value.0, s, i.bRate) + UnbondingScore(i.unbonding.value.1, s, i.stRate)
  {
    hide LunaScale, AtRate, GiftScoreTo;
    var s, b, st := LunaScale(i, bl), i.unbonding.value.0, i.unbonding.value.1;
    var keys, f, g := UnbondingLuna(i).Keys, UnbondingTo(b, s, i.bRate), UnbondingTo(st, s, i.stRate);
    assert keys == b.Keys + st.Keys;
    forall a | a in keys ensures Both(f, g)(a) <= GiftScoreTo(UnbondingLuna(i), s, ULUNA)(a) {
      UnbondingAt(i, bl, a);
    }
    SumSetMonotone(keys, Both(f, g), GiftScoreTo(UnbondingLuna(i), s, ULUNA));
    SumSetSum(keys, f, g, Both(f, g));
    SumSetOver(keys, b.Keys, f);
    SumSetOver(keys, st.Keys, g);
  }

  /**
   * The export loses no more LUNA than truncation must: it ends with at least the exact value of all that
   * is not blacklisted, less one unit for each conversion of each entry.
   */
  lemma ExportKeepsLuna(m: Ledger, i: Inputs, bl: Blacklist)
    requires Solvent(m) && Genuine(i) && NonNegativeRates(i)
    ensures var s := LunaScale(i, bl);
            Dec.ONE * Dec.ONE * Total(Exported(m, i, bl), ULUNA) >= TotalScore(m, s) + ExactGifts(i, s)
  {
    hide Exported, LunaScale, Suits, Genuine, Score, Holding, GiftScore, UnbondingScore, UnbondingLuna;
    var after, s := Exported(m, i, bl), LunaScale(i, bl);
    LunaScaleSuits(i, bl);
    ExportKeepsScore(m, i, bl, s);
    if i.unbonding.Some? {
      UnbondingIsExact(i, bl);
    }
    forall a | a in after ensures ScoreAt(after, s)(a) <= Scaled(after)(a) {
      OnlyLunaLeft(m, i, bl, a);
      LunaAt(after, i, bl, a);
    }
    SumSetMonotone(after.Keys, ScoreAt(after, s), Scaled(after));
    SumScaled(after, after.Keys);
  }

  function Scaled(m: Ledger): string -> int {
    (a: string) => Dec.ONE * Dec.ONE * HoldingAt(m, ULUNA)(a)
  }

  lemma {:induction false} SumScaled(m: Ledger, keys: set<string>)
    ensures SumSet(keys, Scaled(m)) == Dec.ONE * Dec.ONE * SumSet(keys, HoldingAt(m, ULUNA))
  {
    if keys != {} {
      var x := Pick(keys);
      SumScaled(m, keys - {x});
      SumSetRemove(keys, x, Scaled(m));
      SumSetRemove(keys, x, HoldingAt(m, ULUNA));
    }
  }

  lemma OnlyLunaLeft(m: Ledger, i: Inputs, bl: Blacklist, a: string)
    requires a in Exported(m, i, bl)
    ensures forall e :: e in Exported(m, i, bl)[a] ==> !Derivative(e.denom)
  {
    hide Exported;
    forall e | e in Exported(m, i, bl)[a] ensures !Derivative(e.denom) {
      if Derivative(e.denom) {
        NoDerivativeLeft(m, i, bl, e.denom);
      }
    }
  }
}
