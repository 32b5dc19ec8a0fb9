/**
 * Where the exported LUNA of an address comes from (app/export/contract_export.go, app/export/lido/lido.go):
 * entry by entry, at the exchange rates, with every pair that is blacklisted before its conversion left out.
 */
module LunaLaws {
  import opened Orders
  import opened Outcome
  import opened Snapshot
  import SM = SnapshotMap
  import opened Denoms
  import opened Resolve
  import opened Pipeline
  import Dec

  type Valuation = Entry -> int

  ghost function Valued(m: Ledger, a: string, v: Valuation): int {
    SumBy(EntriesAt(m, a), v)
  }

  // ---------- one step back ----------

  function BeforeRewrite(v: Valuation, rule: Rule): Valuation {
    (e: Entry) => v(Rewrite(e, rule))
  }

  function BeforeSwap(v: Valuation): Valuation {
    (e: Entry) => v(Relabel(e))
  }

  ghost function BeforePurge(v: Valuation, denoms: set<string>): Valuation {
    (e: Entry) => v(Zeroed(e, denoms))
  }

  lemma RewriteValued(m: Ledger, rule: Rule, a: string, v: Valuation)
    ensures Valued(Applied(m, rule), a, v) == Valued(m, a, BeforeRewrite(v, rule))
  {
    SumByFlatMap(EntriesAt(m, a), RewriteOf(rule), v, BeforeRewrite(v, rule));
  }

  lemma SwapValued(m: Ledger, a: string, v: Valuation)
    ensures Valued(Swapped(m), a, v) == Valued(m, a, BeforeSwap(v))
  {
    SumByFlatMap(EntriesAt(m, a), RelabelOf(), v, BeforeSwap(v));
  }

  lemma PurgeValued(m: Ledger, bl: Blacklist, a: string, v: Valuation)
    ensures Valued(Purged(m, bl), a, v) == Valued(m, a, BeforePurge(v, DenomsFor(bl, a)))
  {
    SumByFlatMap(EntriesAt(m, a), ZeroedOf(DenomsFor(bl, a)), v, BeforePurge(v, DenomsFor(bl, a)));
  }

  lemma AddValued(m: Ledger, balances: map<string, int>, d: string, a: string, v: Valuation)
    requires v(Entry(d, Some(0))) == 0
    ensures Valued(SM.Added(m, balances, d), a, v) == Valued(m, a, v) + v(Entry(d, Some(AmountOf(balances, a))))
  {
    var es, es' := EntriesAt(m, a), EntriesAt(SM.Added(m, balances, d), a);
    if a in balances {
      assert es' == es + [Entry(d, Some(balances[a]))];
      SumBySnoc(es, Entry(d, Some(balances[a])), v);
    } else {
      assert es' == es;
    }
  }

  lemma SameValued(m: Ledger, a: string, v: Valuation, w: Valuation)
    requires forall e :: v(e) == w(e)
    ensures Valued(m, a, v) == Valued(m, a, w)
  {
    SumByEqual(EntriesAt(m, a), v, w);
  }

  // ---------- what an entry is worth in the end ----------

  /** The LUNA of an address does not count: it is blacklisted, or it is the hub once its unbonding tokens are paid. */
  ghost predicate Blocked(i: Inputs, bl: Blacklist, a: string) {
    Banned(bl, a, ULUNA) || (i.unbonding.Some? && a == LIDO_HUB)
  }

  function Unless(off: bool, x: int): int {
    if off then 0 else x
  }

  /** From prism on: LUNA, cLUNA, pLUNA, STEAK and LunaX. */
  ghost function LateOf(i: Inputs, bl: Blacklist, blocked: bool, a: string, d: string, x: int): int {
    if d == ULUNA then Unless(blocked, x)
    else if d == CLUNA then Unless(Banned(bl, a, CLUNA), AtRate(i.cRate, x))
    else if d == PLUNA then Unless(Banned(bl, a, PLUNA) || Banned(bl, a, CLUNA), AtRate(i.cRate, x))
    else if d == STEAK then Unless(Banned(bl, a, STEAK), AtRate(i.steakRate, x))
    else if d == LUNAX then Unless(Banned(bl, a, LUNAX), AtRate(i.lunaxRate, x))
    else 0
  }

  /** What `x` of a denom, held before any stage, comes to: every derivative goes through its own conversions. */
  ghost function LunaOf(i: Inputs, bl: Blacklist, a: string, d: string, x: int): int {
    var blocked := Blocked(i, bl, a);
    if d == BLUNA then Unless(Banned(bl, a, BLUNA) || blocked, AtRate(i.bRate, x))
    else if d == STLUNA then Unless(Banned(bl, a, STLUNA) || blocked, AtRate(i.stRate, x))
    else if d == NLUNA then Unless(Banned(bl, a, BLUNA) || blocked, AtRate(i.bRate, AtRate(i.nRate, x)))
    else LateOf(i, bl, blocked, a, d, x)
  }

  ghost function Late(i: Inputs, bl: Blacklist, blocked: bool, a: string): Valuation {
    (e: Entry) => LateOf(i, bl, blocked, a, e.denom, ValueOf(e))
  }

  ghost function FinalLuna(i: Inputs, bl: Blacklist, a: string): Valuation {
    (e: Entry) => LunaOf(i, bl, a, e.denom, ValueOf(e))
  }

  /** The last three rewrites. */
  ghost function LastSteps(i: Inputs): Valuation {
    var c, steak, lunax := Rule(CLUNA, ULUNA, i.cRate), Rule(STEAK, ULUNA, i.steakRate), Rule(LUNAX, ULUNA,
        i.lunaxRate);
    BeforeRewrite(BeforeRewrite(BeforeRewrite(AmountIn(ULUNA), lunax), steak), c)
  }

  lemma Names()
    ensures NLUNA != BLUNA && NLUNA != STLUNA && NLUNA != CLUNA && NLUNA != PLUNA && NLUNA != STEAK && NLUNA != LUNAX
    ensures BLUNA != STLUNA && BLUNA != CLUNA && BLUNA != PLUNA && BLUNA != STEAK && BLUNA != LUNAX
    ensures STLUNA != CLUNA && STLUNA != PLUNA && STLUNA != STEAK && STLUNA != LUNAX
    ensures CLUNA != PLUNA && CLUNA != STEAK && CLUNA != LUNAX && PLUNA != STEAK && PLUNA != LUNAX && STEAK != LUNAX
    ensures ULUNA !in {NLUNA, BLUNA, STLUNA, CLUNA, PLUNA, STEAK, LUNAX}
  {
    assert NLUNA[1] == 'n' && BLUNA[1] == 'b' && STLUNA[1] == 's' && CLUNA[1] == 'c' && PLUNA[1] == 'p';
    assert ULUNA[1] == 'l' && LUNAX[1] == 'l' && STEAK[1] == 's' && |LUNAX| == 6 && |ULUNA| == 5;
    assert |STEAK| == 6 && |STLUNA| == 7;
  }

  lemma LastStepsAre(i: Inputs, e: Entry)
    ensures LastSteps(i)(e) ==
            if e.denom == ULUNA then ValueOf(e)
            else if e.denom == CLUNA then AtRate(i.cRate, ValueOf(e))
            else if e.denom == STEAK then AtRate(i.steakRate, ValueOf(e))
            else if e.denom == LUNAX then AtRate(i.lunaxRate, ValueOf(e))
            else 0
  {
    hide AtRate;
    Names();
    var c, steak, lunax := Rule(CLUNA, ULUNA, i.cRate), Rule(STEAK, ULUNA, i.steakRate), Rule(LUNAX, ULUNA,
        i.lunaxRate);
    var e' := Rewrite(Rewrite(Rewrite(e, c), steak), lunax);
    assert LastSteps(i)(e) == AmountIn(ULUNA)(e');
  }

  ghost function LateSteps(i: Inputs, denoms: set<string>): Valuation {
    BeforePurge(BeforeSwap(BeforePurge(LastSteps(i), denoms)), denoms)
  }

  lemma LateStepsAre(i: Inputs, bl: Blacklist, a: string, e: Entry)
    ensures LateSteps(i, DenomsFor(bl, a))(e) == Late(i, bl, Banned(bl, a, ULUNA), a)(e)
  {
    hide AtRate, LastSteps;
    NothingAt(i.cRate);
    NothingAt(i.steakRate);
    NothingAt(i.lunaxRate);
    Names();
    var ds := DenomsFor(bl, a);
    LastStepsAre(i, Zeroed(Relabel(Zeroed(e, ds)), ds));
  }

  lemma NothingAt(rate: int)
    ensures AtRate(rate, 0) == 0
  {
    assert rate * 0 == 0;
  }

  // ---------- the stages ----------

  lemma PrismOn(m: Ledger, i: Inputs, bl: Blacklist, a: string)
    ensures Held(AfterStader(AfterSteak(AfterPrism(m, i, bl), i), i), a, ULUNA) ==
            Valued(m, a, Late(i, bl, Banned(bl, a, ULUNA), a))
  {
    hide Applied, Purged, Swapped, Late, Valued;
    var c, steak, lunax := Rule(CLUNA, ULUNA, i.cRate), Rule(STEAK, ULUNA, i.steakRate), Rule(LUNAX, ULUNA,
        i.lunaxRate);
    var m1, ds := Purged(m, bl), DenomsFor(bl, a);
    var m2 := Purged(Swapped(m1), bl);
    var m3 := Applied(m2, c);
    HeldIsValued(Applied(Applied(m3, steak), lunax), a);
    RewriteValued(Applied(m3, steak), lunax, a, AmountIn(ULUNA));
    RewriteValued(m3, steak, a, BeforeRewrite(AmountIn(ULUNA), lunax));
    RewriteValued(m2, c, a, BeforeRewrite(BeforeRewrite(AmountIn(ULUNA), lunax), steak));
    PurgeValued(Swapped(m1), bl, a, LastSteps(i));
    SwapValued(m1, a, BeforePurge(LastSteps(i), ds));
    PurgeValued(m, bl, a, BeforeSwap(BeforePurge(LastSteps(i), ds)));
    forall e ensures LateSteps(i, ds)(e) == Late(i, bl, Banned(bl, a, ULUNA), a)(e) {
      LateStepsAre(i, bl, a, e);
    }
    SameValued(m, a, LateSteps(i, ds), Late(i, bl, Banned(bl, a, ULUNA), a));
  }

  lemma HeldIsValued(m: Ledger, a: string)
    ensures Held(m, a, ULUNA) == Valued(m, a, AmountIn(ULUNA))
  {
  }

  /** The blacklist prism is given bans one more pair, if at all. */
  lemma LateBan(i: Inputs, bl: Blacklist, a: string, e: Entry)
    ensures Late(i, LidoBlacklist(bl, i), Banned(LidoBlacklist(bl, i), a, ULUNA), a)(e) ==
            Late(i, bl, Blocked(i, bl, a), a)(e)
  {
    hide AtRate;
    Names();
    SameBan(bl, i, a, CLUNA);
    SameBan(bl, i, a, PLUNA);
    SameBan(bl, i, a, STEAK);
    SameBan(bl, i, a, LUNAX);
  }

  /** After nexus, nLUNA is no longer converted. */
  ghost function Middle(i: Inputs, bl: Blacklist, a: string): Valuation {
    (e: Entry) => if e.denom == NLUNA then 0 else LunaOf(i, bl, a, e.denom, ValueOf(e))
  }

  ghost function LidoSteps(i: Inputs, bl: Blacklist, a: string): Valuation {
    var b, st := Rule(BLUNA, ULUNA, i.bRate), Rule(STLUNA, ULUNA, i.stRate);
    BeforePurge(BeforeRewrite(BeforeRewrite(Late(i, bl, Blocked(i, bl, a), a), st), b), DenomsFor(bl, a))
  }

  lemma LidoStepsAre(i: Inputs, bl: Blacklist, a: string, e: Entry)
    ensures LidoSteps(i, bl, a)(e) == Middle(i, bl, a)(e)
  {
    hide AtRate;
    Names();
    Nothings(i);
    var b, st := Rule(BLUNA, ULUNA, i.bRate), Rule(STLUNA, ULUNA, i.stRate);
    var e' := Rewrite(Rewrite(Zeroed(e, DenomsFor(bl, a)), b), st);
    assert LidoSteps(i, bl, a)(e) == Late(i, bl, Blocked(i, bl, a), a)(e');
  }

  lemma Nothings(i: Inputs)
    ensures AtRate(i.cRate, 0) == 0 && AtRate(i.steakRate, 0) == 0 && AtRate(i.lunaxRate, 0) == 0
    ensures AtRate(i.bRate, 0) == 0 && AtRate(i.stRate, 0) == 0 && AtRate(i.nRate, 0) == 0
  {
    NothingAt(i.cRate);
    NothingAt(i.steakRate);
    NothingAt(i.lunaxRate);
    NothingAt(i.bRate);
    NothingAt(i.stRate);
    NothingAt(i.nRate);
  }

  lemma MiddlePurged(i: Inputs, bl: Blacklist, a: string, e: Entry)
    ensures BeforePurge(Middle(i, bl, a), DenomsFor(bl, a))(e) == Middle(i, bl, a)(e)
    ensures Middle(i, bl, a)(Entry(e.denom, Some(0))) == 0
  {
    hide AtRate;
    Names();
    Nothings(i);
    var z := Zeroed(e, DenomsFor(bl, a));
    assert BeforePurge(Middle(i, bl, a), DenomsFor(bl, a))(e) == Middle(i, bl, a)(z);
  }

  lemma NexusIs(i: Inputs, bl: Blacklist, a: string, e: Entry)
    ensures BeforeRewrite(Middle(i, bl, a), Rule(NLUNA, BLUNA, i.nRate))(e) == FinalLuna(i, bl, a)(e)
  {
    hide AtRate;
    Names();
    var e' := Rewrite(e, Rule(NLUNA, BLUNA, i.nRate));
    assert BeforeRewrite(Middle(i, bl, a), Rule(NLUNA, BLUNA, i.nRate))(e) == Middle(i, bl, a)(e');
  }

  /** What an address gets of its unbonding tokens, at the rates of the two tokens. */
  ghost function Unbonded(i: Inputs, a: string): int {
    if i.unbonding.None? then 0
    else AtRate(i.bRate, AmountOf(i.unbonding.value.0, a)) + AtRate(i.stRate, AmountOf(i.unbonding.value.1, a))
  }

  lemma UnbondedIs(i: Inputs, a: string)
    requires i.unbonding.Some?
    ensures AmountOf(UnbondingLuna(i), a) == Unbonded(i, a)
  {
    hide AtRate;
    Nothings(i);
  }

  lemma LidoOn(m: Ledger, i: Inputs, bl: Blacklist, a: string)
    ensures Valued(AfterLido(m, i, bl), a, Late(i, bl, Blocked(i, bl, a), a)) ==
            Valued(m, a, Middle(i, bl, a)) + Unless(Blocked(i, bl, a), Unbonded(i, a))
  {
    hide Applied, Purged, SM.Added, Valued, Middle, Unbonded, UnbondingLuna, AmountOf;
    var late := Late(i, bl, Blocked(i, bl, a), a);
    var b, st := Rule(BLUNA, ULUNA, i.bRate), Rule(STLUNA, ULUNA, i.stRate);
    var m1 := Purged(m, bl);
    var m2 := Applied(m1, b);
    if i.unbonding.Some? {
      AddValued(Applied(m2, st), UnbondingLuna(i), ULUNA, a, late);
      UnbondedIs(i, a);
    } else {
      NothingUnbonded(i, a);
    }
    RewriteValued(m2, st, a, late);
    RewriteValued(m1, b, a, BeforeRewrite(late, st));
    PurgeValued(m, bl, a, BeforeRewrite(BeforeRewrite(late, st), b));
    forall e ensures LidoSteps(i, bl, a)(e) == Middle(i, bl, a)(e) {
      LidoStepsAre(i, bl, a, e);
    }
    SameValued(m, a, LidoSteps(i, bl, a), Middle(i, bl, a));
  }

  lemma NothingUnbonded(i: Inputs, a: string)
    requires i.unbonding.None?
    ensures Unbonded(i, a) == 0
  {
  }

  lemma PurgedMiddle(m: Ledger, i: Inputs, bl: Blacklist, a: string)
    ensures Valued(Purged(m, bl), a, Middle(i, bl, a)) == Valued(m, a, Middle(i, bl, a))
  {
    hide Purged, Valued, Middle;
    PurgeValued(m, bl, a, Middle(i, bl, a));
    forall e ensures BeforePurge(Middle(i, bl, a), DenomsFor(bl, a))(e) == Middle(i, bl, a)(e) {
      MiddlePurged(i, bl, a, e);
    }
    SameValued(m, a, BeforePurge(Middle(i, bl, a), DenomsFor(bl, a)), Middle(i, bl, a));
  }

  lemma HoldersOn(m: Ledger, i: Inputs, bl: Blacklist, a: string)
    ensures Valued(AfterRewards(AfterHolders(m, i, bl), bl), a, Middle(i, bl, a)) ==
            Valued(m, a, Middle(i, bl, a)) + LunaOf(i, bl, a, STLUNA, AmountOf(i.stHolders, a)) +
            LunaOf(i, bl, a, BLUNA, AmountOf(i.bHolders, a))
  {
    hide Purged, SM.Added, Valued, LunaOf, AmountOf;
    Names();
    var m1 := SM.Added(m, i.stHolders, STLUNA);
    var m2 := SM.Added(Purged(m1, bl), i.bHolders, BLUNA);
    MiddlePurged(i, bl, a, Entry(STLUNA, None));
    MiddlePurged(i, bl, a, Entry(BLUNA, None));
    AddValued(m, i.stHolders, STLUNA, a, Middle(i, bl, a));
    PurgedMiddle(m1, i, bl, a);
    AddValued(Purged(m1, bl), i.bHolders, BLUNA, a, Middle(i, bl, a));
    PurgedMiddle(m2, i, bl, a);
    PurgedMiddle(Purged(m2, bl), i, bl, a);
  }

  lemma NexusOn(m: Ledger, i: Inputs, bl: Blacklist, a: string)
    ensures Valued(AfterNexus(m, i), a, Middle(i, bl, a)) == Valued(m, a, FinalLuna(i, bl, a))
  {
    hide Applied, Valued, Middle, FinalLuna;
    RewriteValued(m, Rule(NLUNA, BLUNA, i.nRate), a, Middle(i, bl, a));
    forall e ensures BeforeRewrite(Middle(i, bl, a), Rule(NLUNA, BLUNA, i.nRate))(e) == FinalLuna(i, bl, a)(e) {
      NexusIs(i, bl, a, e);
    }
    SameValued(m, a, BeforeRewrite(Middle(i, bl, a), Rule(NLUNA, BLUNA, i.nRate)), FinalLuna(i, bl, a));
  }

  /**
   * The exported LUNA of an address is exactly what its own entries, the tokens the hub holds for it and its
   * unbonding tokens come to, each through its own conversions and each only if its pair is not blacklisted.
   */
  lemma ExportedLuna(m: Ledger, i: Inputs, bl: Blacklist, a: string)
    ensures Held(Exported(m, i, bl), a, ULUNA) ==
            SumBy(EntriesAt(m, a), FinalLuna(i, bl, a))
            + LunaOf(i, bl, a, STLUNA, AmountOf(i.stHolders, a))
            + LunaOf(i, bl, a, BLUNA, AmountOf(i.bHolders, a))
            + Unless(Blocked(i, bl, a), Unbonded(i, a))
  {
    hide Held, AfterNexus, AfterHolders, AfterRewards, AfterLido, AfterPrism, AfterSteak, AfterStader, Merged, Late,
      LunaOf, FinalLuna, LidoBlacklist, AmountOf, Unbonded, Banned;
    var blocked := Blocked(i, bl, a);
    var held := AfterRewards(AfterHolders(AfterNexus(m, i), i, bl), bl);
    var lido, bl' := AfterLido(held, i, bl), LidoBlacklist(bl, i);
    CollapseHeld(Resolved(m, i, bl), a, ULUNA);
    PrismOn(lido, i, bl', a);
    forall e ensures Late(i, bl', Banned(bl', a, ULUNA), a)(e) == Late(i, bl, blocked, a)(e) {
      LateBan(i, bl, a, e);
    }
    SameValued(lido, a, Late(i, bl', Banned(bl', a, ULUNA), a), Late(i, bl, blocked, a));
    LidoOn(held, i, bl, a);
    HoldersOn(AfterNexus(m, i), i, bl, a);
    NexusOn(m, i, bl, a);
    Names();
  }

  /** Adding the holders of stLUNA and bLUNA gives each of them its tokens, unless the pair is blacklisted. */
  lemma HoldersAre(m: Ledger, i: Inputs, bl: Blacklist, a: string, d: string)
    ensures Held(AfterHolders(m, i, bl), a, d) ==
            Unless(Banned(bl, a, d),
                   Held(m, a, d) + (if d == STLUNA then AmountOf(i.stHolders, a) else 0) +
                   (if d == BLUNA then AmountOf(i.bHolders, a) else 0))
  {
    hide Purged, SM.Added, AmountOf, Banned;
    Names();
    var m1 := SM.Added(m, i.stHolders, STLUNA);
    var m2 := SM.Added(Purged(m1, bl), i.bHolders, BLUNA);
    AddValued(m, i.stHolders, STLUNA, a, AmountIn(d));
    PurgeHeld(m1, bl, a, d);
    AddValued(Purged(m1, bl), i.bHolders, BLUNA, a, AmountIn(d));
    PurgeHeld(m2, bl, a, d);
  }

  // ---------- at exact rates ----------

  const UNIT: int := Dec.ONE * Dec.ONE

  /** What one unit of a denom is worth to an address at exact rates, in units of 10^-36 LUNA. */
  ghost function Price(i: Inputs, bl: Blacklist, a: string, d: string): int {
    var blocked := Blocked(i, bl, a);
    if d == ULUNA then Unless(blocked, UNIT)
    else if d == BLUNA then Unless(Banned(bl, a, BLUNA) || blocked, i.bRate * Dec.ONE)
    else if d == STLUNA then Unless(Banned(bl, a, STLUNA) || blocked, i.stRate * Dec.ONE)
    else if d == NLUNA then Unless(Banned(bl, a, BLUNA) || blocked, i.bRate * i.nRate)
    else if d == CLUNA then Unless(Banned(bl, a, CLUNA), i.cRate * Dec.ONE)
    else if d == PLUNA then Unless(Banned(bl, a, PLUNA) || Banned(bl, a, CLUNA), i.cRate * Dec.ONE)
    else if d == STEAK then Unless(Banned(bl, a, STEAK), i.steakRate * Dec.ONE)
    else if d == LUNAX then Unless(Banned(bl, a, LUNAX), i.lunaxRate * Dec.ONE)
    else 0
  }

  ghost predicate Rated(i: Inputs) {
    i.nRate >= 0 && i.bRate >= 0 && i.stRate >= 0 && i.cRate >= 0 && i.steakRate >= 0 && i.lunaxRate >= 0
  }

  /** The most two conversions in a row can lose of one entry. */
  ghost function Toll(i: Inputs): int {
    UNIT + i.bRate * Dec.ONE
  }

  lemma OneConversion(i: Inputs, rate: int, x: int)
    requires Rated(i) && rate >= 0 && x >= 0
    ensures 0 <= (rate * Dec.ONE) * x - AtRate(rate, x) * UNIT <= Toll(i)
  {
    hide AtRate;
    AtRateLoss(rate, x);
    assert (rate * Dec.ONE) * x == (rate * x) * Dec.ONE;
  }

  lemma TwoConversions(i: Inputs, x: int)
    requires Rated(i) && x >= 0
    ensures 0 <= (i.bRate * i.nRate) * x - AtRate(i.bRate, AtRate(i.nRate, x)) * UNIT <= Toll(i)
  {
    hide AtRate;
    var y := AtRate(i.nRate, x);
    AtRateLoss(i.nRate, x);
    AtRateLoss(i.bRate, y);
    Dec.MulLe2(i.bRate, y * Dec.ONE, i.nRate * x);
    Dec.MulLe2(i.bRate, i.nRate * x, y * Dec.ONE + Dec.ONE);
    assert i.bRate * (y * Dec.ONE) == (i.bRate * y) * Dec.ONE;
    assert i.bRate * (y * Dec.ONE + Dec.ONE) == (i.bRate * y) * Dec.ONE + i.bRate * Dec.ONE;
    assert i.bRate * (i.nRate * x) == (i.bRate * i.nRate) * x;
  }

  /** One amount comes to its exact worth but for the truncation of its conversions. */
  lemma LunaWithin(i: Inputs, bl: Blacklist, a: string, d: string, x: int)
    requires Rated(i) && x >= 0
    ensures 0 <= Price(i, bl, a, d) * x - LunaOf(i, bl, a, d, x) * UNIT <= Toll(i)
  {
    hide AtRate, Banned;
    OneConversion(i, i.bRate, x);
    OneConversion(i, i.stRate, x);
    OneConversion(i, i.cRate, x);
    OneConversion(i, i.steakRate, x);
    OneConversion(i, i.lunaxRate, x);
    TwoConversions(i, x);
    assert 0 * x == 0;
  }

  ghost function Priced(i: Inputs, bl: Blacklist, a: string): Valuation {
    (e: Entry) => Price(i, bl, a, e.denom) * ValueOf(e)
  }

  lemma {:induction false} EntriesWithin(es: seq<Entry>, i: Inputs, bl: Blacklist, a: string)
    requires Rated(i) && forall e :: e in es ==> ValueOf(e) >= 0
    ensures 0 <= SumBy(es, Priced(i, bl, a)) - SumBy(es, FinalLuna(i, bl, a)) * UNIT <= |es| * Toll(i)
  {
    hide LunaOf, Price, Toll;
    if es != [] {
      EntriesWithin(es[1..], i, bl, a);
      LunaWithin(i, bl, a, es[0].denom, ValueOf(es[0]));
      assert |es| * Toll(i) == |es[1..]| * Toll(i) + Toll(i);
    }
  }

  /** The exact worth of the unbonding tokens of an address. */
  ghost function DueUnbonding(i: Inputs, bl: Blacklist, a: string): int {
    if i.unbonding.None? || Blocked(i, bl, a) then 0
    else
      i.bRate * Dec.ONE * AmountOf(i.unbonding.value.0, a) + i.stRate * Dec.ONE * AmountOf(i.unbonding.value.1, a)
  }

  lemma UnbondedWithin(i: Inputs, bl: Blacklist, a: string)
    requires Rated(i) && Gifts(i, a)
    ensures 0 <= DueUnbonding(i, bl, a) - Unless(Blocked(i, bl, a), Unbonded(i, a)) * UNIT <= 2 * Toll(i)
  {
    hide AtRate, Toll, Blocked, AmountOf;
    if i.unbonding.Some? {
      OneConversion(i, i.bRate, AmountOf(i.unbonding.value.0, a));
      OneConversion(i, i.stRate, AmountOf(i.unbonding.value.1, a));
    } else {
      OneConversion(i, 0, 0);
    }
  }

  /** The exact worth of all that counts for an address: its entries, the hub's tokens for it, its unbonding tokens. */
  ghost function Due(m: Ledger, i: Inputs, bl: Blacklist, a: string): int {
    SumBy(EntriesAt(m, a), Priced(i, bl, a))
    + Price(i, bl, a, STLUNA) * AmountOf(i.stHolders, a)
    + Price(i, bl, a, BLUNA) * AmountOf(i.bHolders, a)
    + DueUnbonding(i, bl, a)
  }

  ghost predicate Gifts(i: Inputs, a: string) {
    && AmountOf(i.stHolders, a) >= 0 && AmountOf(i.bHolders, a) >= 0
    && (i.unbonding.Some? ==> AmountOf(i.unbonding.value.0, a) >= 0 && AmountOf(i.unbonding.value.1, a) >= 0)
  }

  /** Every address is exported what is due to it, never more, and less by at most one toll per amount converted. */
  lemma ExportedIsDue(m: Ledger, i: Inputs, bl: Blacklist, a: string)
    requires Rated(i) && Gifts(i, a) && forall e :: e in EntriesAt(m, a) ==> ValueOf(e) >= 0
    ensures 0 <= Due(m, i, bl, a) - Held(Exported(m, i, bl), a, ULUNA) * UNIT <= (|EntriesAt(m, a)| + 4) * Toll(i)
  {
    hide Exported, Held, LunaOf, Price, Toll, AtRate, Blocked, AmountOf, DueUnbonding, Unbonded, Priced, Unless;
    ExportedLuna(m, i, bl, a);
    EntriesWithin(EntriesAt(m, a), i, bl, a);
    LunaWithin(i, bl, a, STLUNA, AmountOf(i.stHolders, a));
    LunaWithin(i, bl, a, BLUNA, AmountOf(i.bHolders, a));
    var n, toll := |EntriesAt(m, a)|, Toll(i);
    UnbondedWithin(i, bl, a);
    assert (n + 4) * toll == n * toll + 4 * toll;
  }

  // ---------- the hub ----------

  /** cLUNA, pLUNA, STEAK and LunaX only. */
  ghost function HubLuna(i: Inputs, bl: Blacklist): Valuation {
    (e: Entry) =>
      if e.denom in {CLUNA, PLUNA, STEAK, LUNAX} then LunaOf(i, bl, LIDO_HUB, e.denom, ValueOf(e)) else 0
  }

  /** With unbonding data the hub is left with nothing but what its own cLUNA, pLUNA, STEAK and LunaX come to. */
  lemma HubKeepsOnly(m: Ledger, i: Inputs, bl: Blacklist)
    requires i.unbonding.Some?
    ensures Held(Exported(m, i, bl), LIDO_HUB, ULUNA) == SumBy(EntriesAt(m, LIDO_HUB), HubLuna(i, bl))
  {
    hide Exported, Held, AtRate, Banned;
    Names();
    ExportedLuna(m, i, bl, LIDO_HUB);
    SumByEqual(EntriesAt(m, LIDO_HUB), FinalLuna(i, bl, LIDO_HUB), HubLuna(i, bl));
  }

  /**
   * A blacklisted holding adds nothing, whatever its size. The chain begins with a snapshot to which the blacklist was
   * applied; nLUNA, the first to be converted, relies on that.
   */
  lemma BannedAddsNothing(m: Ledger, m': Ledger, i: Inputs, bl: Blacklist, a: string, d: string, x: int)
    requires Banned(bl, a, d) && EntriesAt(m', a) == EntriesAt(m, a) + [Entry(d, Some(x))]
    ensures d != NLUNA ==> Held(Exported(m', i, bl), a, ULUNA) == Held(Exported(m, i, bl), a, ULUNA)
    ensures Held(Exported(Purged(m', bl), i, bl), a, ULUNA) == Held(Exported(Purged(m, bl), i, bl), a, ULUNA)
  {
    hide Exported, Held, LunaOf, Purged, Blacklisted;
    if d != NLUNA {
      BannedIsNothing(i, bl, a, d, x);
      WorthlessEntry(m, m', i, bl, a, Entry(d, Some(x)));
    }
    var es, ds := EntriesAt(m, a), DenomsFor(bl, a);
    PurgedEntries(m, bl, a);
    PurgedEntries(m', bl, a);
    OneZeroed(es, Entry(d, Some(x)), ds);
    ZeroIsNothing(i, bl, a, d);
    WorthlessEntry(Purged(m, bl), Purged(m', bl), i, bl, a, Entry(d, Some(0)));
  }

  lemma OneZeroed(es: seq<Entry>, e: Entry, denoms: set<string>)
    requires e.denom in denoms
    ensures Blacklisted(es + [e], denoms) == Blacklisted(es, denoms) + [Entry(e.denom, Some(0))]
  {
    FlatMapAppend(es, [e], ZeroedOf(denoms));
  }

  lemma BannedIsNothing(i: Inputs, bl: Blacklist, a: string, d: string, x: int)
    requires Banned(bl, a, d) && d != NLUNA
    ensures LunaOf(i, bl, a, d, x) == 0
  {
    hide AtRate;
  }

  lemma ZeroIsNothing(i: Inputs, bl: Blacklist, a: string, d: string)
    ensures LunaOf(i, bl, a, d, 0) == 0
  {
    hide AtRate, Banned;
    Nothings(i);
  }

  lemma WorthlessEntry(m: Ledger, m': Ledger, i: Inputs, bl: Blacklist, a: string, e: Entry)
    requires EntriesAt(m', a) == EntriesAt(m, a) + [e] && LunaOf(i, bl, a, e.denom, ValueOf(e)) == 0
    ensures Held(Exported(m', i, bl), a, ULUNA) == Held(Exported(m, i, bl), a, ULUNA)
  {
    hide Exported, Held, LunaOf;
    ExportedLuna(m, i, bl, a);
    ExportedLuna(m', i, bl, a);
    SumBySnoc(EntriesAt(m, a), e, FinalLuna(i, bl, a));
  }
}
