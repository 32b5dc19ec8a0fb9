/**
 * The reward stage of the lido exporter (app/export/lido/lido.go): it shares rewards out among the
 * holders of bLUNA and stLUNA and then drops the result, so all it leaves is its blacklist and the
 * divisions it can fail on.
 */
module LidoRewards {
  import opened Orders
  import opened Outcome
  import opened Snapshot
  import SM = SnapshotMap
  import opened Denoms
  import opened Resolve
  import opened Pipeline
  import Dec

  type Bond = Option<int>

  /**
   * What the entries of one address add up to in a denom, if there is one. A nil balance counts as not
   * yet there, until something is: adding nil to it panics.
   */
  function BondOf(es: seq<Entry>, d: string): Halting<Option<Bond>> {
    if es == [] then Ok(None)
    else
      match BondOf(es[..|es| - 1], d)
      case Err(fault) => Err(fault)
      case Ok(bond) => BondNext(bond, es[|es| - 1], d)
  }

  function BondNext(bond: Option<Bond>, e: Entry, d: string): Halting<Option<Bond>> {
    if e.denom != d then Ok(bond)
    else if bond.None? || bond.value.None? then Ok(Some(e.balance))
    else if e.balance.None? then Err(NilBalance)
    else Ok(Some(Some(bond.value.value + e.balance.value)))
  }

  /** Without nil balances the bond is the holding, for exactly the addresses with an entry. */
  lemma {:induction false} BondIsHolding(es: seq<Entry>, d: string)
    requires NilFree(es)
    ensures BondOf(es, d).Ok?
    ensures BondOf(es, d).value ==
            if forall e :: e in es ==> e.denom != d then None else Some(Some(Holding(es, d)))
  {
    if es != [] {
      var n := |es| - 1;
      assert es == es[..n] + [es[n]];
      BondIsHolding(es[..n], d);
      SumBySnoc(es[..n], es[n], AmountIn(d));
      if forall e :: e in es[..n] ==> e.denom != d {
        NothingHeld(es[..n], d);
      }
    }
  }

  lemma {:induction false} NothingHeld(es: seq<Entry>, d: string)
    requires forall e :: e in es ==> e.denom != d
    ensures Holding(es, d) == 0
  {
    SumByZero(es, AmountIn(d));
  }

  ghost predicate Bondable(m: Ledger, d: string) {
    forall a :: a in m ==> BondOf(m[a], d).Ok?
  }

  /** The bonds of a denom by address. */
  ghost function Bonds(m: Ledger, d: string): map<string, Bond>
    requires Bondable(m, d)
  {
    map a | a in m && BondOf(m[a], d).value.Some? :: BondOf(m[a], d).value.value
  }

  method BondOfList(es: seq<Entry>, d: string) returns (r: Halting<Option<Bond>>)
    ensures r == BondOf(es, d)
  {
    var bond: Option<Bond> := None;
    for k := 0 to |es|
      invariant BondOf(es[..k], d) == Ok(bond)
    {
      assert es[..k + 1][..k] == es[..k];
      if es[k].denom == d {
        if bond.None? || bond.value.None? {
          bond := Some(es[k].balance);
        } else if es[k].balance.None? {
          BondFails(es, k + 1, d);
          return Err(NilBalance);
        } else {
          bond := Some(Some(bond.value.value + es[k].balance.value));
        }
      }
    }
    assert es[..|es|] == es;
    return Ok(bond);
  }

  lemma {:induction false} BondFails(es: seq<Entry>, k: nat, d: string)
    requires k <= |es| && BondOf(es[..k], d) == Err(NilBalance)
    ensures BondOf(es, d) == Err(NilBalance)
    decreases |es|
  {
    if k == |es| {
      assert es[..k] == es;
    } else {
      assert es[..|es| - 1][..k] == es[..k];
      BondFails(es[..|es| - 1], k, d);
    }
  }

  /** Adds up the holders of a denom, in any order. */
  method GatherBonds(m: Ledger, d: string) returns (r: Halting<map<string, Bond>>)
    ensures r.Ok? <==> Bondable(m, d)
    ensures r.Ok? ==> r.value == Bonds(m, d)
  {
    hide BondOf;
    var order := RangeOrder(m.Keys);
    var bonds: map<string, Bond> := map[];
    ghost var done: set<string> := {};
    for k := 0 to |order|
      invariant forall a :: a in done <==> a in order[..k]
      invariant forall a :: a in done ==> BondOf(m[a], d).Ok?
      invariant bonds == map a | a in done && BondOf(m[a], d).value.Some? :: BondOf(m[a], d).value.value
    {
      var a := order[k];
      assert a in order && a !in order[..k];
      assert order[..k + 1] == order[..k] + [a];
      var bond := BondOfList(m[a], d);
      if bond.Err? {
        return Err(bond.error);
      }
      if bond.value.Some? {
        bonds := bonds[a := bond.value.value];
      }
      done := done + {a};
    }
    assert order[..|order|] == order;
    return Ok(bonds);
  }

  /** Every bond can be divided by the supply. */
  ghost predicate Shareable(bonds: map<string, Bond>, supply: int) {
    forall a :: a in bonds ==> supply != 0 && bonds[a].Some?
  }

  /** The rewards of each holder, by whole multiples of the supply, in any order. */
  method ShareOut(bonds: map<string, Bond>, supply: int, rewards: int) returns (r: Halting<map<string, int>>)
    ensures r.Ok? <==> Shareable(bonds, supply)
    ensures r.Ok? ==> r.value.Keys == bonds.Keys
    ensures r.Ok? ==> forall a :: a in bonds ==> r.value[a] == rewards * Dec.Quot(bonds[a].value, supply)
  {
    var order := RangeOrder(bonds.Keys);
    var shares: map<string, int> := map[];
    for k := 0 to |order|
      invariant forall a :: a in shares <==> a in order[..k]
      invariant forall a :: a in shares ==>
                  supply != 0 && bonds[a].Some? && shares[a] == rewards * Dec.Quot(bonds[a].value, supply)
    {
      var a := order[k];
      assert a in order;
      assert order[..k + 1] == order[..k] + [a];
      if supply == 0 {
        return Err(DivisionByZero);
      }
      if bonds[a].None? {
        return Err(NilBalance);
      }
      shares := shares[a := rewards * Dec.Quot(bonds[a].value, supply)];
    }
    assert order[..|order|] == order;
    return Ok(shares);
  }

  // ---------- the stage ----------

  ghost predicate Rewardable(m: Ledger, i: Inputs) {
    && Bondable(m, BLUNA) && Bondable(m, STLUNA) && i.stBond + i.bBond != 0
    && Shareable(Bonds(m, STLUNA), i.stSupply) && Shareable(Bonds(m, BLUNA), i.bSupply)
  }

  /** The shares of both rewards are computed and not used; what can fail fails, in whatever order. */
  method ExportLidoRewards(s: SM.SnapshotMap, i: Inputs, bl: Blacklist) returns (r: Halting<()>)
    modifies s
    ensures r.Ok? <==> PurgeSafe(old(s.entries), bl) && Rewardable(Purged(old(s.entries), bl), i)
    ensures r.Ok? ==> s.entries == AfterRewards(old(s.entries), bl)
  {
    hide Purged, PurgeSafe, Bondable, Bonds, Shareable;
    r := s.ApplyBlackList(bl);
    if r.Err? {
      return;
    }
    var b := GatherBonds(s.entries, BLUNA);
    if b.Err? {
      return Err(b.error);
    }
    var st := GatherBonds(s.entries, STLUNA);
    if st.Err? {
      return Err(st.error);
    }
    var total := i.stBond + i.bBond;
    if total == 0 {
      return Err(DivisionByZero);
    }
    var stShares := ShareOut(st.value, i.stSupply, i.rewards * Dec.Quot(i.stBond, total));
    if stShares.Err? {
      return Err(stShares.error);
    }
    var bShares := ShareOut(b.value, i.bSupply, i.rewards * Dec.Quot(i.bBond, total));
    if bShares.Err? {
      return Err(bShares.error);
    }
    return Ok(());
  }

  // ---------- without nil balances ----------

  /** The divisors of the stage are not zero where something is divided by them. */
  ghost predicate Divides(m: Ledger, i: Inputs) {
    && i.stBond + i.bBond != 0
    && (!Lacks(m, STLUNA) ==> i.stSupply != 0)
    && (!Lacks(m, BLUNA) ==> i.bSupply != 0)
  }

  lemma SetIsShareable(m: Ledger, d: string, supply: int)
    requires AllSet(m)
    ensures Bondable(m, d) && (Shareable(Bonds(m, d), supply) <==> (!Lacks(m, d) ==> supply != 0))
  {
    hide BondOf, Holding;
    forall a | a in m
      ensures BondOf(m[a], d).Ok?
      ensures BondOf(m[a], d).value ==
              if forall e :: e in m[a] ==> e.denom != d then None else Some(Some(Holding(m[a], d)))
    {
      BondIsHolding(m[a], d);
    }
    if !Lacks(m, d) {
      var a :| a in m && !forall e :: e in m[a] ==> e.denom != d;
      assert a in Bonds(m, d);
    }
  }

  lemma SetIsRewardable(m: Ledger, i: Inputs)
    requires AllSet(m)
    ensures Rewardable(m, i) <==> Divides(m, i)
  {
    hide AllSet, Bondable, Bonds, Shareable, Lacks;
    SetIsShareable(m, STLUNA, i.stSupply);
    SetIsShareable(m, BLUNA, i.bSupply);
  }

  // ---------- the divisors before the chain begins ----------

  /** The same, of the snapshot that enters the chain. */
  ghost predicate Divisible(m: Ledger, i: Inputs) {
    && i.stBond + i.bBond != 0
    && (!Lacks(m, STLUNA) || i.stHolders != map[] ==> i.stSupply != 0)
    && (!Lacks(m, BLUNA) || !Lacks(m, NLUNA) || i.bHolders != map[] ==> i.bSupply != 0)
  }

  lemma PurgedLacksIff(m: Ledger, bl: Blacklist, d: string)
    ensures Lacks(Purged(m, bl), d) <==> Lacks(m, d)
  {
    if Lacks(m, d) {
      PurgeLacks(m, bl, d);
    } else {
      var a, e :| a in m && e in m[a] && e.denom == d;
      var z := Zeroed(e, DenomsFor(bl, a));
      InFlatMap(m[a], ZeroedOf(DenomsFor(bl, a)), z);
      assert z in ZeroedOf(DenomsFor(bl, a))(e);
      assert z in Purged(m, bl)[a];
    }
  }

  lemma AddedLacksIff(m: Ledger, balances: map<string, int>, denom: string, d: string)
    ensures Lacks(SM.Added(m, balances, denom), d) <==> Lacks(m, d) && (d != denom || balances == map[])
  {
    var after := SM.Added(m, balances, denom);
    if !Lacks(m, d) {
      var a, e :| a in m && e in m[a] && e.denom == d;
      assert e in after[a];
    } else if d == denom && balances != map[] {
      var a :| a in balances;
      assert Entry(denom, Some(balances[a])) in after[a];
    } else if d == denom {
      assert balances.Keys == {};
    }
  }

  lemma NexusLacksIff(m: Ledger, rate: int, d: string)
    requires d != NLUNA
    ensures Lacks(Applied(m, Rule(NLUNA, BLUNA, rate)), d) <==> Lacks(m, d) && (d == BLUNA ==> Lacks(m, NLUNA))
  {
    hide AtRate;
    var rule := Rule(NLUNA, BLUNA, rate);
    forall a, e | a in m && e in m[a] ensures Rewrite(e, rule) in Applied(m, rule)[a] {
      InFlatMap(m[a], RewriteOf(rule), Rewrite(e, rule));
      assert Rewrite(e, rule) in RewriteOf(rule)(e);
    }
    forall a, e | a in m && e in Applied(m, rule)[a] ensures exists x :: x in m[a] && e == Rewrite(x, rule) {
      InFlatMap(m[a], RewriteOf(rule), e);
    }
    if !Lacks(m, d) {
      var a, e :| a in m && e in m[a] && e.denom == d;
      assert Rewrite(e, rule) in Applied(m, rule)[a];
    } else if d == BLUNA && !Lacks(m, NLUNA) {
      var a, e :| a in m && e in m[a] && e.denom == NLUNA;
      assert Rewrite(e, rule) in Applied(m, rule)[a];
    }
  }

  lemma DividesIff(m: Ledger, i: Inputs, bl: Blacklist)
    ensures Divides(Purged(AfterHolders(AfterNexus(m, i), i, bl), bl), i) <==> Divisible(m, i)
  {
    hide Lacks, Purged, SM.Added, Applied;
    forall d | d == STLUNA || d == BLUNA
      ensures Lacks(Purged(AfterHolders(AfterNexus(m, i), i, bl), bl), d) <==>
              && Lacks(m, d) && (d == BLUNA ==> Lacks(m, NLUNA) && i.bHolders == map[])
              && (d == STLUNA ==> i.stHolders == map[])
    {
      var nexus := AfterNexus(m, i);
      var one := SM.Added(nexus, i.stHolders, STLUNA);
      var two := SM.Added(Purged(one, bl), i.bHolders, BLUNA);
      NexusLacksIff(m, i.nRate, d);
      AddedLacksIff(nexus, i.stHolders, STLUNA, d);
      PurgedLacksIff(one, bl, d);
      AddedLacksIff(Purged(one, bl), i.bHolders, BLUNA, d);
      PurgedLacksIff(two, bl, d);
      PurgedLacksIff(Purged(two, bl), bl, d);
    }
  }

  /** All stages in order, then a merge with an empty snapshot to collapse the entries. */
  method ResolveAll(s: SM.SnapshotMap, i: Inputs, bl: Blacklist) returns (r: Halting<SM.SnapshotMap>)
    modifies s
    ensures r.Ok? ==> fresh(r.value) && r.value.entries == Exported(old(s.entries), i, bl)
    ensures AllSet(old(s.entries)) ==> (r.Ok? <==> Divisible(old(s.entries), i))
  {
    hide AllSet, SetIn, AfterNexus, AfterHolders, AfterLido, AfterPrism, Applied, Purged, Merged, Divides, Divisible,
         Rewardable, PurgeSafe;
    DividesIff(s.entries, i, bl);
    var step := ResolveToBLuna(s, i);
    if step.Err? {
      return Err(step.error);
    }
    step := ExportBSTLunaHolders(s, i, bl);
    if step.Err? {
      return Err(step.error);
    }
    PurgedSet(s.entries, bl);
    SetThenRewardable(Purged(s.entries, bl), i);
    step := ExportLidoRewards(s, i, bl);
    if step.Err? {
      return Err(step.error);
    }
    step := ResolveRest(s, i, bl);
    if step.Err? {
      return Err(step.error);
    }
    var empty := new SM.SnapshotMap();
    var merged := SM.SnapshotMap.MergeSnapshots([empty, s]);
    assert SM.Views([empty, s]) == [empty.entries, s.entries];
    return Ok(merged);
  }

  lemma SetThenRewardable(m: Ledger, i: Inputs)
    ensures AllSet(m) ==> (Rewardable(m, i) <==> Divides(m, i))
  {
    if AllSet(m) {
      SetIsRewardable(m, i);
    }
  }

  /** The stages after the rewards. */
  method ResolveRest(s: SM.SnapshotMap, i: Inputs, bl: Blacklist) returns (r: Halting<()>)
    modifies s
    ensures var lido := AfterLido(old(s.entries), i, bl);
            r.Ok? ==> s.entries == AfterStader(AfterSteak(AfterPrism(lido, i, LidoBlacklist(bl, i)), i), i)
    ensures AllSet(old(s.entries)) ==> r.Ok?
  {
    hide AllSet, SetIn, AfterLido, AfterPrism, Applied;
    var lido := ResolveLidoLuna(s, i, bl);
    if lido.Err? {
      return Err(lido.error);
    }
    r := ResolvePrism(s, i, lido.value);
    if r.Err? {
      return;
    }
    StaysSet(s.entries, Rule(STEAK, ULUNA, i.steakRate));
    r := RewriteDenom(s, Rule(STEAK, ULUNA, i.steakRate));
    if r.Err? {
      return;
    }
    StaysSet(s.entries, Rule(LUNAX, ULUNA, i.lunaxRate));
    r := RewriteDenom(s, Rule(LUNAX, ULUNA, i.lunaxRate));
  }
}
