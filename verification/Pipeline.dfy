/**
 * The liquid staking part of the export, in its fixed order (app/export/contract_export.go): nexus,
 * lido holders, lido rewards, lido, prism, steak, stader, and the final collapse.
 */
module Pipeline {
  import opened Orders
  import opened Outcome
  import opened Snapshot
  import SM = SnapshotMap
  import opened Denoms
  import opened Resolve

  /** What the exporter reads from contracts: rates, holders, bonds, supplies, rewards and unbonding tokens. */
  datatype Inputs = Inputs(
    nRate: int,
    bRate: int,
    stRate: int,
    cRate: int,
    steakRate: int,
    lunaxRate: int,
    stHolders: map<string, int>,
    bHolders: map<string, int>,
    stBond: int,
    bBond: int,
    stSupply: int,
    bSupply: int,
    rewards: int,
    unbonding: Option<(map<string, int>, map<string, int>)>)

  function ConvertAll(balances: map<string, int>, rate: int): map<string, int> {
    map a | a in balances :: AtRate(rate, balances[a])
  }

  function AmountOf(balances: map<string, int>, a: string): int {
    if a in balances then balances[a] else 0
  }

  function MergeMaps(x: map<string, int>, y: map<string, int>): map<string, int> {
    map a | a in x.Keys + y.Keys :: AmountOf(x, a) + AmountOf(y, a)
  }

  function UnbondingLuna(i: Inputs): map<string, int>
    requires i.unbonding.Some?
  {
    MergeMaps(ConvertAll(i.unbonding.value.0, i.bRate), ConvertAll(i.unbonding.value.1, i.stRate))
  }

  function Register(bl: Blacklist, d: string, addr: string): Blacklist {
    bl[d := (if d in bl then bl[d] else []) + [addr]]
  }

  // ---------- the stages ----------

  ghost function AfterNexus(m: Ledger, i: Inputs): Ledger {
    Applied(m, Rule(NLUNA, BLUNA, i.nRate))
  }

  ghost function AfterHolders(m: Ledger, i: Inputs, bl: Blacklist): Ledger {
    Purged(SM.Added(Purged(SM.Added(m, i.stHolders, STLUNA), bl), i.bHolders, BLUNA), bl)
  }

  ghost function AfterRewards(m: Ledger, bl: Blacklist): Ledger {
    Purged(m, bl)
  }

  ghost function LidoRewritten(m: Ledger, i: Inputs, bl: Blacklist): Ledger {
    Applied(Applied(Purged(m, bl), Rule(BLUNA, ULUNA, i.bRate)), Rule(STLUNA, ULUNA, i.stRate))
  }

  ghost function AfterLido(m: Ledger, i: Inputs, bl: Blacklist): Ledger {
    if i.unbonding.Some? then SM.Added(LidoRewritten(m, i, bl), UnbondingLuna(i), ULUNA) else LidoRewritten(m, i, bl)
  }

  /** Once the unbonding tokens are credited, the hub's own LUNA no longer counts. */
  function LidoBlacklist(bl: Blacklist, i: Inputs): Blacklist {
    if i.unbonding.Some? then Register(bl, ULUNA, LIDO_HUB) else bl
  }

  ghost function AfterPrism(m: Ledger, i: Inputs, bl: Blacklist): Ledger {
    Applied(Purged(Swapped(Purged(m, bl)), bl), Rule(CLUNA, ULUNA, i.cRate))
  }

  ghost function AfterSteak(m: Ledger, i: Inputs): Ledger {
    Applied(m, Rule(STEAK, ULUNA, i.steakRate))
  }

  ghost function AfterStader(m: Ledger, i: Inputs): Ledger {
    Applied(m, Rule(LUNAX, ULUNA, i.lunaxRate))
  }

  ghost function UpToLido(m: Ledger, i: Inputs, bl: Blacklist): Ledger {
    AfterLido(AfterRewards(AfterHolders(AfterNexus(m, i), i, bl), bl), i, bl)
  }

  ghost function Resolved(m: Ledger, i: Inputs, bl: Blacklist): Ledger {
    AfterStader(AfterSteak(AfterPrism(UpToLido(m, i, bl), i, LidoBlacklist(bl, i)), i), i)
  }

  ghost function Exported(m: Ledger, i: Inputs, bl: Blacklist): Ledger {
    Merged([map[], Resolved(m, i, bl)])
  }

  // ---------- nothing is left of the derivatives ----------

  lemma HoldersLack(m: Ledger, i: Inputs, bl: Blacklist, d: string)
    requires Lacks(m, d) && d != STLUNA && d != BLUNA
    ensures Lacks(AfterHolders(m, i, bl), d)
  {
    hide Lacks, Purged, SM.Added;
    AddLacks(m, i.stHolders, STLUNA, d);
    PurgeLacks(SM.Added(m, i.stHolders, STLUNA), bl, d);
    var half := Purged(SM.Added(m, i.stHolders, STLUNA), bl);
    AddLacks(half, i.bHolders, BLUNA, d);
    PurgeLacks(SM.Added(half, i.bHolders, BLUNA), bl, d);
  }

  lemma LidoLacks(m: Ledger, i: Inputs, bl: Blacklist, d: string)
    requires d == BLUNA || d == STLUNA || (d != ULUNA && Lacks(m, d))
    ensures Lacks(AfterLido(m, i, bl), d)
  {
    hide Lacks, Purged, SM.Added, Applied;
    var b, st := Rule(BLUNA, ULUNA, i.bRate), Rule(STLUNA, ULUNA, i.stRate);
    if d != STLUNA {
      if d != BLUNA {
        PurgeLacks(m, bl, d);
      }
      RewriteLacks(Purged(m, bl), b, d);
    }
    RewriteLacks(Applied(Purged(m, bl), b), st, d);
    if i.unbonding.Some? {
      AddLacks(LidoRewritten(m, i, bl), UnbondingLuna(i), ULUNA, d);
    }
  }

  lemma PrismLacks(m: Ledger, i: Inputs, bl: Blacklist, d: string)
    requires d == PLUNA || d == CLUNA || (d != ULUNA && Lacks(m, d))
    ensures Lacks(AfterPrism(m, i, bl), d)
  {
    hide Lacks, Purged, Swapped, Applied;
    var clean := Purged(m, bl);
    if d != CLUNA {
      if d != PLUNA {
        PurgeLacks(m, bl, d);
      }
      RelabelLacks(clean, d);
      PurgeLacks(Swapped(clean), bl, d);
    }
    RewriteLacks(Purged(Swapped(clean), bl), Rule(CLUNA, ULUNA, i.cRate), d);
  }

  lemma UpToLidoLacks(m: Ledger, i: Inputs, bl: Blacklist, d: string)
    requires d == NLUNA || d == BLUNA || d == STLUNA
    ensures Lacks(UpToLido(m, i, bl), d)
  {
    hide Lacks, AfterHolders, AfterLido, Purged;
    if d == NLUNA {
      RewriteLacks(m, Rule(NLUNA, BLUNA, i.nRate), d);
      HoldersLack(AfterNexus(m, i), i, bl, d);
      PurgeLacks(AfterHolders(AfterNexus(m, i), i, bl), bl, d);
    }
    LidoLacks(AfterRewards(AfterHolders(AfterNexus(m, i), i, bl), bl), i, bl, d);
  }

  /** The fixed order leaves no entry of any staking derivative. */
  lemma NoDerivativeLeft(m: Ledger, i: Inputs, bl: Blacklist, d: string)
    requires Derivative(d)
    ensures Lacks(Exported(m, i, bl), d)
  {
    hide Lacks, UpToLido, AfterPrism, Merged;
    var lido := UpToLido(m, i, bl);
    var prism := AfterPrism(lido, i, LidoBlacklist(bl, i));
    if d != STEAK && d != LUNAX {
      if d == NLUNA || d == BLUNA || d == STLUNA {
        UpToLidoLacks(m, i, bl, d);
      }
      PrismLacks(lido, i, LidoBlacklist(bl, i), d);
    }
    if d != LUNAX {
      RewriteLacks(prism, Rule(STEAK, ULUNA, i.steakRate), d);
    }
    RewriteLacks(AfterSteak(prism, i), Rule(LUNAX, ULUNA, i.lunaxRate), d);
    EmptyLacks(d);
    MergeLacks([map[], Resolved(m, i, bl)], d);
  }

  lemma EmptyLacks(d: string)
    ensures Lacks(map[], d)
  {
  }

  // ---------- other denoms ----------

  /** A denom the pipeline neither rewrites nor credits. */
  predicate Bystander(d: string) {
    d != ULUNA && !Derivative(d)
  }

  ghost predicate Banned(bl: Blacklist, a: string, d: string) {
    d in bl && a in bl[d]
  }

  ghost function Held(m: Ledger, a: string, d: string): int {
    Holding(EntriesAt(m, a), d)
  }

  lemma RewriteHeld(m: Ledger, rule: Rule, a: string, d: string)
    requires d != rule.from && d != rule.to
    ensures Held(Applied(m, rule), a, d) == Held(m, a, d)
  {
    RewriteKeepsOthers(EntriesAt(m, a), rule, d);
  }

  lemma RelabelHeld(m: Ledger, a: string, d: string)
    requires Bystander(d)
    ensures Held(Swapped(m), a, d) == Held(m, a, d)
  {
    RelabelKeepsOthers(EntriesAt(m, a), d);
  }

  lemma PurgeHeld(m: Ledger, bl: Blacklist, a: string, d: string)
    ensures Held(Purged(m, bl), a, d) == if Banned(bl, a, d) then 0 else Held(m, a, d)
  {
    PurgedHolding(m, bl, a, d);
  }

  lemma AddHeld(m: Ledger, balances: map<string, int>, denom: string, a: string, d: string)
    requires d != denom
    ensures Held(SM.Added(m, balances, denom), a, d) == Held(m, a, d)
  {
    var es, es' := EntriesAt(m, a), EntriesAt(SM.Added(m, balances, denom), a);
    if a in balances {
      assert es' == es + [Entry(denom, Some(balances[a]))];
      SumBySnoc(es, Entry(denom, Some(balances[a])), AmountIn(d));
    } else {
      assert es' == es;
    }
  }

  lemma HoldersHeld(m: Ledger, i: Inputs, bl: Blacklist, a: string, d: string)
    requires Bystander(d)
    ensures Held(AfterHolders(m, i, bl), a, d) == if Banned(bl, a, d) then 0 else Held(m, a, d)
  {
    hide Held, Purged, SM.Added, Banned;
    AddHeld(m, i.stHolders, STLUNA, a, d);
    PurgeHeld(SM.Added(m, i.stHolders, STLUNA), bl, a, d);
    var half := Purged(SM.Added(m, i.stHolders, STLUNA), bl);
    AddHeld(half, i.bHolders, BLUNA, a, d);
    PurgeHeld(SM.Added(half, i.bHolders, BLUNA), bl, a, d);
  }

  lemma LidoHeld(m: Ledger, i: Inputs, bl: Blacklist, a: string, d: string)
    requires Bystander(d)
    ensures Held(AfterLido(m, i, bl), a, d) == if Banned(bl, a, d) then 0 else Held(m, a, d)
  {
    hide Held, Purged, SM.Added, Applied, Banned;
    var b, st := Rule(BLUNA, ULUNA, i.bRate), Rule(STLUNA, ULUNA, i.stRate);
    PurgeHeld(m, bl, a, d);
    RewriteHeld(Purged(m, bl), b, a, d);
    RewriteHeld(Applied(Purged(m, bl), b), st, a, d);
    if i.unbonding.Some? {
      AddHeld(LidoRewritten(m, i, bl), UnbondingLuna(i), ULUNA, a, d);
    }
  }

  lemma PrismHeld(m: Ledger, i: Inputs, bl: Blacklist, a: string, d: string)
    requires Bystander(d)
    ensures Held(AfterPrism(m, i, bl), a, d) == if Banned(bl, a, d) then 0 else Held(m, a, d)
  {
    hide Held, Purged, Swapped, Applied, Banned;
    var clean := Purged(m, bl);
    PurgeHeld(m, bl, a, d);
    RelabelHeld(clean, a, d);
    PurgeHeld(Swapped(clean), bl, a, d);
    RewriteHeld(Purged(Swapped(clean), bl), Rule(CLUNA, ULUNA, i.cRate), a, d);
  }

  lemma SameBan(bl: Blacklist, i: Inputs, a: string, d: string)
    requires d != ULUNA
    ensures Banned(LidoBlacklist(bl, i), a, d) == Banned(bl, a, d)
  {
  }

  /** Every other denom keeps its holdings, address by address, except for blacklisted pairs. */
  lemma BystandersUntouched(m: Ledger, i: Inputs, bl: Blacklist, a: string, d: string)
    requires Bystander(d)
    ensures Held(Exported(m, i, bl), a, d) == if Banned(bl, a, d) then 0 else Held(m, a, d)
  {
    hide Held, AfterHolders, AfterLido, AfterPrism, Applied, Purged, Merged, Banned, LidoBlacklist;
    var m1 := AfterNexus(m, i);
    var m2 := AfterHolders(m1, i, bl);
    var m3 := AfterRewards(m2, bl);
    var m4 := AfterLido(m3, i, bl);
    var m5 := AfterPrism(m4, i, LidoBlacklist(bl, i));
    RewriteHeld(m, Rule(NLUNA, BLUNA, i.nRate), a, d);
    HoldersHeld(m1, i, bl, a, d);
    PurgeHeld(m2, bl, a, d);
    LidoHeld(m3, i, bl, a, d);
    PrismHeld(m4, i, LidoBlacklist(bl, i), a, d);
    SameBan(bl, i, a, d);
    RewriteHeld(m5, Rule(STEAK, ULUNA, i.steakRate), a, d);
    RewriteHeld(AfterSteak(m5, i), Rule(LUNAX, ULUNA, i.lunaxRate), a, d);
    CollapseHeld(Resolved(m, i, bl), a, d);
  }

  lemma CollapseHeld(m: Ledger, a: string, d: string)
    ensures Held(Merged([map[], m]), a, d) == Held(m, a, d)
  {
    var empty: Ledger := map[];
    MergedHolding([empty, m], a, d);
    assert [empty, m] == [empty] + [m];
    SumByAppend([empty], [m], HeldIn(d, a));
  }

  // ---------- nil balances ----------

  /** Without nil balances no stage panics, and no stage introduces one. */
  lemma StaysSet(m: Ledger, rule: Rule)
    ensures AllSet(m) ==> SetIn(m, rule.from) && AllSet(Applied(m, rule))
  {
    if AllSet(m) {
      forall a, e | a in m && e in Rewritten(m[a], rule) ensures e.balance.Some? {
        InFlatMap(m[a], RewriteOf(rule), e);
      }
    }
  }

  lemma PurgedSet(m: Ledger, bl: Blacklist)
    ensures AllSet(m) ==> PurgeSafe(m, bl) && AllSet(Purged(m, bl))
  {
    if AllSet(m) {
      forall a, e | a in m && e in Blacklisted(m[a], DenomsFor(bl, a)) ensures e.balance.Some? {
        InFlatMap(m[a], ZeroedOf(DenomsFor(bl, a)), e);
      }
    }
  }

  lemma SwappedSet(m: Ledger)
    ensures AllSet(m) ==> AllSet(Swapped(m))
  {
    if AllSet(m) {
      forall a, e | a in m && e in Relabelled(m[a]) ensures e.balance.Some? {
        InFlatMap(m[a], RelabelOf(), e);
      }
    }
  }

  lemma AddedSet(m: Ledger, balances: map<string, int>, denom: string)
    ensures AllSet(m) ==> AllSet(SM.Added(m, balances, denom))
  {
  }

  // ---------- the exporters ----------

  /** Rewrites the entries of one address; a nil balance of the old denom panics. */
  method RewriteList(es: seq<Entry>, rule: Rule) returns (ok: bool, es': seq<Entry>)
    ensures ok <==> ListSet(es, rule.from)
    ensures ok ==> es' == Rewritten(es, rule)
  {
    es' := [];
    for k := 0 to |es|
      invariant es' == Rewritten(es[..k], rule)
      invariant ListSet(es[..k], rule.from)
    {
      assert es[..k + 1] == es[..k] + [es[k]];
      FlatMapTake(es, k, RewriteOf(rule));
      var sb := es[k];
      if sb.denom == rule.from {
        if sb.balance.None? {
          assert sb in es;
          return false, es';
        }
        sb := Entry(rule.to, Some(AtRate(rule.rate, sb.balance.value)));
      }
      es' := es' + [sb];
    }
    assert es[..|es|] == es;
    ok := true;
  }

  /** Rewrites a denom in a whole snapshot, in place. */
  method RewriteDenom(s: SM.SnapshotMap, rule: Rule) returns (r: Halting<()>)
    modifies s
    ensures r.Ok? <==> SetIn(old(s.entries), rule.from)
    ensures r.Err? ==> r.error == NilBalance
    ensures r.Ok? ==> s.entries == Applied(old(s.entries), rule)
  {
    hide Rewritten, ListSet;
    var order := RangeOrder(s.entries.Keys);
    ghost var done: set<string> := {};
    for k := 0 to |order|
      invariant forall a :: a in done <==> a in order[..k]
      invariant s.entries.Keys == old(s.entries).Keys
      invariant forall a :: a in s.entries ==>
                  s.entries[a] == if a in done then Rewritten(old(s.entries)[a], rule) else old(s.entries)[a]
      invariant forall a :: a in done ==> ListSet(old(s.entries)[a], rule.from)
    {
      var a := order[k];
      assert a in order && a !in order[..k];
      assert order[..k + 1] == order[..k] + [a];
      var ok, es := RewriteList(s.entries[a], rule);
      if !ok {
        return Err(NilBalance);
      }
      s.entries := s.entries[a := es];
      done := done + {a};
    }
    assert order[..|order|] == order;
    return Ok(());
  }

  method ResolveToBLuna(s: SM.SnapshotMap, i: Inputs) returns (r: Halting<()>)
    modifies s
    ensures r.Ok? ==> s.entries == AfterNexus(old(s.entries), i)
    ensures AllSet(old(s.entries)) ==> r.Ok? && AllSet(s.entries)
  {
    StaysSet(s.entries, Rule(NLUNA, BLUNA, i.nRate));
    r := RewriteDenom(s, Rule(NLUNA, BLUNA, i.nRate));
  }

  method ExportBSTLunaHolders(s: SM.SnapshotMap, i: Inputs, bl: Blacklist) returns (r: Halting<()>)
    modifies s
    ensures r.Ok? ==> s.entries == AfterHolders(old(s.entries), i, bl)
    ensures AllSet(old(s.entries)) ==> r.Ok? && AllSet(s.entries)
  {
    hide Purged, SM.Added, AllSet;
    AddedSet(s.entries, i.stHolders, STLUNA);
    s.Add(i.stHolders, STLUNA);
    PurgedSet(s.entries, bl);
    r := s.ApplyBlackList(bl);
    if r.Err? {
      return;
    }
    AddedSet(s.entries, i.bHolders, BLUNA);
    s.Add(i.bHolders, BLUNA);
    PurgedSet(s.entries, bl);
    r := s.ApplyBlackList(bl);
  }

  method ResolveLidoLuna(s: SM.SnapshotMap, i: Inputs, bl: Blacklist) returns (r: Halting<Blacklist>)
    modifies s
    ensures r.Ok? ==> s.entries == AfterLido(old(s.entries), i, bl) && r.value == LidoBlacklist(bl, i)
    ensures AllSet(old(s.entries)) ==> r.Ok? && AllSet(s.entries)
  {
    hide Purged, SM.Added, Applied, AllSet, SetIn;
    PurgedSet(s.entries, bl);
    var purged := s.ApplyBlackList(bl);
    if purged.Err? {
      return Err(purged.error);
    }
    StaysSet(s.entries, Rule(BLUNA, ULUNA, i.bRate));
    var b := RewriteDenom(s, Rule(BLUNA, ULUNA, i.bRate));
    if b.Err? {
      return Err(b.error);
    }
    StaysSet(s.entries, Rule(STLUNA, ULUNA, i.stRate));
    var st := RewriteDenom(s, Rule(STLUNA, ULUNA, i.stRate));
    if st.Err? {
      return Err(st.error);
    }
    if i.unbonding.None? {
      return Ok(bl);
    }
    AddedSet(s.entries, UnbondingLuna(i), ULUNA);
    s.Add(UnbondingLuna(i), ULUNA);
    return Ok(Register(bl, ULUNA, LIDO_HUB));
  }

  /** Renames pLUNA to cLUNA, nil or not. */
  method SwapPLunaToCLuna(s: SM.SnapshotMap)
    modifies s
    ensures s.entries == Swapped(old(s.entries))
  {
    hide Relabelled;
    var order := RangeOrder(s.entries.Keys);
    ghost var done: set<string> := {};
    for k := 0 to |order|
      invariant forall a :: a in done <==> a in order[..k]
      invariant s.entries.Keys == old(s.entries).Keys
      invariant forall a :: a in s.entries ==>
                  s.entries[a] == if a in done then Relabelled(old(s.entries)[a]) else old(s.entries)[a]
    {
      var a := order[k];
      assert a in order && a !in order[..k];
      assert order[..k + 1] == order[..k] + [a];
      var es := RelabelList(s.entries[a]);
      s.entries := s.entries[a := es];
      done := done + {a};
    }
    assert order[..|order|] == order;
  }

  method RelabelList(es: seq<Entry>) returns (es': seq<Entry>)
    ensures es' == Relabelled(es)
  {
    es' := [];
    for k := 0 to |es|
      invariant es' == Relabelled(es[..k])
    {
      FlatMapTake(es, k, RelabelOf());
      var sb := es[k];
      if sb.denom == PLUNA {
        sb := Entry(CLUNA, sb.balance);
      }
      es' := es' + [sb];
    }
    assert es[..|es|] == es;
  }

  method ResolvePrism(s: SM.SnapshotMap, i: Inputs, bl: Blacklist) returns (r: Halting<()>)
    modifies s
    ensures r.Ok? ==> s.entries == AfterPrism(old(s.entries), i, bl)
    ensures AllSet(old(s.entries)) ==> r.Ok? && AllSet(s.entries)
  {
    hide Purged, Swapped, Applied, AllSet, SetIn;
    PurgedSet(s.entries, bl);
    r := s.ApplyBlackList(bl);
    if r.Err? {
      return;
    }
    SwappedSet(s.entries);
    SwapPLunaToCLuna(s);
    PurgedSet(s.entries, bl);
    r := s.ApplyBlackList(bl);
    if r.Err? {
      return;
    }
    StaysSet(s.entries, Rule(CLUNA, ULUNA, i.cRate));
    r := RewriteDenom(s, Rule(CLUNA, ULUNA, i.cRate));
  }
}
