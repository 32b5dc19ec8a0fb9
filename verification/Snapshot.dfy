/**
 * Balance snapshots (app/export/util/types.go) as values: the entries of an address, how they absorb
 * another entry, how a blacklist zeroes them, and what merging preserves.
 */
module Snapshot {
  import opened Orders
  import opened Outcome

  /** A balance that was never set is nil. */
  datatype Entry = Entry(denom: string, balance: Option<int>)

  function ValueOf(e: Entry): int {
    if e.balance.Some? then e.balance.value else 0
  }

  function AmountIn(d: string): Entry -> int {
    (e: Entry) => if e.denom == d then ValueOf(e) else 0
  }

  /** What a list of entries holds of a denom; nil counts as nothing. */
  function Holding(es: seq<Entry>, d: string): int {
    SumBy(es, AmountIn(d))
  }

  ghost predicate NilFree(es: seq<Entry>) {
    forall e :: e in es ==> e.balance.Some?
  }

  function IsIn(d: string): Entry -> int {
    (e: Entry) => if e.denom == d then 1 else 0
  }

  /** Every denom is listed at most once. */
  ghost predicate OnePerDenom(es: seq<Entry>) {
    forall d :: SumBy(es, IsIn(d)) <= 1
  }

  /** Adds to the first entry of the same denom, or appends; a nil balance is always appended. */
  function Absorb(es: seq<Entry>, e: Entry): seq<Entry> {
    if es == [] then [e]
    else if es[0].denom == e.denom && e.balance.Some? then
      [Entry(e.denom, Some(ValueOf(es[0]) + e.balance.value))] + es[1..]
    else [es[0]] + Absorb(es[1..], e)
  }

  function AbsorbAll(es: seq<Entry>, more: seq<Entry>): seq<Entry> {
    if more == [] then es else Absorb(AbsorbAll(es, more[..|more| - 1]), more[|more| - 1])
  }

  // ---------- absorbing ----------

  lemma {:induction false} AbsorbHolding(es: seq<Entry>, e: Entry, d: string)
    ensures Holding(Absorb(es, e), d) == Holding(es, d) + AmountIn(d)(e)
  {
    if es == [] {
      assert [e][1..] == [];
    } else {
      var r := Absorb(es, e);
      if es[0].denom == e.denom && e.balance.Some? {
        assert r[1..] == es[1..];
      } else {
        assert r[1..] == Absorb(es[1..], e);
        AbsorbHolding(es[1..], e, d);
      }
    }
  }

  lemma {:induction false} AbsorbAllHolding(es: seq<Entry>, more: seq<Entry>, d: string)
    ensures Holding(AbsorbAll(es, more), d) == Holding(es, d) + Holding(more, d)
  {
    if more != [] {
      var n := |more| - 1;
      assert more == more[..n + 1];
      AbsorbAllHolding(es, more[..n], d);
      AbsorbHolding(AbsorbAll(es, more[..n]), more[n], d);
      SumByTake(more, n, AmountIn(d));
    }
  }

  lemma {:induction false} AbsorbCount(es: seq<Entry>, e: Entry, d: string)
    requires e.balance.Some?
    ensures SumBy(es, IsIn(d)) >= 0
    ensures SumBy(Absorb(es, e), IsIn(d)) ==
            if d == e.denom && SumBy(es, IsIn(d)) == 0 then 1 else SumBy(es, IsIn(d))
  {
    if es == [] {
      assert [e][1..] == [];
    } else {
      var r := Absorb(es, e);
      SumByNonNegative(es[1..], IsIn(d));
      if es[0].denom == e.denom {
        assert r[1..] == es[1..];
      } else {
        assert r[1..] == Absorb(es[1..], e);
        AbsorbCount(es[1..], e, d);
      }
    }
  }

  lemma {:induction false} AbsorbNilFree(es: seq<Entry>, e: Entry)
    requires e.balance.Some? && NilFree(es)
    ensures NilFree(Absorb(es, e))
  {
    if es != [] && es[0].denom != e.denom {
      AbsorbNilFree(es[1..], e);
    }
  }

  lemma AbsorbShape(es: seq<Entry>, e: Entry)
    requires e.balance.Some? && NilFree(es) && OnePerDenom(es)
    ensures NilFree(Absorb(es, e)) && OnePerDenom(Absorb(es, e))
  {
    AbsorbNilFree(es, e);
    forall d ensures SumBy(Absorb(es, e), IsIn(d)) <= 1 {
      AbsorbCount(es, e, d);
    }
  }

  /** Merging entries that are set leaves at most one entry per denom, all of them set. */
  lemma {:induction false} AbsorbAllShape(es: seq<Entry>, more: seq<Entry>)
    requires NilFree(more) && NilFree(es) && OnePerDenom(es)
    ensures NilFree(AbsorbAll(es, more)) && OnePerDenom(AbsorbAll(es, more))
  {
    if more != [] {
      AbsorbAllShape(es, more[..|more| - 1]);
      AbsorbShape(AbsorbAll(es, more[..|more| - 1]), more[|more| - 1]);
    }
  }

  // ---------- blacklists ----------

  /** A blacklisted entry is set to zero. */
  function Zeroed(e: Entry, denoms: set<string>): Entry {
    if e.denom in denoms then Entry(e.denom, Some(0)) else e
  }

  function ZeroedOf(denoms: set<string>): Entry -> seq<Entry> {
    (e: Entry) => [Zeroed(e, denoms)]
  }

  function Blacklisted(es: seq<Entry>, denoms: set<string>): seq<Entry> {
    FlatMap(es, ZeroedOf(denoms))
  }

  ghost predicate SetAmong(es: seq<Entry>, denoms: set<string>) {
    forall e :: e in es && e.denom in denoms ==> e.balance.Some?
  }

  lemma {:induction false} AbsorbSafe(es: seq<Entry>, e: Entry, denoms: set<string>)
    requires SetAmong(es, denoms) && (e.denom in denoms ==> e.balance.Some?)
    ensures SetAmong(Absorb(es, e), denoms)
  {
    if es != [] && !(es[0].denom == e.denom && e.balance.Some?) {
      AbsorbSafe(es[1..], e, denoms);
    }
  }

  lemma {:induction false} AbsorbAllSafe(es: seq<Entry>, more: seq<Entry>, denoms: set<string>)
    requires SetAmong(es, denoms) && SetAmong(more, denoms)
    ensures SetAmong(AbsorbAll(es, more), denoms)
  {
    if more != [] {
      AbsorbAllSafe(es, more[..|more| - 1], denoms);
      AbsorbSafe(AbsorbAll(es, more[..|more| - 1]), more[|more| - 1], denoms);
    }
  }

  lemma BlacklistedCons(es: seq<Entry>, denoms: set<string>)
    requires es != []
    ensures Blacklisted(es, denoms) == [Zeroed(es[0], denoms)] + Blacklisted(es[1..], denoms)
  {
  }

  /** Exactly the blacklisted denoms hold nothing; the others hold what they held. */
  lemma {:induction false} BlacklistedHolding(es: seq<Entry>, denoms: set<string>, d: string)
    ensures Holding(Blacklisted(es, denoms), d) == if d in denoms then 0 else Holding(es, d)
  {
    if es != [] {
      BlacklistedHolding(es[1..], denoms, d);
      BlacklistedCons(es, denoms);
    }
  }

  lemma {:induction false} AbsorbBlacklisted(es: seq<Entry>, e: Entry, denoms: set<string>)
    requires e.denom in denoms ==> e.balance.Some?
    ensures Absorb(Blacklisted(es, denoms), Zeroed(e, denoms)) == Blacklisted(Absorb(es, e), denoms)
  {
    if es == [] {
      BlacklistedCons([e], denoms);
    } else {
      var r, b := Absorb(es, e), Blacklisted(es, denoms);
      BlacklistedCons(es, denoms);
      BlacklistedCons(r, denoms);
      assert b[1..] == Blacklisted(es[1..], denoms);
      if es[0].denom == e.denom && e.balance.Some? {
        assert r[1..] == es[1..];
      } else {
        assert r[1..] == Absorb(es[1..], e);
        AbsorbBlacklisted(es[1..], e, denoms);
      }
    }
  }

  /** Blacklisting before merging is blacklisting after merging. */
  lemma {:induction false} AbsorbAllBlacklisted(es: seq<Entry>, more: seq<Entry>, denoms: set<string>)
    requires SetAmong(more, denoms)
    ensures AbsorbAll(Blacklisted(es, denoms), Blacklisted(more, denoms)) == Blacklisted(AbsorbAll(es, more), denoms)
  {
    if more != [] {
      var n := |more| - 1;
      var b := Blacklisted(more, denoms);
      FlatMapTake(more, n, ZeroedOf(denoms));
      assert more == more[..n + 1];
      assert b == Blacklisted(more[..n], denoms) + [Zeroed(more[n], denoms)];
      assert b[..|b| - 1] == Blacklisted(more[..n], denoms);
      AbsorbAllBlacklisted(es, more[..n], denoms);
      AbsorbBlacklisted(AbsorbAll(es, more[..n]), more[n], denoms);
    }
  }

  // ---------- whole snapshots ----------

  type Ledger = map<string, seq<Entry>>

  function EntriesAt(m: Ledger, a: string): seq<Entry> {
    if a in m then m[a] else []
  }

  function HoldingAt(m: Ledger, d: string): string -> int {
    (a: string) => Holding(EntriesAt(m, a), d)
  }

  /** The total of a denom over all addresses. */
  ghost function Total(m: Ledger, d: string): int {
    SumSet(m.Keys, HoldingAt(m, d))
  }

  function EntriesOf(a: string): Ledger -> seq<Entry> {
    (m: Ledger) => EntriesAt(m, a)
  }

  /** Everything the given snapshots list for an address, in order. */
  function Gathered(ms: seq<Ledger>, a: string): seq<Entry> {
    FlatMap(ms, EntriesOf(a))
  }

  ghost function Addresses(ms: seq<Ledger>): set<string> {
    set m, a | m in ms && a in m && m[a] != [] :: a
  }

  /** The merged snapshot; it does not depend on the order addresses are visited in. */
  ghost function Merged(ms: seq<Ledger>): Ledger {
    map a | a in Addresses(ms) :: AbsorbAll([], Gathered(ms, a))
  }

  ghost function TotalIn(d: string): Ledger -> int {
    (m: Ledger) => Total(m, d)
  }

  function HeldIn(d: string, a: string): Ledger -> int {
    (m: Ledger) => Holding(EntriesAt(m, a), d)
  }

  lemma GatheredHolding(ms: seq<Ledger>, a: string, d: string)
    ensures Holding(Gathered(ms, a), d) == SumBy(ms, HeldIn(d, a))
  {
    SumByFlatMap(ms, EntriesOf(a), AmountIn(d), HeldIn(d, a));
  }

  lemma AddressesIff(ms: seq<Ledger>, a: string)
    ensures a in Addresses(ms) <==> Gathered(ms, a) != []
  {
    var g := Gathered(ms, a);
    if a in Addresses(ms) {
      var m :| m in ms && a in m && m[a] != [];
      InFlatMap(ms, EntriesOf(a), m[a][0]);
    }
    if g != [] {
      InFlatMap(ms, EntriesOf(a), g[0]);
      var m :| m in ms && g[0] in EntriesOf(a)(m);
      assert a in m && m[a] != [];
    }
  }

  lemma MergedHolding(ms: seq<Ledger>, a: string, d: string)
    ensures Holding(EntriesAt(Merged(ms), a), d) == SumBy(ms, HeldIn(d, a))
  {
    GatheredHolding(ms, a, d);
    if a in Addresses(ms) {
      AbsorbAllHolding([], Gathered(ms, a), d);
    } else {
      AddressesIff(ms, a);
    }
  }

  /** Addresses a snapshot does not list hold nothing, so a total may range over more addresses. */
  lemma TotalOver(m: Ledger, keys: set<string>, d: string)
    requires m.Keys <= keys
    ensures Total(m, d) == SumSet(keys, HoldingAt(m, d))
  {
    SumSetOver(keys, m.Keys, HoldingAt(m, d));
  }

  function HeldBy(ms: seq<Ledger>, d: string): string -> int {
    (a: string) => SumBy(ms, HeldIn(d, a))
  }

  lemma {:induction false} SumOfTotals(ms: seq<Ledger>, keys: set<string>, d: string)
    requires forall m :: m in ms ==> m.Keys <= keys
    ensures SumSet(keys, HeldBy(ms, d)) == SumBy(ms, TotalIn(d))
  {
    if ms == [] {
      SumSetConstant(keys, HeldBy(ms, d), 0);
    } else {
      SumOfTotals(ms[1..], keys, d);
      TotalOver(ms[0], keys, d);
      SumSetSum(keys, HoldingAt(ms[0], d), HeldBy(ms[1..], d), HeldBy(ms, d));
    }
  }

  lemma {:induction false} AllAddresses(ms: seq<Ledger>) returns (keys: set<string>)
    ensures forall m :: m in ms ==> m.Keys <= keys
  {
    if ms == [] {
      keys := {};
    } else {
      var rest := AllAddresses(ms[1..]);
      keys := rest + ms[0].Keys;
      forall m | m in ms ensures m.Keys <= keys {
        assert m == ms[0] || m in ms[1..];
      }
    }
  }

  /** Merging preserves the total of every denom. */
  lemma MergePreservesTotals(ms: seq<Ledger>, d: string)
    ensures Total(Merged(ms), d) == SumBy(ms, TotalIn(d))
  {
    hide Merged;
    var keys := AllAddresses(ms);
    SumOfTotals(ms, keys, d);
    MergedKeys(ms, keys);
    TotalOver(Merged(ms), keys, d);
    forall a | a in keys ensures HoldingAt(Merged(ms), d)(a) == HeldBy(ms, d)(a) {
      MergedHolding(ms, a, d);
    }
    SumSetEqual(keys, HoldingAt(Merged(ms), d), HeldBy(ms, d));
  }

  lemma MergedKeys(ms: seq<Ledger>, keys: set<string>)
    requires forall m :: m in ms ==> m.Keys <= keys
    ensures Merged(ms).Keys <= keys
  {
  }

  ghost predicate AllSet(m: Ledger) {
    forall a :: a in m ==> NilFree(m[a])
  }

  lemma GatheredNilFree(ms: seq<Ledger>, a: string)
    requires forall m :: m in ms ==> AllSet(m)
    ensures NilFree(Gathered(ms, a))
  {
    forall e | e in Gathered(ms, a) ensures e.balance.Some? {
      InFlatMap(ms, EntriesOf(a), e);
    }
  }

  /** Without nil balances the merged snapshot has at most one entry per address and denom. */
  lemma MergeCollapses(ms: seq<Ledger>, a: string)
    requires forall m :: m in ms ==> AllSet(m)
    requires a in Merged(ms)
    ensures NilFree(Merged(ms)[a]) && OnePerDenom(Merged(ms)[a])
  {
    GatheredNilFree(ms, a);
    AbsorbAllShape([], Gathered(ms, a));
  }

  // ---------- blacklists over snapshots ----------

  /** A blacklist names, for each denom, the addresses whose balance does not count. */
  type Blacklist = map<string, seq<string>>

  ghost function DenomsFor(bl: Blacklist, a: string): set<string> {
    set d | d in bl && a in bl[d]
  }

  ghost function Purged(m: Ledger, bl: Blacklist): Ledger {
    map a | a in m :: Blacklisted(m[a], DenomsFor(bl, a))
  }

  ghost function PurgedOf(bl: Blacklist): Ledger -> seq<Ledger> {
    (m: Ledger) => [Purged(m, bl)]
  }

  ghost function PurgedAll(ms: seq<Ledger>, bl: Blacklist): seq<Ledger> {
    FlatMap(ms, PurgedOf(bl))
  }

  lemma PurgedEntries(m: Ledger, bl: Blacklist, a: string)
    ensures EntriesAt(Purged(m, bl), a) == Blacklisted(EntriesAt(m, a), DenomsFor(bl, a))
  {
  }

  lemma {:induction false} GatheredPurged(ms: seq<Ledger>, bl: Blacklist, a: string)
    ensures Gathered(PurgedAll(ms, bl), a) == Blacklisted(Gathered(ms, a), DenomsFor(bl, a))
  {
    if ms != [] {
      var all := PurgedAll(ms, bl);
      assert all[0] == Purged(ms[0], bl) && all[1..] == PurgedAll(ms[1..], bl);
      GatheredPurged(ms[1..], bl, a);
      PurgedEntries(ms[0], bl, a);
      FlatMapAppend(EntriesAt(ms[0], a), Gathered(ms[1..], a), ZeroedOf(DenomsFor(bl, a)));
    }
  }

  lemma {:induction false} BlacklistedLength(es: seq<Entry>, denoms: set<string>)
    ensures |Blacklisted(es, denoms)| == |es|
  {
    if es != [] {
      BlacklistedLength(es[1..], denoms);
    }
  }

  /** Comparing a nil balance with zero panics. */
  ghost predicate SetFor(m: Ledger, denom: string, addr: string) {
    forall e :: e in EntriesAt(m, addr) && e.denom == denom ==> e.balance.Some?
  }

  /** No blacklisted entry is nil: exactly when a blacklist can be applied without a panic. */
  ghost predicate PurgeSafe(m: Ledger, bl: Blacklist) {
    forall d, a :: d in bl && a in bl[d] ==> SetFor(m, d, a)
  }

  lemma GatheredSafe(ms: seq<Ledger>, bl: Blacklist, a: string)
    requires forall m :: m in ms ==> PurgeSafe(m, bl)
    ensures SetAmong(Gathered(ms, a), DenomsFor(bl, a))
  {
    forall e | e in Gathered(ms, a) && e.denom in DenomsFor(bl, a) ensures e.balance.Some? {
      InFlatMap(ms, EntriesOf(a), e);
      var m :| m in ms && e in EntriesAt(m, a);
      assert SetFor(m, e.denom, a);
    }
  }

  /** If every snapshot can be blacklisted then so can the merged one. */
  lemma MergeKeepsSafe(ms: seq<Ledger>, bl: Blacklist)
    requires forall m :: m in ms ==> PurgeSafe(m, bl)
    ensures PurgeSafe(Merged(ms), bl)
  {
    forall d, a | d in bl && a in bl[d] ensures SetFor(Merged(ms), d, a) {
      GatheredSafe(ms, bl, a);
      AbsorbAllSafe([], Gathered(ms, a), DenomsFor(bl, a));
    }
  }

  /** Blacklisting every snapshot before merging gives the merged snapshot blacklisted. */
  lemma BlacklistCommutesWithMerge(ms: seq<Ledger>, bl: Blacklist)
    requires forall m :: m in ms ==> PurgeSafe(m, bl)
    ensures Merged(PurgedAll(ms, bl)) == Purged(Merged(ms), bl)
  {
    hide Gathered, AbsorbAll, Blacklisted, Addresses, PurgedAll, DenomsFor, PurgeSafe, SetAmong;
    forall a
      ensures a in Addresses(PurgedAll(ms, bl)) <==> a in Addresses(ms)
      ensures AbsorbAll([], Gathered(PurgedAll(ms, bl), a)) == Blacklisted(AbsorbAll([], Gathered(ms, a)),
          DenomsFor(bl, a))
    {
      GatheredPurged(ms, bl, a);
      AddressesIff(ms, a);
      AddressesIff(PurgedAll(ms, bl), a);
      BlacklistedLength(Gathered(ms, a), DenomsFor(bl, a));
      GatheredSafe(ms, bl, a);
      BlacklistNothing(DenomsFor(bl, a));
      AbsorbAllBlacklisted([], Gathered(ms, a), DenomsFor(bl, a));
    }
  }

  lemma BlacklistNothing(denoms: set<string>)
    ensures Blacklisted([], denoms) == []
  {
  }

  /** After a blacklist exactly the listed pairs are at zero and every other pair is as before. */
  lemma PurgedHolding(m: Ledger, bl: Blacklist, a: string, d: string)
    ensures Holding(EntriesAt(Purged(m, bl), a), d) ==
            if d in bl && a in bl[d] then 0 else Holding(EntriesAt(m, a), d)
  {
    BlacklistedHolding(EntriesAt(m, a), DenomsFor(bl, a), d);
  }
}
