/**
 * The snapshot map of the exporter (app/export/util/types.go): a map from address to entries that
 * its methods change in place. Merging builds a new map and leaves the merged ones untouched.
 */
module SnapshotMap {
  import opened Orders
  import opened Outcome
  import opened Snapshot

  ghost function Zeroing(m: Ledger, denom: string, addr: string): Ledger {
    if addr in m then m[addr := Blacklisted(m[addr], {denom})] else m
  }

  /** The entry a balance is added to; a nil balance is added to none. */
  predicate Matches(x: Entry, e: Entry) {
    x.denom == e.denom && e.balance.Some?
  }

  lemma {:induction false} AbsorbsAt(es: seq<Entry>, e: Entry, i: nat)
    requires i < |es| && Matches(es[i], e) && forall j :: 0 <= j < i ==> !Matches(es[j], e)
    ensures Absorb(es, e) == es[i := Entry(e.denom, Some(ValueOf(es[i]) + e.balance.value))]
  {
    if i > 0 {
      assert !Matches(es[0], e);
      AbsorbsAt(es[1..], e, i - 1);
    }
  }

  lemma {:induction false} AbsorbsNowhere(es: seq<Entry>, e: Entry)
    requires forall j :: 0 <= j < |es| ==> !Matches(es[j], e)
    ensures Absorb(es, e) == es + [e]
  {
    if es != [] {
      assert !Matches(es[0], e);
      AbsorbsNowhere(es[1..], e);
    }
  }

  /** The snapshot with one more entry for each holder. */
  ghost function Added(m: Ledger, balances: map<string, int>, denom: string): Ledger {
    AddedFor(m, balances, denom, balances.Keys)
  }

  ghost function AddedFor(m: Ledger, balances: map<string, int>, denom: string, done: set<string>): Ledger
    requires done <= balances.Keys
  {
    map a | a in m.Keys + done :: if a in done then EntriesAt(m, a) + [Entry(denom, Some(balances[a]))] else m[a]
  }

  lemma AddedNone(m: Ledger, balances: map<string, int>, denom: string)
    ensures AddedFor(m, balances, denom, {}) == m
  {
  }

  lemma AddedNext(m: Ledger, balances: map<string, int>, denom: string, done: set<string>, a: string)
    requires done <= balances.Keys && a in balances && a !in done
    ensures var before := AddedFor(m, balances, denom, done);
            AddedFor(m, balances, denom, done + {a}) ==
            before[a := EntriesAt(before, a) + [Entry(denom, Some(balances[a]))]]
  {
    assert EntriesAt(AddedFor(m, balances, denom, done), a) == EntriesAt(m, a);
  }

  class SnapshotMap {
    var entries: Ledger

    constructor ()
      ensures entries == map[]
    {
      entries := map[];
    }

    method AppendOrAddBalance(addr: string, e: Entry)
      modifies this
      ensures entries == old(entries)[addr := Absorb(EntriesAt(old(entries), addr), e)]
    {
      var es := EntriesAt(entries, addr);
      for i := 0 to |es|
        invariant entries == old(entries)
        invariant forall j :: 0 <= j < i ==> !Matches(es[j], e)
      {
        if es[i].denom == e.denom && e.balance.Some? {
          AbsorbsAt(es, e, i);
          var sum := if es[i].balance.None? then e.balance.value else es[i].balance.value + e.balance.value;
          entries := entries[addr := es[i := Entry(e.denom, Some(sum))]];
          return;
        }
      }
      AbsorbsNowhere(es, e);
      entries := entries[addr := es + [e]];
    }

    method SumOfDenom(d: string) returns (sum: int)
      ensures sum == Total(entries, d)
    {
      var order := RangeOrder(entries.Keys);
      sum := 0;
      for i := 0 to |order|
        invariant sum == SumBy(order[..i], HoldingAt(entries, d))
      {
        assert order[i] in order;
        var held := SumEntries(entries[order[i]], d);
        SumByTake(order, i, HoldingAt(entries, d));
        sum := sum + held;
      }
      assert order[..|order|] == order;
      SumOfOrder(order, entries.Keys, HoldingAt(entries, d));
    }

    static method SumEntries(es: seq<Entry>, d: string) returns (sum: int)
      ensures sum == Holding(es, d)
    {
      sum := 0;
      for i := 0 to |es|
        invariant sum == Holding(es[..i], d)
      {
        SumByTake(es, i, AmountIn(d));
        if es[i].balance.Some? && es[i].denom == d {
          sum := sum + es[i].balance.value;
        }
      }
      assert es[..|es|] == es;
    }

    /** Appends one entry per holder, whether or not the address already has one of that denom. */
    method Add(balances: map<string, int>, denom: string)
      modifies this
      ensures entries == Added(old(entries), balances, denom)
    {
      hide AddedFor;
      var order := RangeOrder(balances.Keys);
      ghost var done: set<string> := {};
      AddedNone(entries, balances, denom);
      for i := 0 to |order|
        invariant forall a :: a in done <==> a in order[..i]
        invariant done <= balances.Keys
        invariant entries == AddedFor(old(entries), balances, denom, done)
      {
        var a := order[i];
        assert a in order && a !in order[..i];
        assert order[..i + 1] == order[..i] + [a];
        AddedNext(old(entries), balances, denom, done, a);
        entries := entries[a := EntriesAt(entries, a) + [Entry(denom, Some(balances[a]))]];
        done := done + {a};
      }
      assert order[..|order|] == order;
      assert done == balances.Keys;
    }

    /** Zeroes the entries of one address in one denom; a nil balance among them panics. */
    method ZeroOne(denom: string, addr: string) returns (ok: bool)
      modifies this
      ensures ok <==> SetFor(old(entries), denom, addr)
      ensures ok ==> entries == Zeroing(old(entries), denom, addr)
    {
      if addr !in entries {
        return true;
      }
      var es := entries[addr];
      var done: seq<Entry> := [];
      for i := 0 to |es|
        invariant entries == old(entries)
        invariant done == Blacklisted(es[..i], {denom})
        invariant forall e :: e in es[..i] && e.denom == denom ==> e.balance.Some?
      {
        assert es[..i + 1] == es[..i] + [es[i]];
        FlatMapTake(es, i, ZeroedOf({denom}));
        var e := es[i];
        if e.denom == denom {
          if e.balance.None? {
            assert e in es;
            return false;
          }
          if e.balance.value != 0 {
            e := Entry(denom, Some(0));
          }
        }
        done := done + [e];
      }
      assert es[..|es|] == es;
      entries := entries[addr := done];
      return true;
    }

    /** Zeroes every listed pair. */
    method ApplyBlackList(bl: Blacklist) returns (r: Halting<()>)
      modifies this
      ensures r.Ok? <==> PurgeSafe(old(entries), bl)
      ensures r.Err? ==> r.error == NilBalance
      ensures r.Ok? ==> entries == Purged(old(entries), bl)
    {
      hide Blacklisted;
      var order := RangeOrder(bl.Keys);
      ghost var done: set<(string, string)> := {};
      NothingDone(entries);
      for i := 0 to |order|
        invariant forall p :: p in done <==> p.0 in order[..i] && p.0 in bl && p.1 in bl[p.0]
        invariant entries == PurgedBy(old(entries), done)
        invariant forall p :: p in done ==> SetFor(old(entries), p.0, p.1)
      {
        var denom := order[i];
        assert denom in order;
        assert order[..i + 1] == order[..i] + [denom];
        ghost var before := done;
        var addrs := bl[denom];
        for k := 0 to |addrs|
          invariant forall p :: p in done <==> p in before || (p.0 == denom && p.1 in addrs[..k])
          invariant entries == PurgedBy(old(entries), done)
          invariant forall p :: p in done ==> SetFor(old(entries), p.0, p.1)
        {
          assert addrs[..k + 1] == addrs[..k] + [addrs[k]];
          ZeroNext(old(entries), done, denom, addrs[k]);
          var ok := ZeroOne(denom, addrs[k]);
          if !ok {
            assert addrs[k] in bl[denom];
            return Err(NilBalance);
          }
          done := done + {(denom, addrs[k])};
        }
        assert addrs[..|addrs|] == addrs;
      }
      assert order[..|order|] == order;
      AllDone(old(entries), bl, done);
      forall d, a | d in bl && a in bl[d] ensures SetFor(old(entries), d, a) {
        assert (d, a) in done;
      }
      return Ok(());
    }

    /** Collapses snapshots into a new one: a denom listed twice for an address is added up. */
    static method MergeSnapshots(ss: seq<SnapshotMap>) returns (s3: SnapshotMap)
      ensures fresh(s3)
      ensures s3.entries == Merged(Views(ss))
    {
      hide Absorb, Merged;
      s3 := new SnapshotMap();
      ghost var ms := Views(ss);
      MergedNothing();
      for i := 0 to |ss|
        invariant fresh(s3)
        invariant forall s :: s in ss ==> s != s3
        invariant ms == Views(ss)
        invariant s3.entries == Merged(ms[..i])
      {
        var s := ss[i];
        ghost var before := s3.entries;
        var order := RangeOrder(s.entries.Keys);
        ghost var done: set<string> := {};
        for k := 0 to |order|
          invariant fresh(s3) && forall s :: s in ss ==> s != s3
          invariant ms == Views(ss)
          invariant forall a :: a in done <==> a in order[..k]
          invariant s3.entries == MergedInto(before, s.entries, done)
        {
          var addr := order[k];
          assert addr in order && addr !in order[..k];
          assert order[..k + 1] == order[..k] + [addr];
          IntoNext(before, s.entries, done, addr);
          var sbs := s.entries[addr];
          s3.AppendAll(addr, sbs);
          done := done + {addr};
        }
        assert order[..|order|] == order;
        assert done == s.entries.Keys;
        MergedNext(ms, i);
      }
      assert ms[..|ss|] == ms;
    }

    /** Adds the entries of one address, one after the other. */
    method AppendAll(addr: string, sbs: seq<Entry>)
      modifies this
      ensures entries == if sbs == [] then old(entries)
                         else old(entries)[addr := AbsorbAll(EntriesAt(old(entries), addr), sbs)]
    {
      hide Absorb;
      for j := 0 to |sbs|
        invariant entries == if j == 0 then old(entries)
                             else old(entries)[addr := AbsorbAll(EntriesAt(old(entries), addr), sbs[..j])]
      {
        assert sbs[..j + 1][..j] == sbs[..j];
        AppendOrAddBalance(addr, sbs[j]);
      }
      assert sbs[..|sbs|] == sbs;
    }
  }

  // ---------- applying a blacklist pair by pair ----------

  ghost function DenomsIn(done: set<(string, string)>, a: string): set<string> {
    set p | p in done && p.1 == a :: p.0
  }

  ghost function PurgedBy(m: Ledger, done: set<(string, string)>): Ledger {
    map a | a in m :: Blacklisted(m[a], DenomsIn(done, a))
  }

  lemma {:induction false} BlacklistTwice(es: seq<Entry>, a: set<string>, b: set<string>)
    ensures Blacklisted(Blacklisted(es, a), b) == Blacklisted(es, a + b)
    ensures Blacklisted(es, {}) == es
  {
    if es != [] {
      BlacklistTwice(es[1..], a, b);
      BlacklistedCons(es, a);
      BlacklistedCons(Blacklisted(es, a), b);
      assert Blacklisted(es, a)[1..] == Blacklisted(es[1..], a);
    }
  }

  lemma NothingDone(m: Ledger)
    ensures PurgedBy(m, {}) == m
  {
    forall a | a in m ensures Blacklisted(m[a], DenomsIn({}, a)) == m[a] {
      assert DenomsIn({}, a) == {};
      BlacklistTwice(m[a], {}, {});
    }
  }

  /** Zeroing keeps which entries are nil apart from the ones it sets. */
  lemma ZeroNext(m: Ledger, done: set<(string, string)>, denom: string, addr: string)
    ensures SetFor(PurgedBy(m, done), denom, addr) <==> (denom, addr) in done || SetFor(m, denom, addr)
    ensures Zeroing(PurgedBy(m, done), denom, addr) == PurgedBy(m, done + {(denom, addr)})
  {
    hide Blacklisted, DenomsIn;
    DenomsNext(done, denom, addr);
    if addr in m {
      BlacklistTwice(m[addr], DenomsIn(done, addr), {denom});
      SetAfter(m[addr], DenomsIn(done, addr), denom);
    }
  }

  lemma DenomsNext(done: set<(string, string)>, denom: string, addr: string)
    ensures forall a :: a != addr ==> DenomsIn(done + {(denom, addr)}, a) == DenomsIn(done, a)
    ensures DenomsIn(done + {(denom, addr)}, addr) == DenomsIn(done, addr) + {denom}
    ensures denom in DenomsIn(done, addr) <==> (denom, addr) in done
  {
  }

  lemma SetAfter(es: seq<Entry>, denoms: set<string>, denom: string)
    ensures (forall e :: e in Blacklisted(es, denoms) && e.denom == denom ==> e.balance.Some?) <==>
            denom in denoms || forall e :: e in es && e.denom == denom ==> e.balance.Some?
  {
    forall e ensures e in Blacklisted(es, denoms) <==> exists x :: x in es && e in ZeroedOf(denoms)(x) {
      InFlatMap(es, ZeroedOf(denoms), e);
    }
    forall x | x in es ensures Zeroed(x, denoms) in Blacklisted(es, denoms) {
      InFlatMap(es, ZeroedOf(denoms), Zeroed(x, denoms));
      assert Zeroed(x, denoms) in ZeroedOf(denoms)(x);
    }
  }

  lemma AllDone(m: Ledger, bl: Blacklist, done: set<(string, string)>)
    requires forall p :: p in done <==> p.0 in bl && p.1 in bl[p.0]
    ensures PurgedBy(m, done) == Purged(m, bl)
  {
    forall a | a in m ensures DenomsIn(done, a) == DenomsFor(bl, a) {
      forall d | d in DenomsFor(bl, a) ensures d in DenomsIn(done, a) {
        assert (d, a) in done;
      }
    }
  }

  // ---------- merging address by address ----------

  ghost function Views(ss: seq<SnapshotMap>): seq<Ledger>
    reads ss
  {
    seq(|ss|, i requires 0 <= i < |ss| reads ss => ss[i].entries)
  }

  /** A snapshot merged into another one, for the addresses `done`. */
  ghost function MergedInto(m: Ledger, s: Ledger, done: set<string>): Ledger {
    map a | a in m.Keys + (set x | x in done && EntriesAt(s, x) != []) ::
      if a in done then AbsorbAll(EntriesAt(m, a), EntriesAt(s, a)) else m[a]
  }

  lemma IntoNext(m: Ledger, s: Ledger, done: set<string>, addr: string)
    requires addr in s && addr !in done
    ensures var before := MergedInto(m, s, done);
            MergedInto(m, s, done + {addr}) ==
            if s[addr] == [] then before else before[addr := AbsorbAll(EntriesAt(before, addr), s[addr])]
  {
    hide AbsorbAll;
    AbsorbNothing(EntriesAt(m, addr));
  }

  lemma AbsorbNothing(es: seq<Entry>)
    ensures AbsorbAll(es, []) == es
  {
  }

  lemma MergedNothing()
    ensures Merged([]) == map[]
  {
  }

  lemma {:induction false} AbsorbAllAppend(es: seq<Entry>, a: seq<Entry>, b: seq<Entry>)
    ensures AbsorbAll(es, a + b) == AbsorbAll(AbsorbAll(es, a), b)
  {
    if b == [] {
      assert a + b == a;
    } else {
      var n := |b| - 1;
      assert (a + b)[..|a + b| - 1] == a + b[..n];
      AbsorbAllAppend(es, a, b[..n]);
    }
  }

  lemma MergedNextAt(ms: seq<Ledger>, i: nat, a: string)
    requires i < |ms|
    ensures a in MergedInto(Merged(ms[..i]), ms[i], ms[i].Keys) <==> a in Merged(ms[..i + 1])
    ensures EntriesAt(MergedInto(Merged(ms[..i]), ms[i], ms[i].Keys), a) == EntriesAt(Merged(ms[..i + 1]), a)
  {
    hide AbsorbAll, Gathered, Addresses;
    GatheredNext(ms, i, a);
    AbsorbAllAppend([], Gathered(ms[..i], a), EntriesAt(ms[i], a));
    AddressesIff(ms[..i], a);
    AddressesIff(ms[..i + 1], a);
    AbsorbNothing([]);
    AbsorbNothing(EntriesAt(Merged(ms[..i]), a));
  }

  lemma MergedNext(ms: seq<Ledger>, i: nat)
    requires i < |ms|
    ensures MergedInto(Merged(ms[..i]), ms[i], ms[i].Keys) == Merged(ms[..i + 1])
  {
    hide MergedInto, Merged;
    forall a
      ensures a in MergedInto(Merged(ms[..i]), ms[i], ms[i].Keys) <==> a in Merged(ms[..i + 1])
      ensures EntriesAt(MergedInto(Merged(ms[..i]), ms[i], ms[i].Keys), a) == EntriesAt(Merged(ms[..i + 1]), a)
    {
      MergedNextAt(ms, i, a);
    }
    SameLedger(MergedInto(Merged(ms[..i]), ms[i], ms[i].Keys), Merged(ms[..i + 1]));
  }

  lemma SameLedger(l: Ledger, r: Ledger)
    requires forall a :: a in l <==> a in r
    requires forall a :: EntriesAt(l, a) == EntriesAt(r, a)
    ensures l == r
  {
    forall a | a in l ensures l[a] == r[a] {
      assert EntriesAt(l, a) == EntriesAt(r, a);
    }
  }

  lemma GatheredNext(ms: seq<Ledger>, i: nat, a: string)
    requires i < |ms|
    ensures Gathered(ms[..i + 1], a) == Gathered(ms[..i], a) + EntriesAt(ms[i], a)
  {
    FlatMapTake(ms, i, EntriesOf(a));
  }
}
