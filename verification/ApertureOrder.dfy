/**
 * What the schedule of the aperture workers can do to the snapshot
 * (app/export/aperture/contract_export_aperture_vaults.go). A holder's entries depend on the schedule
 * only through the item that arrives first, and as many items can be first as there are workers.
 */
module ApertureOrder {
  import opened Orders
  import opened Outcome
  import opened Snapshot
  import opened Aperture

  // ---------- the entries of a holder ----------

  function Nils(d: string, n: nat): seq<Entry> {
    seq(n, i => Entry(d, None))
  }

  function IsSet(): Entry -> int {
    (e: Entry) => if e.balance.Some? then 1 else 0
  }

  /** One entry with the sum of what is set, and one for each nil; a nil that came first takes the sum. */
  function Collapsed(d: string, given: int, nil: nat, sum: int, firstSet: bool): seq<Entry>
    requires !firstSet ==> nil > 0
  {
    if given == 0 then Nils(d, nil)
    else [Entry(d, Some(sum))] + Nils(d, if firstSet then nil else nil - 1)
  }

  lemma NilsNext(d: string, n: nat)
    ensures Nils(d, n + 1) == Nils(d, n) + [Entry(d, None)] == [Entry(d, None)] + Nils(d, n)
  {
  }

  lemma {:induction false} EntriesAre(es: seq<Entry>, d: string)
    requires es != [] && forall e :: e in es ==> e.denom == d
    ensures SumBy(es, IsSet()) >= 0 && SumBy(es, IsNil()) >= 0 && (es[0].balance.None? ==> SumBy(es, IsNil()) > 0)
    ensures es[0].balance.Some? ==> SumBy(es, IsSet()) > 0
    ensures SumBy(es, IsSet()) == 0 ==> Holding(es, d) == 0
    ensures AbsorbAll([], es) ==
            Collapsed(d, SumBy(es, IsSet()), SumBy(es, IsNil()), Holding(es, d), es[0].balance.Some?)
  {
    hide Collapsed;
    var n := |es| - 1;
    var e, before := es[n], es[..n];
    assert es == before + [e];
    SumBySnoc(before, e, IsSet());
    SumBySnoc(before, e, IsNil());
    SumBySnoc(before, e, AmountIn(d));
    if n == 0 {
      assert before == [];
      OneEntry(e);
    } else {
      EntriesAre(before, d);
      AbsorbsInto(d, SumBy(before, IsSet()), SumBy(before, IsNil()), Holding(before, d), before[0].balance.Some?, e);
    }
  }

  lemma OneEntry(e: Entry)
    ensures Absorb([], e) == Collapsed(e.denom, IsSet()(e), IsNil()(e), ValueOf(e), e.balance.Some?)
  {
  }

  lemma AbsorbsInto(d: string, given: int, nil: nat, sum: int, firstSet: bool, e: Entry)
    requires e.denom == d && given >= 0 && (!firstSet ==> nil > 0) && (firstSet ==> given > 0)
    requires (given == 0 ==> sum == 0)
    ensures Absorb(Collapsed(d, given, nil, sum, firstSet), e) ==
            Collapsed(d, given + IsSet()(e), nil + IsNil()(e), sum + ValueOf(e), firstSet)
  {
    hide Absorb, Collapsed;
    if e.balance.None? {
      NilIsAppended(Collapsed(d, given, nil, sum, firstSet), e);
      AppendNil(d, given, nil, sum, firstSet);
    } else if given == 0 {
      SetIntoNils(d, nil, e);
    } else {
      SetIntoSum(d, given, nil, sum, firstSet, e);
    }
  }

  lemma SetIntoNils(d: string, nil: nat, e: Entry)
    requires e.denom == d && e.balance.Some? && nil > 0
    ensures Absorb(Collapsed(d, 0, nil, 0, false), e) == Collapsed(d, 1, nil, ValueOf(e), false)
  {
    hide Absorb, Nils;
    NilsNext(d, nil - 1);
    AbsorbFirst(Entry(d, None), Nils(d, nil - 1), e);
  }

  lemma SetIntoSum(d: string, given: int, nil: nat, sum: int, firstSet: bool, e: Entry)
    requires e.denom == d && e.balance.Some? && given > 0 && (!firstSet ==> nil > 0)
    ensures Absorb(Collapsed(d, given, nil, sum, firstSet), e) ==
        Collapsed(d, given + 1, nil, sum + ValueOf(e), firstSet)
  {
    hide Absorb, Nils;
    AbsorbFirst(Entry(d, Some(sum)), Nils(d, if firstSet then nil else nil - 1), e);
  }

  lemma AppendNil(d: string, given: int, nil: nat, sum: int, firstSet: bool)
    requires !firstSet ==> nil > 0
    ensures Collapsed(d, given, nil, sum, firstSet) + [Entry(d, None)] == Collapsed(d, given, nil + 1, sum, firstSet)
  {
    hide Nils;
    var tail := if given == 0 || firstSet then nil else nil - 1;
    NilsNext(d, tail);
    assert [Entry(d, Some(sum))] + Nils(d, tail) + [Entry(d, None)]
        == [Entry(d, Some(sum))] + (Nils(d, tail) + [Entry(d, None)]);
  }

  lemma AbsorbFirst(first: Entry, rest: seq<Entry>, e: Entry)
    requires first.denom == e.denom && e.balance.Some?
    ensures Absorb([first] + rest, e) == [Entry(e.denom, Some(ValueOf(first) + e.balance.value))] + rest
  {
  }

  // ---------- the items of a holder ----------

  function OnlyOf(h: string): Item -> seq<Item> {
    (i: Item) => if i.holder == h then [i] else []
  }

  /** The items of a holder, in order. */
  function Of(items: seq<Item>, h: string): seq<Item> {
    FlatMap(items, OnlyOf(h))
  }

  function IsOf(h: string): Item -> int {
    (i: Item) => if i.holder == h then 1 else 0
  }

  lemma {:induction false} OfLength(items: seq<Item>, h: string)
    ensures |Of(items, h)| == SumBy(items, IsOf(h))
  {
    if items != [] {
      OfLength(items[1..], h);
    }
  }

  lemma OfAppend(a: seq<Item>, b: seq<Item>, h: string)
    ensures Of(a + b, h) == Of(a, h) + Of(b, h)
  {
    FlatMapAppend(a, b, OnlyOf(h));
  }

  lemma {:induction false} CreditsAre(items: seq<Item>, h: string, preAttack: bool)
    ensures |FlatMap(items, CreditsOf(h, preAttack))| == |Of(items, h)|
    ensures forall k :: 0 <= k < |Of(items, h)| ==>
              FlatMap(items, CreditsOf(h, preAttack))[k] == EntryOf(Of(items, h)[k], preAttack)
  {
    if items != [] {
      CreditsAre(items[1..], h, preAttack);
    }
  }

  lemma InOf(items: seq<Item>, h: string, i: Item)
    ensures i in Of(items, h) <==> i in items && i.holder == h
  {
    InFlatMap(items, OnlyOf(h), i);
    if i in items && i.holder == h {
      assert i in OnlyOf(h)(i);
    }
  }

  // ---------- the items of the first positions ----------

  /** A position answers with at most one item. */
  ghost predicate Small(p: Pool) {
    forall j :: 0 <= j < p.positions ==> |p.respond(j)| <= 1
  }

  function FirstItems(p: Pool, n: nat): seq<Item>
    requires n <= p.positions
  {
    FlatMap(Positions(p)[..n], OpenItems(p))
  }

  lemma OpenIsSmall(p: Pool, j: nat)
    requires Small(p) && j < p.positions
    ensures |OpenItems(p)(j)| <= 1
  {
    AtMostOneEach(p, [j]);
    assert [j][1..] == [];
  }

  lemma FirstItemsNext(p: Pool, n: nat)
    requires n < p.positions
    ensures FirstItems(p, n + 1) == FirstItems(p, n) + OpenItems(p)(n)
  {
    FlatMapTake(Positions(p), n, OpenItems(p));
  }

  lemma FirstItemsPrefix(p: Pool, n: nat, h: string)
    requires n <= p.positions
    ensures AllItems(p) == FirstItems(p, n) + FlatMap(Positions(p)[n..], OpenItems(p))
    ensures Of(FirstItems(p, n), h) <= Of(AllItems(p), h)
  {
    var a, b := Positions(p)[..n], Positions(p)[n..];
    assert Positions(p) == a + b;
    FlatMapAppend(a, b, OpenItems(p));
    OfAppend(FirstItems(p, n), FlatMap(b, OpenItems(p)), h);
  }

  // ---------- only early items can be first ----------

  /** Jobs are taken in order, and no worker holds more than one item. */
  ghost predicate InOrder(p: Pool, s: State) {
    && |s.jobs| <= p.positions && s.jobs == Positions(p)[p.positions - |s.jobs|..]
    && forall k :: 0 <= k < |s.workers| ==> |PendingOf()(s.workers[k])| <= 1
  }

  lemma StepInOrder(p: Pool, s: State, c: Choice)
    requires Small(p) && InOrder(p, s) && Enabled(p, s, c)
    ensures InOrder(p, Step(p, s, c))
  {
    hide OpenItems;
    if c.move == Take {
      OpenIsSmall(p, s.jobs[0]);
    }
  }

  lemma {:induction false} SchedulesInOrder(p: Pool, choices: seq<Choice>)
    requires Small(p) && After(p, choices).Some?
    ensures InOrder(p, After(p, choices).value)
  {
    hide Enabled, Step, Small, InOrder;
    if choices == [] {
      StartInOrder(p);
    } else {
      var n := |choices| - 1;
      SchedulesInOrder(p, choices[..n]);
      StepInOrder(p, After(p, choices[..n]).value, choices[n]);
    }
  }

  lemma StartInOrder(p: Pool)
    ensures InOrder(p, Start(p))
  {
  }

  lemma {:induction false} FewPending(workers: seq<Worker>)
    requires forall k :: 0 <= k < |workers| ==> |PendingOf()(workers[k])| <= 1
    ensures |FlatMap(workers, PendingOf())| <= |workers|
  {
    if workers != [] {
      FewPending(workers[1..]);
    }
  }

  lemma CountAtMost(items: seq<Item>, h: string)
    ensures 0 <= |Of(items, h)| <= |items|
  {
    OfLength(items, h);
    SumByNonNegative(items, IsOf(h));
    AtMostAll(items, h);
  }

  lemma {:induction false} AtMostAll(items: seq<Item>, h: string)
    ensures SumBy(items, IsOf(h)) <= |items|
  {
    if items != [] {
      AtMostAll(items[1..], h);
    }
  }

  /** What was taken from the jobs is what was sent or is pending. */
  lemma Taken(p: Pool, s: State)
    requires Conserves(p, s) && InOrder(p, s)
    ensures multiset(s.items + FlatMap(s.workers, PendingOf())) == multiset(FirstItems(p, p.positions - |s.jobs|))
  {
    hide OpenItems, PendingOf, AllItems, FlatMap, FirstItems, Positions;
    var n := p.positions - |s.jobs|;
    FirstItemsPrefix(p, n, "");
    var sent, rest := s.items + FlatMap(s.workers, PendingOf()), FlatMap(s.jobs, OpenItems(p));
    assert Everything(p, s) == sent + rest;
    Cancel(sent, FirstItems(p, n), rest);
  }

  lemma Cancel(a: seq<Item>, b: seq<Item>, c: seq<Item>)
    requires multiset(a + c) == multiset(b + c)
    ensures multiset(a) == multiset(b)
  {
    assert multiset(a + c) == multiset(a) + multiset(c) && multiset(b + c) == multiset(b) + multiset(c);
    forall x ensures multiset(a)[x] == multiset(b)[x] {
      assert (multiset(a) + multiset(c))[x] == (multiset(b) + multiset(c))[x];
    }
  }

  /** While nothing of a holder was sent, at most as many of its items were taken as there are workers. */
  lemma TakenIsEarly(p: Pool, s: State, h: string, i: Item)
    requires Conserves(p, s) && InOrder(p, s) && Of(s.items, h) == []
    requires i.holder == h && i in FlatMap(s.workers, PendingOf())
    ensures i in Early(p, h)
  {
    hide PendingOf, OpenItems, AllItems, Conserves, FirstItems, FlatMap, Of, Early;
    var pending, first := FlatMap(s.workers, PendingOf()), FirstItems(p, p.positions - |s.jobs|);
    Taken(p, s);
    OfAppend(s.items, pending, h);
    OfLength(s.items + pending, h);
    OfLength(first, h);
    SumByPermutation(s.items + pending, first, IsOf(h));
    FewPending(s.workers);
    CountAtMost(pending, h);
    SameItems(s.items + pending, first);
    InOf(first, h, i);
    FirstItemsPrefix(p, p.positions - |s.jobs|, h);
    WorkersKept(p, s);
    PrefixIsEarly(p, h, Of(first, h), i);
  }

  lemma PrefixIsEarly(p: Pool, h: string, taken: seq<Item>, i: Item)
    requires taken <= Of(AllItems(p), h) && |taken| <= p.workers && i in taken
    ensures i in Early(p, h)
  {
    assert taken <= Early(p, h);
  }

  lemma WorkersKept(p: Pool, s: State)
    requires Conserves(p, s)
    ensures |s.workers| == p.workers
  {
  }

  /** The items of a holder that can be the first to arrive: as many as there are workers. */
  function Early(p: Pool, h: string): seq<Item> {
    var mine := Of(AllItems(p), h);
    if |mine| <= p.workers then mine else mine[..p.workers]
  }

  lemma {:induction false} FirstIsEarly(p: Pool, choices: seq<Choice>, h: string)
    requires Small(p) && After(p, choices).Some? && Of(After(p, choices).value.items, h) != []
    ensures Of(After(p, choices).value.items, h)[0] in Early(p, h)
  {
    hide Small, Early, OpenItems, Conserves, InOrder;
    var n := |choices| - 1;
    assert choices != [] by {
      assert Of(Start(p).items, h) == [];
    }
    var s, c := After(p, choices[..n]).value, choices[n];
    if Of(s.items, h) != [] {
      FirstIsEarly(p, choices[..n], h);
      if c.move == Send {
        OfAppend(s.items, [s.workers[c.worker].pending[0]], h);
      }
    } else {
      SchedulesConserve(p, choices[..n]);
      SchedulesInOrder(p, choices[..n]);
      assert c.move == Send;
      var i := s.workers[c.worker].pending[0];
      OfAppend(s.items, [i], h);
      OfOne(i, h);
      IsPending(s.workers, c.worker, i);
      TakenIsEarly(p, s, h, i);
    }
  }

  lemma OfOne(i: Item, h: string)
    ensures Of([i], h) == if i.holder == h then [i] else []
  {
    var rest := [i][1..];
    assert rest == [];
    assert Of([i], h) == OnlyOf(h)(i) + Of(rest, h);
  }

  lemma IsPending(workers: seq<Worker>, k: nat, i: Item)
    requires k < |workers| && i in PendingOf()(workers[k])
    ensures i in FlatMap(workers, PendingOf())
  {
    InFlatMap(workers, PendingOf(), i);
    assert workers[k] in workers;
  }

  // ---------- and every early item can ----------

  /** The first `n` positions are done, except that one worker each holds back the items of the holder. */
  ghost predicate HeldBack(p: Pool, h: string, n: nat, s: State) {
    && n <= p.positions && s.jobs == Positions(p)[n..] && |s.workers| == p.workers && Of(s.items, h) == []
    && var held := Of(FirstItems(p, n), h);
       forall k :: 0 <= k < p.workers ==> s.workers[k] == if k < |held| then Busy([held[k]]) else Idle
  }

  lemma TakeNext(p: Pool, h: string, n: nat, choices: seq<Choice>, w: nat)
    requires After(p, choices).Some? && HeldBack(p, h, n, After(p, choices).value) && n < p.positions
    requires |Of(FirstItems(p, n), h)| <= w < p.workers
    ensures var s := After(p, choices).value;
            After(p, choices + [Choice(w, Take)]) ==
            Some(State(Positions(p)[n + 1..], s.workers[w := Busy(OpenItems(p)(n))], s.items))
  {
    hide After, OpenItems, Of, FirstItems;
    var s := After(p, choices).value;
    assert s.jobs[0] == n && s.jobs[1..] == Positions(p)[n + 1..];
    AfterOneMore(p, choices, Choice(w, Take));
  }

  lemma FinishNext(p: Pool, choices: seq<Choice>, w: nat)
    requires After(p, choices).Some?
    requires w < |After(p, choices).value.workers| && After(p, choices).value.workers[w] == Busy([])
    ensures var s := After(p, choices).value;
            After(p, choices + [Choice(w, Finish)]) == Some(s.(workers := s.workers[w := Idle]))
  {
    hide After;
    AfterOneMore(p, choices, Choice(w, Finish));
  }

  lemma SendNext(p: Pool, choices: seq<Choice>, w: nat, i: Item)
    requires Small(p) && After(p, choices).Some?
    requires w < |After(p, choices).value.workers| && After(p, choices).value.workers[w] == Busy([i])
    ensures var s := After(p, choices).value;
            After(p, choices + [Choice(w, Send)]) == Some(State(s.jobs, s.workers[w := Busy([])], s.items + [i]))
  {
    hide After, Fits;
    SmallAnswersFit(p);
    var c := WorkerCanMove(p, choices, w);
    assert c == Choice(w, Send);
    AfterOneMore(p, choices, c);
    assert [i][1..] == [];
  }

  /** A position without an item of the holder is done by the spare worker. */
  lemma PassOver(p: Pool, h: string, n: nat, choices: seq<Choice>, w: nat) returns (more: seq<Choice>)
    requires Small(p) && After(p, choices).Some? && HeldBack(p, h, n, After(p, choices).value) && n < p.positions
    requires |Of(FirstItems(p, n), h)| <= w < p.workers && Of(OpenItems(p)(n), h) == []
    ensures After(p, more).Some? && HeldBack(p, h, n + 1, After(p, more).value)
    ensures Of(FirstItems(p, n + 1), h) == Of(FirstItems(p, n), h)
  {
    hide After, OpenItems, Of, FirstItems, Small;
    var s, open := After(p, choices).value, OpenItems(p)(n);
    FirstItemsNext(p, n);
    OfAppend(FirstItems(p, n), open, h);
    TakeNext(p, h, n, choices, w);
    more := choices + [Choice(w, Take)];
    OpenIsSmall(p, n);
    if open != [] {
      assert open == [open[0]];
      SendNext(p, more, w, open[0]);
      more := more + [Choice(w, Send)];
      OfAppend(s.items, open, h);
    }
    FinishNext(p, more, w);
    more := more + [Choice(w, Finish)];
  }

  /** A position with one is taken by the next worker, which then waits. */
  lemma HoldOn(p: Pool, h: string, n: nat, choices: seq<Choice>, i: Item) returns (more: seq<Choice>)
    requires Small(p) && After(p, choices).Some? && HeldBack(p, h, n, After(p, choices).value) && n < p.positions
    requires |Of(FirstItems(p, n), h)| < p.workers && OpenItems(p)(n) == [i] && i.holder == h
    ensures After(p, more).Some? && HeldBack(p, h, n + 1, After(p, more).value)
    ensures Of(FirstItems(p, n + 1), h) == Of(FirstItems(p, n), h) + [i]
  {
    hide After, OpenItems, Of, FirstItems, Small;
    FirstItemsNext(p, n);
    OfAppend(FirstItems(p, n), [i], h);
    OfOne(i, h);
    var w := |Of(FirstItems(p, n), h)|;
    TakeNext(p, h, n, choices, w);
    more := choices + [Choice(w, Take)];
  }

  /** Holding back the items before it, some schedule sends an early item first. */
  lemma {:induction false} Lead(p: Pool, h: string, rank: nat, n: nat, choices: seq<Choice>) returns (more: seq<Choice>)
    requires Small(p) && rank < p.workers && rank < |Of(AllItems(p), h)| && n <= p.positions
    requires After(p, choices).Some? && HeldBack(p, h, n, After(p, choices).value)
    requires |Of(FirstItems(p, n), h)| <= rank
    ensures After(p, more).Some? && Of(After(p, more).value.items, h) == [Of(AllItems(p), h)[rank]]
    decreases p.positions - n
  {
    hide After, OpenItems, Of, FirstItems, Small, HeldBack, AllItems;
    FirstItemsAll(p);
    var open, held := OpenItems(p)(n), Of(FirstItems(p, n), h);
    OpenIsSmall(p, n);
    NothingOf(open, h);
    if Of(open, h) == [] {
      more := PassOver(p, h, n, choices, rank);
      more := Lead(p, h, rank, n + 1, more);
    } else if |held| < rank {
      more := HoldOn(p, h, n, choices, open[0]);
      more := Lead(p, h, rank, n + 1, more);
    } else {
      more := SendFirst(p, h, n, choices, open[0]);
    }
  }

  lemma FirstItemsAll(p: Pool)
    ensures FirstItems(p, p.positions) == AllItems(p)
  {
    assert Positions(p)[..p.positions] == Positions(p);
  }

  lemma NothingOf(items: seq<Item>, h: string)
    requires |items| <= 1
    ensures Of(items, h) != [] ==> |items| == 1 && items == [items[0]] && items[0].holder == h
  {
    if items != [] {
      assert items == [items[0]];
      OfOne(items[0], h);
    }
  }

  lemma SendFirst(p: Pool, h: string, n: nat, choices: seq<Choice>, i: Item) returns (more: seq<Choice>)
    requires Small(p) && After(p, choices).Some? && HeldBack(p, h, n, After(p, choices).value) && n < p.positions
    requires |Of(FirstItems(p, n), h)| < p.workers && OpenItems(p)(n) == [i] && i.holder == h
    ensures After(p, more).Some? && Of(After(p, more).value.items, h) == [i]
    ensures |Of(FirstItems(p, n), h)| < |Of(AllItems(p), h)| && Of(AllItems(p), h)[|Of(FirstItems(p, n), h)|] == i
  {
    hide After, OpenItems, Of, FirstItems, Small, AllItems;
    var w, s := |Of(FirstItems(p, n), h)|, After(p, choices).value;
    FirstItemsNext(p, n);
    OfAppend(FirstItems(p, n), [i], h);
    OfOne(i, h);
    FirstItemsPrefix(p, n + 1, h);
    TakeNext(p, h, n, choices, w);
    more := choices + [Choice(w, Take)];
    SendNext(p, more, w, i);
    more := more + [Choice(w, Send)];
    OfAppend(s.items, [i], h);
  }

  // ---------- complete schedules ----------

  ghost predicate Complete(p: Pool, choices: seq<Choice>) {
    After(p, choices).Some? && Finished(After(p, choices).value)
  }

  /** What was sent stays first in the channel. */
  lemma {:induction false} ItemsGrow(p: Pool, choices: seq<Choice>, more: seq<Choice>)
    requires choices <= more && After(p, more).Some?
    ensures After(p, choices).Some? && After(p, choices).value.items <= After(p, more).value.items
    decreases |more|
  {
    hide Enabled;
    if choices != more {
      ItemsGrow(p, choices, more[..|more| - 1]);
    }
  }

  lemma Complement(p: Pool, choices: seq<Choice>) returns (more: seq<Choice>)
    requires Small(p) && p.workers > 0 && After(p, choices).Some?
    ensures choices <= more && Complete(p, more)
  {
    hide After, Enabled, Fits, Finished;
    more := RunToEnd(p, choices);
    SmallAnswersFit(p);
    NotStuck(p, more);
  }

  /** An early item is the first of its holder in some complete schedule. */
  lemma EarlyIsFirst(p: Pool, h: string, rank: nat) returns (more: seq<Choice>)
    requires Small(p) && rank < |Early(p, h)|
    ensures Complete(p, more)
    ensures Of(After(p, more).value.items, h) != [] && Of(After(p, more).value.items, h)[0] == Early(p, h)[rank]
  {
    hide Of, AllItems, Small, Finished;
    StartHeldBack(p, h);
    var first := Lead(p, h, rank, 0, []);
    more := Complement(p, first);
    ItemsGrow(p, first, more);
    var a, b := After(p, first).value.items, After(p, more).value.items;
    assert b == a + b[|a|..];
    OfAppend(a, b[|a|..], h);
  }

  lemma StartHeldBack(p: Pool, h: string)
    ensures HeldBack(p, h, 0, Start(p)) && Of(FirstItems(p, 0), h) == []
  {
    assert Positions(p)[..0] == [] && Positions(p)[0..] == Positions(p);
  }

  // ---------- when the schedule matters ----------

  /** The items of the holder that can be first are all set, or all unset. */
  ghost predicate Steady(p: Pool, h: string, preAttack: bool) {
    forall i, j :: i in Early(p, h) && j in Early(p, h) ==>
                     BalanceOf(i, preAttack).Some? == BalanceOf(j, preAttack).Some?
  }

  ghost predicate ScheduleFree(p: Pool, preAttack: bool) {
    forall x, y :: Complete(p, x) && Complete(p, y) ==>
                     Credited(After(p, x).value.items, preAttack) == Credited(After(p, y).value.items, preAttack)
  }

  /** The entries of a holder, from all its items and the one that came first. */
  ghost function EntriesFrom(p: Pool, h: string, preAttack: bool, firstSet: bool): seq<Entry> {
    var credits, d := FlatMap(AllItems(p), CreditsOf(h, preAttack)), DenomOf(preAttack);
    var nil := SumBy(credits, IsNil());
    if nil < 0 || (!firstSet && nil == 0) then []
    else Collapsed(d, SumBy(credits, IsSet()), nil, Holding(credits, d), firstSet)
  }

  lemma CreditedIs(p: Pool, choices: seq<Choice>, h: string, preAttack: bool)
    requires p.workers > 0 && Complete(p, choices)
    ensures var items := After(p, choices).value.items;
            && (h in Credited(items, preAttack) <==> Of(items, h) != [])
            && (Of(items, h) != [] <==> Of(AllItems(p), h) != [])
            && (Of(items, h) != [] ==>
                  Credited(items, preAttack)[h] == EntriesFrom(p, h, preAttack, BalanceOf(Of(items, h)[0],
                      preAttack).Some?))
  {
    hide After, Finished, AllItems, AbsorbAll, Collapsed, Of;
    var items, d := After(p, choices).value.items, DenomOf(preAttack);
    FinishedHasAll(p, choices);
    SameItems(items, AllItems(p));
    OfMembers(items, h);
    OfMembers(AllItems(p), h);
    if Of(items, h) != [] {
      var ours, all := FlatMap(items, CreditsOf(h, preAttack)), FlatMap(AllItems(p), CreditsOf(h, preAttack));
      FlatMapPermutation(items, AllItems(p), CreditsOf(h, preAttack));
      SumByPermutation(ours, all, IsNil());
      SumByPermutation(ours, all, IsSet());
      HoldingPermutation(ours, all, d);
      CreditsAre(items, h, preAttack);
      CreditDenoms(items, h, preAttack);
      EntriesAre(ours, d);
    }
  }

  lemma OfMembers(items: seq<Item>, h: string)
    ensures Of(items, h) != [] <==> h in Holders(items)
  {
    hide Of;
    if Of(items, h) != [] {
      InOf(items, h, Of(items, h)[0]);
    }
    if h in Holders(items) {
      var i :| i in items && i.holder == h;
      InOf(items, h, i);
    }
  }

  /** With both a set and an unset balance, it shows in the entries which came first. */
  lemma FirstMatters(p: Pool, h: string, preAttack: bool, i: Item, j: Item)
    requires i in AllItems(p) && i.holder == h && BalanceOf(i, preAttack).Some?
    requires j in AllItems(p) && j.holder == h && BalanceOf(j, preAttack).None?
    ensures EntriesFrom(p, h, preAttack, true) != EntriesFrom(p, h, preAttack, false)
  {
    hide AllItems;
    var credits := FlatMap(AllItems(p), CreditsOf(h, preAttack));
    IsCredit(AllItems(p), h, preAttack, i);
    IsCredit(AllItems(p), h, preAttack, j);
    Counted(credits, IsSet(), EntryOf(i, preAttack));
    Counted(credits, IsNil(), EntryOf(j, preAttack));
    assert |EntriesFrom(p, h, preAttack, true)| == |EntriesFrom(p, h, preAttack, false)| + 1;
  }

  lemma IsCredit(items: seq<Item>, h: string, preAttack: bool, i: Item)
    requires i in items && i.holder == h
    ensures EntryOf(i, preAttack) in FlatMap(items, CreditsOf(h, preAttack))
  {
    InFlatMap(items, CreditsOf(h, preAttack), EntryOf(i, preAttack));
    assert EntryOf(i, preAttack) in CreditsOf(h, preAttack)(i);
  }

  lemma Counted(es: seq<Entry>, f: Entry -> int, e: Entry)
    requires e in es && f(e) == 1 && forall x :: x in es ==> f(x) >= 0
    ensures SumBy(es, f) >= 1
  {
    var k :| 0 <= k < |es| && es[k] == e;
    SumByRemove(es, k, f);
    SumByNonNegative(es[..k] + es[k + 1..], f);
  }

  lemma SteadyAgrees(p: Pool, x: seq<Choice>, y: seq<Choice>, h: string, preAttack: bool)
    requires Small(p) && p.workers > 0 && Complete(p, x) && Complete(p, y) && Steady(p, h, preAttack)
    ensures var cx, cy := Credited(After(p, x).value.items, preAttack), Credited(After(p, y).value.items, preAttack);
            (h in cx <==> h in cy) && (h in cx ==> cx[h] == cy[h])
  {
    hide After, Finished, Credited, Of, Early, EntriesFrom, Small, AllItems;
    CreditedIs(p, x, h, preAttack);
    CreditedIs(p, y, h, preAttack);
    if Of(AllItems(p), h) != [] {
      FirstIsEarly(p, x, h);
      FirstIsEarly(p, y, h);
    }
  }

  lemma UnsteadyDiffers(p: Pool, h: string, preAttack: bool)
    requires Small(p) && p.workers > 0 && !Steady(p, h, preAttack)
    ensures !ScheduleFree(p, preAttack)
  {
    hide After, Finished, Credited, Of, Early, EntriesFrom, Small, AllItems;
    var i, j :| i in Early(p, h) && j in Early(p, h) && BalanceOf(i, preAttack).Some? && BalanceOf(j, preAttack).None?;
    var a, b :| 0 <= a < |Early(p, h)| && Early(p, h)[a] == i && 0 <= b < |Early(p, h)| && Early(p, h)[b] == j;
    var x := EarlyIsFirst(p, h, a);
    var y := EarlyIsFirst(p, h, b);
    CreditedIs(p, x, h, preAttack);
    CreditedIs(p, y, h, preAttack);
    EarlyAreItems(p, h, i);
    EarlyAreItems(p, h, j);
    FirstMatters(p, h, preAttack, i, j);
  }

  lemma EarlyAreItems(p: Pool, h: string, i: Item)
    requires i in Early(p, h)
    ensures i in AllItems(p) && i.holder == h
  {
    assert i in Of(AllItems(p), h);
    InOf(AllItems(p), h, i);
  }

  /**
   * With at most one item per position, all complete schedules build the same snapshot if and only if for
   * every holder the first open items, as many as there are workers, are all set or all unset.
   */
  lemma ScheduleFreeIff(p: Pool, preAttack: bool)
    requires Small(p) && p.workers > 0
    ensures ScheduleFree(p, preAttack) <==> forall h :: Steady(p, h, preAttack)
  {
    hide After, Finished, Credited, Steady, Small;
    if forall h :: Steady(p, h, preAttack) {
      forall x, y | Complete(p, x) && Complete(p, y)
        ensures Credited(After(p, x).value.items, preAttack) == Credited(After(p, y).value.items, preAttack)
      {
        forall h
          ensures var cx, cy := Credited(After(p, x).value.items, preAttack), Credited(After(p, y).value.items,
              preAttack);
                  (h in cx <==> h in cy) && (h in cx ==> cx[h] == cy[h])
        {
          SteadyAgrees(p, x, y, h, preAttack);
        }
      }
    } else {
      var h :| !Steady(p, h, preAttack);
      UnsteadyDiffers(p, h, preAttack);
    }
  }

  /** Two positions of one holder, the first without a balance. */
  function MixedPool(): Pool {
    Pool(2, 5, (j: nat) => [Item("vault", "holder", 0, if j == 0 then None else Some(1), None)])
  }

  /** There the snapshot depends on the schedule. */
  lemma MixedPoolDiffers()
    ensures Small(MixedPool()) && !ScheduleFree(MixedPool(), true)
  {
    hide ScheduleFree;
    var p, h := MixedPool(), "holder";
    var a, b := p.respond(0)[0], p.respond(1)[0];
    MixedItems(a, b);
    InOf(AllItems(p), h, a);
    InOf(AllItems(p), h, b);
    CountAtMost(AllItems(p), h);
    assert a in Early(p, h) && b in Early(p, h);
    UnsteadyDiffers(p, h, true);
  }

  lemma MixedItems(a: Item, b: Item)
    requires a == MixedPool().respond(0)[0] && b == MixedPool().respond(1)[0]
    ensures AllItems(MixedPool()) == [a, b]
  {
    var p := MixedPool();
    OpenOne(a);
    OpenOne(b);
    FirstItemsAll(p);
    FirstItemsNext(p, 0);
    FirstItemsNext(p, 1);
    assert p.respond(0) == [a] && p.respond(1) == [b];
  }

  lemma OpenOne(i: Item)
    requires i.closeHeight == 0
    ensures FlatMap([i], OpenOnly()) == [i]
  {
    var rest := [i][1..];
    assert rest == [];
    assert FlatMap([i], OpenOnly()) == OpenOnly()(i) + FlatMap(rest, OpenOnly());
  }
}
