/**
 * The worker pool of the aperture exporter (app/export/aperture/contract_export_aperture_vaults.go):
 * workers drain a closed channel of positions and send open positions to a buffered channel, which
 * is read once all of them are done. Every schedule of the workers is considered.
 */
module Aperture {
  import opened Orders
  import opened Outcome
  import opened Snapshot
  import SM = SnapshotMap

  datatype Item = Item(contract: string, holder: string, closeHeight: int, aUst: Option<int>, ust: Option<int>)

  /** Number of positions, number of workers, and what the contract answers for a position. */
  datatype Pool = Pool(positions: nat, workers: nat, respond: nat -> seq<Item>)

  datatype Worker = Idle | Busy(pending: seq<Item>) | Done

  datatype State = State(jobs: seq<nat>, workers: seq<Worker>, items: seq<Item>)

  /** What a worker does next: take a job, send an item, finish the job, or leave. */
  datatype Move = Take | Send | Finish | Exit

  datatype Choice = Choice(worker: nat, move: Move)

  function OpenOnly(): Item -> seq<Item> {
    (i: Item) => if i.closeHeight == 0 then [i] else []
  }

  /** The items of a position that is still open. */
  function OpenItems(p: Pool): nat -> seq<Item> {
    (j: nat) => FlatMap(p.respond(j), OpenOnly())
  }

  function Positions(p: Pool): seq<nat> {
    seq(p.positions, i requires 0 <= i => i)
  }

  /** Everything the workers will ever send. */
  function AllItems(p: Pool): seq<Item> {
    FlatMap(Positions(p), OpenItems(p))
  }

  function Start(p: Pool): State {
    State(Positions(p), seq(p.workers, i => Idle), [])
  }

  /** A send waits while the result channel, as large as the number of positions, is full. */
  predicate Enabled(p: Pool, s: State, c: Choice) {
    && c.worker < |s.workers|
    && var w := s.workers[c.worker];
       match c.move
       case Take => w.Idle? && s.jobs != []
       case Send => w.Busy? && w.pending != [] && |s.items| < p.positions
       case Finish => w.Busy? && w.pending == []
       case Exit => w.Idle? && s.jobs == []
  }

  function Step(p: Pool, s: State, c: Choice): State
    requires Enabled(p, s, c)
  {
    var w := s.workers[c.worker];
    match c.move
    case Take => State(s.jobs[1..], s.workers[c.worker := Busy(OpenItems(p)(s.jobs[0]))], s.items)
    case Send => State(s.jobs, s.workers[c.worker := Busy(w.pending[1..])], s.items + [w.pending[0]])
    case Finish => s.(workers := s.workers[c.worker := Idle])
    case Exit => s.(workers := s.workers[c.worker := Done])
  }

  /** The state a schedule leads to, if every choice in it is possible when it is made. */
  function After(p: Pool, choices: seq<Choice>): Option<State> {
    if choices == [] then Some(Start(p))
    else
      var n := |choices| - 1;
      match After(p, choices[..n])
      case None => None
      case Some(s) => if Enabled(p, s, choices[n]) then Some(Step(p, s, choices[n])) else None
  }

  ghost predicate Finished(s: State) {
    forall k :: 0 <= k < |s.workers| ==> s.workers[k].Done?
  }

  ghost predicate Stuck(p: Pool, s: State) {
    !Finished(s) && forall c :: !Enabled(p, s, c)
  }

  // ---------- what every schedule keeps ----------

  function PendingOf(): Worker -> seq<Item> {
    (w: Worker) => if w.Busy? then w.pending else []
  }

  /** Sent, about to be sent, and not yet asked for. */
  function Everything(p: Pool, s: State): seq<Item> {
    s.items + FlatMap(s.workers, PendingOf()) + FlatMap(s.jobs, OpenItems(p))
  }

  ghost predicate Conserves(p: Pool, s: State) {
    && |s.workers| == p.workers
    && multiset(Everything(p, s)) == multiset(AllItems(p))
    && (Done in s.workers ==> s.jobs == [])
  }

  lemma PendingUpdate(workers: seq<Worker>, i: nat, w: Worker)
    requires i < |workers|
    ensures multiset(FlatMap(workers[i := w], PendingOf())) + multiset(PendingOf()(workers[i])) ==
            multiset(FlatMap(workers, PendingOf())) + multiset(PendingOf()(w))
  {
    FlatMapRemove(workers, i, PendingOf());
    FlatMapRemove(workers[i := w], i, PendingOf());
    assert workers[i := w][..i] + workers[i := w][i + 1..] == workers[..i] + workers[i + 1..];
  }

  lemma EverythingIs(p: Pool, s: State)
    ensures multiset(Everything(p, s)) ==
            multiset(s.items) + multiset(FlatMap(s.workers, PendingOf())) + multiset(FlatMap(s.jobs, OpenItems(p)))
  {
  }

  /** What a worker gives up is what the channel gains, or what it takes is what the jobs lose. */
  lemma Balance(sent: multiset<Item>, pending: multiset<Item>, asked: multiset<Item>,
                sent2: multiset<Item>, pending2: multiset<Item>, asked2: multiset<Item>,
                had: multiset<Item>, has: multiset<Item>)
    requires pending2 + had == pending + has
    requires sent2 + has + asked2 == sent + had + asked
    ensures sent2 + pending2 + asked2 == sent + pending + asked
  {
    forall x ensures (sent2 + pending2 + asked2)[x] == (sent + pending + asked)[x] {
      assert (pending2 + had)[x] == (pending + has)[x];
      assert (sent2 + has + asked2)[x] == (sent + had + asked)[x];
    }
  }

  lemma StepBalances(p: Pool, s: State, c: Choice)
    requires Enabled(p, s, c)
    ensures var t := Step(p, s, c);
            multiset(t.items) + multiset(PendingOf()(t.workers[c.worker])) + multiset(FlatMap(t.jobs, OpenItems(p))) ==
            multiset(s.items) + multiset(PendingOf()(s.workers[c.worker])) + multiset(FlatMap(s.jobs, OpenItems(p)))
  {
    hide OpenItems, PendingOf;
    var t, w := Step(p, s, c), s.workers[c.worker];
    PendingIs(w);
    PendingIs(t.workers[c.worker]);
    if c.move == Send {
      assert w.pending == [w.pending[0]] + w.pending[1..];
    }
  }

  lemma StepKeepsItems(p: Pool, s: State, c: Choice)
    requires Enabled(p, s, c)
    ensures multiset(Everything(p, Step(p, s, c))) == multiset(Everything(p, s))
  {
    hide Everything, OpenItems, PendingOf, FlatMap;
    var t := Step(p, s, c);
    EverythingIs(p, s);
    EverythingIs(p, t);
    PendingUpdate(s.workers, c.worker, t.workers[c.worker]);
    StepBalances(p, s, c);
    Balance(multiset(s.items), multiset(FlatMap(s.workers, PendingOf())), multiset(FlatMap(s.jobs, OpenItems(p))),
            multiset(t.items), multiset(FlatMap(t.workers, PendingOf())), multiset(FlatMap(t.jobs, OpenItems(p))),
            multiset(PendingOf()(s.workers[c.worker])), multiset(PendingOf()(t.workers[c.worker])));
  }

  lemma PendingIs(w: Worker)
    ensures PendingOf()(w) == if w.Busy? then w.pending else []
  {
  }

  lemma StepConserves(p: Pool, s: State, c: Choice)
    requires Conserves(p, s) && Enabled(p, s, c)
    ensures Conserves(p, Step(p, s, c))
  {
    hide Everything, AllItems, OpenItems;
    StepKeepsItems(p, s, c);
    StepDone(s, Step(p, s, c), c.worker);
  }

  lemma StepDone(s: State, t: State, i: nat)
    requires i < |s.workers| == |t.workers| && t.workers == s.workers[i := t.workers[i]]
    ensures Done in t.workers ==> Done in s.workers || t.workers[i] == Done
  {
    if Done in t.workers {
      var k :| 0 <= k < |t.workers| && t.workers[k] == Done;
      if k != i {
        assert s.workers[k] == Done;
      }
    }
  }

  lemma StartConserves(p: Pool)
    ensures Conserves(p, Start(p))
  {
    var s := Start(p);
    NothingPending(s.workers);
    assert Everything(p, s) == AllItems(p);
  }

  lemma {:induction false} NothingPending(workers: seq<Worker>)
    requires forall k :: 0 <= k < |workers| ==> !workers[k].Busy?
    ensures FlatMap(workers, PendingOf()) == []
  {
    if workers != [] {
      NothingPending(workers[1..]);
    }
  }

  /** No item is lost, duplicated or invented by any schedule. */
  lemma {:induction false} SchedulesConserve(p: Pool, choices: seq<Choice>)
    requires After(p, choices).Some?
    ensures Conserves(p, After(p, choices).value)
  {
    hide Conserves, Enabled, Step, Start;
    if choices == [] {
      StartConserves(p);
    } else {
      var n := |choices| - 1;
      SchedulesConserve(p, choices[..n]);
      StepConserves(p, After(p, choices[..n]).value, choices[n]);
    }
  }

  /** When all workers have left, exactly the open positions have been sent. */
  lemma FinishedHasAll(p: Pool, choices: seq<Choice>)
    requires p.workers > 0 && After(p, choices).Some? && Finished(After(p, choices).value)
    ensures multiset(After(p, choices).value.items) == multiset(AllItems(p))
  {
    var s := After(p, choices).value;
    SchedulesConserve(p, choices);
    assert s.workers[0] in s.workers;
    NothingPending(s.workers);
    EverythingIs(p, s);
  }

  // ---------- progress ----------

  function JobCost(p: Pool): nat -> int {
    (j: nat) => 2 + |OpenItems(p)(j)|
  }

  function WorkerCost(): Worker -> int {
    (w: Worker) => match w case Idle => 1 case Busy(pending) => 2 + |pending| case Done => 0
  }

  /** The number of moves left. */
  function MovesLeft(p: Pool, s: State): int {
    SumBy(s.jobs, JobCost(p)) + SumBy(s.workers, WorkerCost())
  }

  lemma CostUpdate(workers: seq<Worker>, i: nat, w: Worker)
    requires i < |workers|
    ensures SumBy(workers[i := w], WorkerCost()) == SumBy(workers, WorkerCost()) - WorkerCost()(workers[i]) +
        WorkerCost()(w)
  {
    SumByRemove(workers, i, WorkerCost());
    SumByRemove(workers[i := w], i, WorkerCost());
    assert workers[i := w][..i] + workers[i := w][i + 1..] == workers[..i] + workers[i + 1..];
  }

  /** Every move uses up one: no schedule goes on for ever. */
  lemma StepSpends(p: Pool, s: State, c: Choice)
    requires Enabled(p, s, c)
    ensures MovesLeft(p, Step(p, s, c)) == MovesLeft(p, s) - 1
  {
    hide OpenItems;
    CostUpdate(s.workers, c.worker, Step(p, s, c).workers[c.worker]);
  }

  /** Every schedule is finite: what it has used and what is left add up to the same number. */
  lemma {:induction false} SchedulesAreBounded(p: Pool, choices: seq<Choice>)
    requires After(p, choices).Some?
    ensures |choices| + MovesLeft(p, After(p, choices).value) == MovesLeft(p, Start(p))
  {
    hide MovesLeft, Enabled, Step, Start;
    if choices != [] {
      var n := |choices| - 1;
      SchedulesAreBounded(p, choices[..n]);
      StepSpends(p, After(p, choices[..n]).value, choices[n]);
    }
  }

  lemma MovesLeftNonNegative(p: Pool, s: State)
    ensures MovesLeft(p, s) >= 0
  {
    SumByNonNegative(s.jobs, JobCost(p));
    SumByNonNegative(s.workers, WorkerCost());
  }

  /** All items fit the result channel: true when a position has at most one open item. */
  predicate Fits(p: Pool) {
    |AllItems(p)| <= p.positions
  }

  lemma SmallAnswersFit(p: Pool)
    requires forall j :: 0 <= j < p.positions ==> |p.respond(j)| <= 1
    ensures Fits(p)
  {
    assert forall j :: j in Positions(p) ==> 0 <= j < p.positions;
    AtMostOneEach(p, Positions(p));
  }

  lemma {:induction false} AtMostOneEach(p: Pool, jobs: seq<nat>)
    requires forall j :: j in jobs ==> |p.respond(j)| <= 1
    ensures |FlatMap(jobs, OpenItems(p))| <= |jobs|
  {
    if jobs != [] {
      AtMostOneEach(p, jobs[1..]);
      var answer := p.respond(jobs[0]);
      assert |FlatMap(answer, OpenOnly())| <= 1 by {
        if answer != [] {
          assert answer[1..] == [];
        }
      }
    }
  }

  lemma ItemsBound(p: Pool, s: State)
    requires Conserves(p, s)
    ensures |s.items| + |FlatMap(s.workers, PendingOf())| <= |AllItems(p)|
  {
    assert |multiset(Everything(p, s))| == |Everything(p, s)|;
    assert |multiset(AllItems(p))| == |AllItems(p)|;
  }

  lemma PendingCounted(workers: seq<Worker>, i: nat)
    requires i < |workers|
    ensures |FlatMap(workers, PendingOf())| >= |PendingOf()(workers[i])|
  {
    FlatMapRemove(workers, i, PendingOf());
    var all, rest := FlatMap(workers, PendingOf()), FlatMap(workers[..i] + workers[i + 1..], PendingOf());
    assert |multiset(all)| == |all| && |multiset(rest)| == |rest|;
    assert |multiset(PendingOf()(workers[i]))| == |PendingOf()(workers[i])|;
  }

  /** When everything fits, no worker ever waits to send: whoever has not left can move. */
  lemma WorkerCanMove(p: Pool, choices: seq<Choice>, i: nat) returns (c: Choice)
    requires Fits(p) && After(p, choices).Some?
    requires i < |After(p, choices).value.workers| && !After(p, choices).value.workers[i].Done?
    ensures c.worker == i && Enabled(p, After(p, choices).value, c)
  {
    var s := After(p, choices).value;
    var w := s.workers[i];
    SchedulesConserve(p, choices);
    ItemsBound(p, s);
    PendingCounted(s.workers, i);
    match w {
      case Idle => c := Choice(i, if s.jobs != [] then Take else Exit);
      case Busy(pending) => c := Choice(i, if pending != [] then Send else Finish);
    }
  }

  lemma AfterOneMore(p: Pool, choices: seq<Choice>, c: Choice)
    requires After(p, choices).Some? && Enabled(p, After(p, choices).value, c)
    ensures After(p, choices + [c]) == Some(Step(p, After(p, choices).value, c))
  {
    hide Enabled, Step;
    assert (choices + [c])[..|choices|] == choices;
  }

  /** Some schedule runs until nothing can move. */
  lemma {:induction false} RunToEnd(p: Pool, choices: seq<Choice>) returns (more: seq<Choice>)
    requires After(p, choices).Some?
    ensures choices <= more && After(p, more).Some? && forall c :: !Enabled(p, After(p, more).value, c)
    decreases MovesLeft(p, After(p, choices).value)
  {
    hide MovesLeft, Enabled, Step, After;
    var s := After(p, choices).value;
    MovesLeftNonNegative(p, s);
    if c :| Enabled(p, s, c) {
      StepSpends(p, s, c);
      AfterOneMore(p, choices, c);
      more := RunToEnd(p, choices + [c]);
    } else {
      more := choices;
    }
  }

  /** The pool can get stuck, in some schedule, if and only if the items do not fit the channel. */
  lemma StuckIff(p: Pool)
    requires p.workers > 0
    ensures (exists choices :: After(p, choices).Some? && Stuck(p, After(p, choices).value)) <==> !Fits(p)
  {
    hide AllItems, After, Step;
    if Fits(p) {
      forall choices | After(p, choices).Some? ensures !Stuck(p, After(p, choices).value) {
        NotStuck(p, choices);
      }
    } else {
      var more := Overflows(p);
    }
  }

  lemma NotStuck(p: Pool, choices: seq<Choice>)
    requires Fits(p) && After(p, choices).Some?
    ensures !Stuck(p, After(p, choices).value)
  {
    hide After, Fits;
    var s := After(p, choices).value;
    if !Finished(s) {
      var i :| 0 <= i < |s.workers| && !s.workers[i].Done?;
      var c := WorkerCanMove(p, choices, i);
    }
  }

  lemma Overflows(p: Pool) returns (more: seq<Choice>)
    requires p.workers > 0 && !Fits(p)
    ensures After(p, more).Some? && Stuck(p, After(p, more).value)
  {
    more := RunToEnd(p, []);
    NeverFinishes(p, more);
  }

  /** When the items do not fit, no schedule at all lets every worker leave. */
  lemma NeverFinishes(p: Pool, choices: seq<Choice>)
    requires p.workers > 0 && !Fits(p) && After(p, choices).Some?
    ensures !Finished(After(p, choices).value)
  {
    var s := After(p, choices).value;
    NeverOverfull(p, choices);
    assert |multiset(s.items)| == |s.items| && |multiset(AllItems(p))| == |AllItems(p)|;
    if Finished(s) {
      FinishedHasAll(p, choices);
    }
  }

  lemma {:induction false} NeverOverfull(p: Pool, choices: seq<Choice>)
    requires After(p, choices).Some?
    ensures |After(p, choices).value.items| <= p.positions
  {
    if choices != [] {
      NeverOverfull(p, choices[..|choices| - 1]);
    }
  }

  // ---------- the snapshot ----------

  function BalanceOf(i: Item, preAttack: bool): Option<int> {
    if preAttack then i.aUst else i.ust
  }

  function DenomOf(preAttack: bool): string {
    if preAttack then "aUST" else "uusd"
  }

  function EntryOf(i: Item, preAttack: bool): Entry {
    Entry(DenomOf(preAttack), BalanceOf(i, preAttack))
  }

  /** The entries credited to a holder, in the order the items arrive. */
  function CreditsOf(holder: string, preAttack: bool): Item -> seq<Entry> {
    (i: Item) => if i.holder == holder then [EntryOf(i, preAttack)] else []
  }

  ghost function Holders(items: seq<Item>): set<string> {
    set i | i in items :: i.holder
  }

  ghost function Credited(items: seq<Item>, preAttack: bool): Ledger {
    map h | h in Holders(items) :: AbsorbAll([], FlatMap(items, CreditsOf(h, preAttack)))
  }

  /** Reads the result channel into a snapshot and a list of contracts to blacklist. */
  method BuildSnapshot(items: seq<Item>, preAttack: bool) returns (s: SM.SnapshotMap, contracts: seq<string>)
    ensures fresh(s) && s.entries == Credited(items, preAttack)
    ensures |contracts| == |items| && forall k :: 0 <= k < |items| ==> contracts[k] == items[k].contract
  {
    hide AbsorbAll, Absorb;
    s := new SM.SnapshotMap();
    contracts := [];
    for k := 0 to |items|
      invariant fresh(s) && s.entries == Credited(items[..k], preAttack)
      invariant |contracts| == k && forall m :: 0 <= m < k ==> contracts[m] == items[m].contract
    {
      CreditNext(items, k, preAttack);
      s.AppendOrAddBalance(items[k].holder, EntryOf(items[k], preAttack));
      contracts := contracts + [items[k].contract];
    }
    assert items[..|items|] == items;
  }

  lemma CreditNext(items: seq<Item>, k: nat, preAttack: bool)
    requires k < |items|
    ensures var before := Credited(items[..k], preAttack);
            Credited(items[..k + 1], preAttack) ==
            before[items[k].holder := Absorb(EntriesAt(before, items[k].holder), EntryOf(items[k], preAttack))]
  {
    hide Absorb, AbsorbAll, CreditsOf;
    var before := Credited(items[..k], preAttack);
    assert items[..k + 1] == items[..k] + [items[k]];
    forall h | h in Holders(items[..k + 1])
      ensures Credited(items[..k + 1], preAttack)[h] ==
              if h == items[k].holder then Absorb(EntriesAt(before, h), EntryOf(items[k], preAttack)) else before[h]
    {
      NoCredits(items[..k], h, preAttack);
      CreditOne(items, k, h, preAttack);
      assert AbsorbAll([], []) == [] by { NothingAbsorbed(); }
    }
  }

  lemma NothingAbsorbed()
    ensures AbsorbAll([], []) == []
  {
  }

  lemma CreditOne(items: seq<Item>, k: nat, h: string, preAttack: bool)
    requires k < |items|
    ensures var credits := FlatMap(items[..k], CreditsOf(h, preAttack));
            AbsorbAll([], FlatMap(items[..k + 1], CreditsOf(h, preAttack))) ==
            if h == items[k].holder then Absorb(AbsorbAll([], credits), EntryOf(items[k], preAttack))
            else AbsorbAll([], credits)
  {
    hide Absorb;
    FlatMapTake(items, k, CreditsOf(h, preAttack));
    var credits := FlatMap(items[..k], CreditsOf(h, preAttack));
    var e := EntryOf(items[k], preAttack);
    assert (credits + [e])[..|credits|] == credits;
    assert credits + [] == credits;
  }

  lemma {:induction false} NoCredits(items: seq<Item>, h: string, preAttack: bool)
    ensures h !in Holders(items) ==> FlatMap(items, CreditsOf(h, preAttack)) == []
  {
    if items != [] {
      NoCredits(items[1..], h, preAttack);
      assert forall i :: i in items <==> i == items[0] || i in items[1..];
    }
  }

  /** Balances of one denom that are all set collapse to one entry with their sum. */
  lemma {:induction false} OneDenom(es: seq<Entry>, d: string)
    requires es != [] && forall e :: e in es ==> e.denom == d && e.balance.Some?
    ensures AbsorbAll([], es) == [Entry(d, Some(Holding(es, d)))]
  {
    var n := |es| - 1;
    assert es == es[..n] + [es[n]];
    SumBySnoc(es[..n], es[n], AmountIn(d));
    if n == 0 {
      assert es[..0] == [];
    } else {
      OneDenom(es[..n], d);
    }
  }

  /** No holder has both a balance that is set and one that is not. */
  ghost predicate Unmixed(items: seq<Item>, preAttack: bool) {
    forall i, j :: i in items && j in items && i.holder == j.holder ==>
                     BalanceOf(i, preAttack).Some? == BalanceOf(j, preAttack).Some?
  }

  ghost function Contracts(items: seq<Item>): set<string> {
    set i | i in items :: i.contract
  }

  /** Whatever the schedule, two complete runs build the same snapshot and blacklist the same contracts. */
  lemma SnapshotIgnoresSchedule(p: Pool, x: seq<Choice>, y: seq<Choice>, preAttack: bool)
    requires p.workers > 0 && After(p, x).Some? && After(p, y).Some?
    requires Finished(After(p, x).value) && Finished(After(p, y).value)
    requires Unmixed(AllItems(p), preAttack)
    ensures Credited(After(p, x).value.items, preAttack) == Credited(After(p, y).value.items, preAttack)
    ensures Contracts(After(p, x).value.items) == Contracts(After(p, y).value.items)
  {
    hide After, AllItems, Finished, Credited;
    FinishedHasAll(p, x);
    FinishedHasAll(p, y);
    SameItems(After(p, x).value.items, AllItems(p));
    SameItems(After(p, x).value.items, After(p, y).value.items);
    CreditedPermutation(After(p, x).value.items, After(p, y).value.items, preAttack);
  }

  lemma SameItems(a: seq<Item>, b: seq<Item>)
    requires multiset(a) == multiset(b)
    ensures forall i :: i in a <==> i in b
  {
    assert forall i :: i in a <==> i in multiset(a);
    assert forall i :: i in b <==> i in multiset(b);
  }

  lemma CreditedPermutation(a: seq<Item>, b: seq<Item>, preAttack: bool)
    requires multiset(a) == multiset(b) && Unmixed(a, preAttack)
    ensures Credited(a, preAttack) == Credited(b, preAttack)
  {
    hide AbsorbAll;
    SameItems(a, b);
    forall h | h in Holders(a)
      ensures AbsorbAll([], FlatMap(a, CreditsOf(h, preAttack))) == AbsorbAll([], FlatMap(b, CreditsOf(h, preAttack)))
    {
      CreditsPermutation(a, b, h, preAttack);
    }
  }

  lemma CreditsPermutation(a: seq<Item>, b: seq<Item>, h: string, preAttack: bool)
    requires multiset(a) == multiset(b) && h in Holders(a) && Unmixed(a, preAttack)
    ensures AbsorbAll([], FlatMap(a, CreditsOf(h, preAttack))) == AbsorbAll([], FlatMap(b, CreditsOf(h, preAttack)))
  {
    hide AbsorbAll, Holding, CreditsOf;
    var d, ea, eb := DenomOf(preAttack), FlatMap(a, CreditsOf(h, preAttack)), FlatMap(b, CreditsOf(h, preAttack));
    SameItems(a, b);
    FlatMapPermutation(a, b, CreditsOf(h, preAttack));
    CreditsAlike(a, h, preAttack);
    SameEntries(ea, eb);
    if ea[0].balance.Some? {
      HoldingPermutation(ea, eb, d);
      OneDenom(ea, d);
      OneDenom(eb, d);
    } else {
      assert |multiset(ea)| == |ea| && |multiset(eb)| == |eb|;
      assert ea == eb by {
        assert forall k :: 0 <= k < |ea| ==> ea[k] in ea && eb[k] in eb;
      }
    }
  }

  lemma HoldingPermutation(a: seq<Entry>, b: seq<Entry>, d: string)
    requires multiset(a) == multiset(b)
    ensures Holding(a, d) == Holding(b, d)
  {
    SumByPermutation(a, b, AmountIn(d));
  }

  lemma SameEntries(a: seq<Entry>, b: seq<Entry>)
    requires multiset(a) == multiset(b)
    ensures forall e :: e in a <==> e in b
    ensures a != [] ==> b != []
  {
    assert forall e :: e in a <==> e in multiset(a);
    assert forall e :: e in b <==> e in multiset(b);
    if a != [] {
      assert a[0] in b;
    }
  }

  /** The credits of a holder with unmixed balances are all set, or all unset. */
  lemma CreditsAlike(items: seq<Item>, h: string, preAttack: bool)
    requires h in Holders(items) && Unmixed(items, preAttack)
    ensures var es := FlatMap(items, CreditsOf(h, preAttack));
            es != [] && forall e :: e in es ==> e.denom == DenomOf(preAttack) && e.balance.Some? == es[0].balance.Some?
  {
    var es := FlatMap(items, CreditsOf(h, preAttack));
    var i :| i in items && i.holder == h;
    assert EntryOf(i, preAttack) in CreditsOf(h, preAttack)(i);
    InFlatMap(items, CreditsOf(h, preAttack), EntryOf(i, preAttack));
    forall e | e in es ensures e.denom == DenomOf(preAttack) && e.balance.Some? == BalanceOf(i, preAttack).Some? {
      InFlatMap(items, CreditsOf(h, preAttack), e);
    }
    assert es[0] in es;
  }

  // ---------- when the order of the items matters ----------

  function IsNil(): Entry -> int {
    (e: Entry) => if e.balance.None? then 1 else 0
  }

  lemma {:induction false} NilIsAppended(es: seq<Entry>, e: Entry)
    requires e.balance.None?
    ensures Absorb(es, e) == es + [e]
  {
    if es != [] {
      NilIsAppended(es[1..], e);
    }
  }

  /** One entry per unset balance, and one more if the first balance is set. */
  lemma {:induction false} EntryCount(es: seq<Entry>, d: string)
    requires es != [] && forall e :: e in es ==> e.denom == d
    ensures |AbsorbAll([], es)| == SumBy(es, IsNil()) + (if es[0].balance.Some? then 1 else 0)
    ensures |AbsorbAll([], es)| > 0 && AbsorbAll([], es)[0].denom == d
  {
    var n := |es| - 1;
    assert es == es[..n] + [es[n]];
    SumBySnoc(es[..n], es[n], IsNil());
    if n == 0 {
      assert es[..0] == [];
    } else {
      EntryCount(es[..n], d);
      if es[n].balance.None? {
        NilIsAppended(AbsorbAll([], es[..n]), es[n]);
      }
    }
  }

  lemma MoveToFront(a: seq<Item>, k: nat)
    requires k < |a|
    ensures multiset([a[k]] + (a[..k] + a[k + 1..])) == multiset(a)
  {
    assert a == a[..k] + [a[k]] + a[k + 1..];
  }

  /** How many entries a holder ends up with depends on which of the holder's items comes first. */
  lemma FirstItemDecides(a: seq<Item>, rest: seq<Item>, i: Item, preAttack: bool)
    requires multiset([i] + rest) == multiset(a)
    ensures i.holder in Credited([i] + rest, preAttack)
    ensures |Credited([i] + rest, preAttack)[i.holder]| ==
            SumBy(FlatMap(a, CreditsOf(i.holder, preAttack)), IsNil()) +
                (if BalanceOf(i, preAttack).Some? then 1 else 0)
  {
    hide AbsorbAll;
    var b, f := [i] + rest, CreditsOf(i.holder, preAttack);
    FlatMapPermutation(b, a, f);
    SumByPermutation(FlatMap(b, f), FlatMap(a, f), IsNil());
    assert b[1..] == rest;
    assert FlatMap(b, f) == [EntryOf(i, preAttack)] + FlatMap(rest, f);
    CreditDenoms(b, i.holder, preAttack);
    EntryCount(FlatMap(b, f), DenomOf(preAttack));
    assert i in b;
  }

  lemma CreditDenoms(items: seq<Item>, h: string, preAttack: bool)
    ensures forall e :: e in FlatMap(items, CreditsOf(h, preAttack)) ==> e.denom == DenomOf(preAttack)
  {
    forall e | e in FlatMap(items, CreditsOf(h, preAttack)) ensures e.denom == DenomOf(preAttack) {
      InFlatMap(items, CreditsOf(h, preAttack), e);
    }
  }

  ghost predicate OrderFree(a: seq<Item>, preAttack: bool) {
    forall b :: multiset(b) == multiset(a) ==> Credited(b, preAttack) == Credited(a, preAttack)
  }

  /** The order in which items arrive does not matter if and only if no holder has mixed balances. */
  lemma OrderFreeIff(a: seq<Item>, preAttack: bool)
    ensures OrderFree(a, preAttack) <==> Unmixed(a, preAttack)
  {
    hide Credited, FlatMap;
    if Unmixed(a, preAttack) {
      forall b | multiset(b) == multiset(a) ensures Credited(b, preAttack) == Credited(a, preAttack) {
        CreditedPermutation(a, b, preAttack);
      }
    } else {
      var i, j :| i in a && j in a && i.holder == j.holder &&
                  BalanceOf(i, preAttack).Some? != BalanceOf(j, preAttack).Some?;
      var m, n :| 0 <= m < |a| && 0 <= n < |a| && a[m] == i && a[n] == j;
      MoveToFront(a, m);
      MoveToFront(a, n);
      FirstItemDecides(a, a[..m] + a[m + 1..], i, preAttack);
      FirstItemDecides(a, a[..n] + a[n + 1..], j, preAttack);
    }
  }
}
