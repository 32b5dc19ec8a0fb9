/**
 * Quorum safety over whole runs (x/oracle/abci.go): validators and a threshold whose quorums hardly meet
 * can be brought to a halt from empty stores, by messages alone.
 */
module QuorumRuns {
  import opened Orders
  import opened Outcome
  import opened Tally
  import opened VoteRound
  import opened Organize
  import opened OracleStore
  import opened OracleRuns
  import opened QuorumSafety
  import Dec
  import Reward
  import W = Whitelist

  /** In no run does a period that ends with this block, on votes with comparable prices, divide by zero. */
  ghost predicate NoRunHalts(b: Block)
    requires ValidBlock(b)
  {
    forall r: Run, k: nat ::
      ValidRun(r) && k <= |r.actions| && At(r, k).Running? && ComparablePrices(At(r, k).store) ==>
        PeriodOutcome(r.protocol, At(r, k).store, b) != Err(DivisionByZero)
  }

  // ---------- a run to any split of the votes ----------

  function Priced(rates: string, i: nat): int {
    if i < |rates| && rates[i] == '1' then Dec.ONE else 0
  }

  /** Periods of one block; a rate string has a one for each of two denoms to price. */
  function MarkProtocol(): Protocol {
    Protocol(1, 100, (h: string) => Some(h), (salt: string, rates: string, val: string) => "h",
             (rates: string) => Some([Tuple("a", Priced(rates, 0)), Tuple("b", Priced(rates, 1))]))
  }

  function Mark(a: set<string>, b: set<string>, x: string): string {
    [if x in a then '1' else '0', if x in b then '1' else '0']
  }

  function IdleBlock(): Block {
    Block([], 0, 0, 0, 0, 1, [W.Target("a", 0), W.Target("b", 0)], 0, {}, {}, (x: int) => 0)
  }

  /** Everybody commits, a block passes, and everybody reveals. */
  function Act(a: set<string>, b: set<string>, order: seq<string>, i: nat): Action
    requires i <= 2 * |order|
  {
    var n := |order|;
    if i < n then TxPrevote(order[i], order[i], "h", {order[i]})
    else if i == n then EndBlock(IdleBlock())
    else TxVote(order[i - n - 1], order[i - n - 1], "", Mark(a, b, order[i - n - 1]), {order[i - n - 1]})
  }

  const DENOMS := map["a" := 0, "b" := 0]

  function Pending(s: seq<string>): map<string, Prevote> {
    map x | x in s :: Prevote("h", 0)
  }

  function TuplesOf(a: set<string>, b: set<string>, x: string): seq<Tuple> {
    [Tuple("a", if x in a then Dec.ONE else 0), Tuple("b", if x in b then Dec.ONE else 0)]
  }

  function Cast(a: set<string>, b: set<string>, s: seq<string>): map<string, seq<Tuple>> {
    map x | x in s :: TuplesOf(a, b, x)
  }

  function StateAt(a: set<string>, b: set<string>, order: seq<string>, i: nat): Store
    requires i <= 2 * |order| + 1
  {
    var n := |order|;
    if i <= n then Store(0, map[], DENOMS, map[], Pending(order[..i]), map[], map[], map[], {})
    else Store(1, map[], DENOMS, map[], Pending(order[i - n - 1..]), Cast(a, b, order[..i - n - 1]), map[], map[], {})
  }

  function MarkRun(a: set<string>, b: set<string>, order: seq<string>): Run {
    Run(MarkProtocol(), StateAt(a, b, order, 0),
        seq(2 * |order| + 1, i requires 0 <= i <= 2 * |order| => Act(a, b, order, i)))
  }

  lemma MarkRunIsValid(a: set<string>, b: set<string>, order: seq<string>)
    ensures ValidRun(MarkRun(a, b, order)) && ValidBlock(IdleBlock())
  {
    var r := MarkRun(a, b, order);
    assert forall t :: t in IdleBlock().whitelist ==> t.name != "";
    assert forall x :: x in r.actions && x.EndBlock? ==> x.block == IdleBlock();
  }

  lemma Commit(a: set<string>, b: set<string>, order: seq<string>, i: nat)
    requires i < |order|
    ensures Step(MarkProtocol(), StateAt(a, b, order, i), Act(a, b, order, i)) == Running(StateAt(a, b, order, i + 1))
  {
    hide EndBlockOutcome, VoteTx;
    assert order[..i + 1] == order[..i] + [order[i]];
    assert Pending(order[..i])[order[i] := Prevote("h", 0)] == Pending(order[..i + 1]);
  }

  lemma IdleTally(s: Store)
    requires s.votes == map[] && s.taxes == DENOMS
    ensures TallyOutcome(RoundOf(s, IdleBlock())) == Ok(Tallied(map[], map[], DENOMS))
  {
    var b := IdleBlock();
    assert BlockClaims(b) == map[];
    assert HeardDenoms(s.votes, BlockClaims(b)) == {};
    assert Passing(RoundOf(s, b)) == {};
    assert SurvivingTargets(s.taxes, map[], ThresholdVotes(b)) == s.taxes;
  }

  lemma IdleList()
    ensures !W.UpdateRequired(DENOMS, IdleBlock().whitelist)
  {
    assert |DENOMS| == 2;
    assert forall t :: t in IdleBlock().whitelist ==> !W.Differs(DENOMS, t);
  }

  lemma IdleSettled(s: Store)
    requires s.height == 0 && s.rates == map[] && s.misses == map[] && s.votes == map[] && s.taxes == DENOMS
    requires s.pool == map[]
    ensures Settled(MarkProtocol(), s, IdleBlock(), Tallied(map[], map[], DENOMS), map[]) == s
  {
    hide W.UpdateRequired;
    IdleList();
    assert Missed(map[], |DENOMS|) == {};
    assert KeptPrevotes(MarkProtocol(), s) == s.prevotes;
  }

  lemma Idle(a: set<string>, b: set<string>, order: seq<string>)
    ensures Step(MarkProtocol(), StateAt(a, b, order, |order|), Act(a, b, order, |order|)) ==
            Running(StateAt(a, b, order, |order| + 1))
  {
    hide TallyOutcome, RoundOf, Settled, W.UpdateRequired;
    var s := StateAt(a, b, order, |order|);
    IdleTally(s);
    IdleList();
    IdleSettled(s);
    assert Reward.WeightSum(RewardInput(MarkProtocol(), s, IdleBlock(), Tallied(map[], map[], DENOMS))) == 0;
    assert order[..|order|] == order && order[0..] == order && order[..0] == [];
  }

  lemma Parses(a: set<string>, b: set<string>, x: string)
    ensures MarkProtocol().parse(Mark(a, b, x)) == Some(TuplesOf(a, b, x))
  {
  }

  lemma RevealOne(a: set<string>, b: set<string>, order: seq<string>, j: nat)
    requires j < |order| && Distinct(order)
    ensures order[j] in Pending(order[j..]) && Pending(order[j..])[order[j]] == Prevote("h", 0)
    ensures Pending(order[j..]) - {order[j]} == Pending(order[j + 1..])
    ensures Cast(a, b, order[..j])[order[j] := TuplesOf(a, b, order[j])] == Cast(a, b, order[..j + 1])
  {
    var x := order[j];
    assert order[j..] == [x] + order[j + 1..] && order[..j + 1] == order[..j] + [x];
  }

  lemma Reveal(a: set<string>, b: set<string>, order: seq<string>, j: nat)
    requires j < |order| && Distinct(order)
    ensures var i := |order| + 1 + j;
            Step(MarkProtocol(), StateAt(a, b, order, i), Act(a, b, order, i)) == Running(StateAt(a, b, order, i + 1))
  {
    hide EndBlockOutcome, PrevoteTx, Pending, Cast, Mark, Distinct, Priced;
    var x := order[j];
    Parses(a, b, x);
    RevealOne(a, b, order, j);
    assert forall t :: t in TuplesOf(a, b, x) ==> t.denom in DENOMS;
    assert RevealLag(MarkProtocol(), 1, 0) == 1;
  }

  lemma {:induction false} MarkRunAt(a: set<string>, b: set<string>, order: seq<string>, i: nat)
    requires Distinct(order) && i <= 2 * |order| + 1
    ensures ValidRun(MarkRun(a, b, order)) && At(MarkRun(a, b, order), i) == Running(StateAt(a, b, order, i))
  {
    hide Step, ValidRun, StateAt, Act, Distinct;
    MarkRunIsValid(a, b, order);
    if i > 0 {
      MarkRunAt(a, b, order, i - 1);
      if i - 1 < |order| {
        Commit(a, b, order, i - 1);
      } else if i - 1 == |order| {
        Idle(a, b, order);
      } else {
        Reveal(a, b, order, i - 2 - |order|);
      }
    }
  }

  /** A run from empty stores reaches the split votes of any two groups of validators. */
  lemma SplitIsReachable(a: set<string>, b: set<string>, claims: map<string, Claim>) returns (r: Run)
    ensures ValidRun(r) && At(r, |r.actions|).Running? && r.protocol == MarkProtocol()
    ensures var s := At(r, |r.actions|).store;
            s.votes == SplitVotes(a, b, claims) && s.taxes == SplitStore(a, b, claims).taxes
  {
    hide At, ValidRun;
    var order := SomeOrder(claims.Keys);
    r := MarkRun(a, b, order);
    MarkRunAt(a, b, order, 2 * |order| + 1);
    assert order[..|order|] == order;
  }

  lemma SameRound(s: Store, t: Store, b: Block)
    requires s.votes == t.votes && s.taxes == t.taxes
    ensures RoundOf(s, b) == RoundOf(t, b)
    ensures ComparablePrices(s) <==> ComparablePrices(t)
  {
  }

  lemma SplitRunHalts(a: set<string>, b: set<string>, block: Block)
    requires ValidBlock(block)
    requires TallyOutcome(RoundOf(SplitStore(a, b, BlockClaims(block)), block)).Err?
    ensures !NoRunHalts(block)
  {
    hide At, ValidRun, TallyOutcome, ComparablePrices, RoundOf, BlockClaims, SplitVotes;
    var claims := BlockClaims(block);
    var r := SplitIsReachable(a, b, claims);
    var s, t := At(r, |r.actions|).store, SplitStore(a, b, claims);
    SplitIsValid(a, b, claims);
    SameRound(s, t, block);
    TallyFault(RoundOf(t, block));
    assert PeriodOutcome(r.protocol, s, block) == Err(DivisionByZero);
  }

  lemma TallyFault(r: Round)
    requires TallyOutcome(r).Err?
    ensures TallyOutcome(r) == Err(DivisionByZero)
  {
    hide RateFor, ClaimsAfter;
  }

  /** No run with comparable prices can be halted by this block if and only if its quorums are safe. */
  lemma QuorumSafeInRunsIff(block: Block)
    requires ValidBlock(block)
    ensures NoRunHalts(block) <==> SafeQuorums(BlockClaims(block), ThresholdVotes(block))
  {
    hide At, ValidRun, TallyOutcome, ComparablePrices, RoundOf, BlockClaims, ThresholdVotes, SafeQuorums, ValidStore;
    if SafeQuorums(BlockClaims(block), ThresholdVotes(block)) {
      QuorumSafeIff(block);
      forall r: Run, k: nat | ValidRun(r) && k <= |r.actions| && At(r, k).Running? && ComparablePrices(At(r, k).store)
        ensures PeriodOutcome(r.protocol, At(r, k).store, block) != Err(DivisionByZero)
      {
        StoresStayValid(r, k);
        assert TallyOutcome(RoundOf(At(r, k).store, block)).Ok?;
        OnlyTallyDivides(r.protocol, At(r, k).store, block);
      }
    } else {
      var a, b := UnsafeQuorumsHalt(block);
      SplitRunHalts(a, b, block);
    }
  }

  lemma OnlyTallyDivides(p: Protocol, s: Store, b: Block)
    requires ValidBlock(b) && TallyOutcome(RoundOf(s, b)).Ok?
    ensures PeriodOutcome(p, s, b) != Err(DivisionByZero)
  {
    hide TallyOutcome, RoundOf, Settled;
  }
}
