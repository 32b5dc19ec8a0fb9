/**
 * Halts of the chain in whole runs (x/oracle/abci.go): exactly when the end of a block panics on a
 * reachable store, and for each way a run from empty stores that ends in it. Decimals and integers are
 * taken not to overflow, and the bank, staking and distribution modules not to panic themselves.
 */
module Halt {
  import opened Orders
  import opened Outcome
  import opened Tally
  import opened VoteRound
  import opened Quorum
  import opened Organize
  import opened OracleStore
  import opened OracleKeeper
  import opened OracleRuns
  import opened MissCounters
  import Q = QuorumSafety
  import T = TargetLaws
  import Dec
  import Reward
  import Slash
  import W = Whitelist

  /** Some passing ballot cannot be priced against the reference ballot. */
  ghost predicate VotesSplit(s: Store, b: Block) {
    var r := RoundOf(s, b);
    && Passing(r) != {}
    && exists d :: d in Passing(r) && d != Reference(r) && Unpriceable(r.ballots[Reference(r)], r.ballots[d], r.claims)
  }

  lemma TallyHaltsIff(s: Store, b: Block)
    requires ValidStore(s)
    ensures TallyOutcome(RoundOf(s, b)).Err? <==> VotesSplit(s, b)
    ensures TallyOutcome(RoundOf(s, b)).Err? ==> TallyOutcome(RoundOf(s, b)) == Err(DivisionByZero)
  {
    hide FullRound, Unpriceable, RoundOf;
    Q.RoundIsFull(s, b);
    HaltsExactlyWhen(RoundOf(s, b));
  }

  // ---------- rewards ----------

  lemma FewerTargets(votePeriod: int, window: int, targets: map<string, int>, fewer: map<string, int>)
    requires votePeriod >= 0 && window > 0 && fewer.Keys <= targets.Keys
    requires Reward.SafeSchedule(votePeriod, window, targets)
    ensures Reward.SafeSchedule(votePeriod, window, fewer)
  {
    hide Reward.Ratio;
    RatioNonNegative(votePeriod, window);
    forall d | d in Reward.RewardDenoms(fewer)
      ensures Reward.Listings(fewer, d) * Reward.Ratio(votePeriod, window) <= Dec.ONE
    {
      assert d in Reward.RewardDenoms(targets);
      Dec.MulLe(Reward.Listings(fewer, d), Reward.Listings(targets, d), Reward.Ratio(votePeriod, window));
    }
  }

  lemma RatioNonNegative(votePeriod: int, window: int)
    requires votePeriod >= 0 && window > 0
    ensures Reward.Ratio(votePeriod, window) >= 0
  {
    Dec.DivAntitone(votePeriod * Dec.ONE, window, window);
  }

  lemma SafePeriodHaltsIff(p: Protocol, s: Store, b: Block)
    requires ValidStore(s) && ValidProtocol(p) && ValidBlock(b) && |BlockClaims(b)| < 2 * Dec.ONE
    requires Reward.SafeSchedule(p.votePeriod, b.rewardWindow, s.taxes)
    ensures PeriodOutcome(p, s, b) == Err(DivisionByZero) <==> VotesSplit(s, b)
    ensures PeriodOutcome(p, s, b) == Err(ShortDenom) <==> !VotesSplit(s, b) && NameTooShort(s, b)
    ensures PeriodOutcome(p, s, b).Err? ==> PeriodOutcome(p, s, b).error in {DivisionByZero, ShortDenom}
  {
    hide TallyOutcome, Reward.RewardOutcome, Reward.SafeSchedule, VotesSplit, BlockClaims, Organized, W.Unregistrable;
    TallyHaltsIff(s, b);
    var tally := TallyOutcome(RoundOf(s, b));
    if tally.Ok? {
      T.TalliedTargets(s, b);
      T.SurvivorsIff(s, b);
      TalliedKeys(RoundOf(s, b));
      TalliedClaims(s, b);
      FewerTargets(p.votePeriod, b.rewardWindow, s.taxes, tally.value.targets);
      assert |tally.value.claims| == |tally.value.claims.Keys| && |BlockClaims(b)| == |BlockClaims(b).Keys|;
      Reward.RewardsFit(RewardInput(p, s, b, tally.value));
    }
  }

  // ---------- the end of a block ----------

  ghost predicate SplitDue(p: Protocol, s: Store, b: Block)
    requires p.votePeriod > 0
  {
    PeriodLast(s.height, p.votePeriod) && VotesSplit(s, b)
  }

  /** The whitelist differs from the targets that survive and has a name of one letter without metadata. */
  ghost predicate NameTooShort(s: Store, b: Block) {
    W.Unregistrable(s.metadata, T.Survivors(s, b), b.whitelist)
  }

  ghost predicate ShortDue(p: Protocol, s: Store, b: Block)
    requires p.votePeriod > 0
  {
    PeriodLast(s.height, p.votePeriod) && NameTooShort(s, b)
  }

  /** A counter that leaves too small a share of valid periods, for a validator staking does not know. */
  ghost predicate UnknownBelow(p: Protocol, misses: map<string, nat>, b: Block, x: string)
    requires ValidProtocol(p)
  {
    x in misses && x !in b.known && (Periods(p) - misses[x]) * Dec.ONE < b.minValid * Periods(p)
  }

  /** The same of the counters as the check reads them, after the tally. */
  lemma FaultsAfterTally(r: Run, k: nat, b: Block)
    requires ValidRun(r) && k <= |r.actions| && At(r, k).Running? && ValidBlock(b)
    requires |BlockClaims(b)| < 2 * Dec.ONE && 0 < Periods(r.protocol) <= Dec.ONE && b.minValid >= 0
    requires Reward.SafeSchedule(r.protocol.votePeriod, b.rewardWindow, At(r, k).store.taxes)
    ensures var p, s := r.protocol, At(r, k).store;
            && (TallyIfDue(p, s, b).Ok? <==> !SplitDue(p, s, b) && !ShortDue(p, s, b))
            && (EndBlockOutcome(p, s, b) == Err(DivisionByZero) <==> SplitDue(p, s, b))
            && (EndBlockOutcome(p, s, b) == Err(ShortDenom) <==> !SplitDue(p, s, b) && ShortDue(p, s, b))
            && (EndBlockOutcome(p, s, b) == Err(MissingValidator) <==>
                  && TallyIfDue(p, s, b).Ok? && PeriodLast(s.height, p.slashWindow)
                  && exists x :: UnknownBelow(p, MissesAtCheck(p, s, b), b, x))
            && (EndBlockOutcome(p, s, b).Err? ==>
                  EndBlockOutcome(p, s, b).error in {DivisionByZero, ShortDenom, MissingValidator})
  {
    hide At, PeriodOutcome, VotesSplit, NameTooShort, BlockClaims, Reward.SafeSchedule, Slash.BelowThreshold,
         PeriodLast;
    var p, s := r.protocol, At(r, k).store;
    StoresStayValid(r, k);
    SafePeriodHaltsIff(p, s, b);
    if TallyIfDue(p, s, b).Ok? && PeriodLast(s.height, p.slashWindow) {
      forall x | x in MissesAtCheck(p, s, b)
        ensures x in Slash.Below(MissesAtCheck(p, s, b), Periods(p), b.minValid) <==>
                (Periods(p) - MissesAtCheck(p, s, b)[x]) * Dec.ONE < b.minValid * Periods(p)
      {
        SlashVerdict(r, k, b, x);
      }
      BelowKnown(p, MissesAtCheck(p, s, b), b);
    }
  }

  lemma BelowKnown(p: Protocol, misses: map<string, nat>, b: Block)
    requires ValidProtocol(p) && Periods(p) > 0
    requires forall x :: x in misses ==>
               (x in Slash.Below(misses, Periods(p), b.minValid) <==>
                (Periods(p) - misses[x]) * Dec.ONE < b.minValid * Periods(p))
    ensures Slash.Below(misses, Periods(p), b.minValid) <= b.known <==>
            !exists x :: UnknownBelow(p, misses, b, x)
  {
    hide Slash.BelowThreshold;
    var below := Slash.Below(misses, Periods(p), b.minValid);
    if !(below <= b.known) {
      var x :| x in below && x !in b.known;
      assert UnknownBelow(p, misses, b, x);
    }
  }

  /** Staking knows the bonded validators that it lists. */
  ghost predicate ClaimsKnown(b: Block) {
    BlockClaims(b).Keys <= b.known
  }

  /** The tally does not touch the counter of a validator without a claim. */
  lemma UnknownUntouched(p: Protocol, s: Store, b: Block, x: string)
    requires ValidProtocol(p) && ValidBlock(b) && TallyIfDue(p, s, b).Ok? && ClaimsKnown(b) && x !in b.known
    ensures x in MissesAtCheck(p, s, b) <==> x in s.misses
    ensures x in s.misses ==> MissesAtCheck(p, s, b)[x] == s.misses[x]
  {
    hide TallyOutcome, Reward.RewardOutcome, BlockClaims, Organized, W.NewTaxes, W.NewMetadata, W.Unregistrable;
    if PeriodLast(s.height, p.votePeriod) {
      TalliedKeys(RoundOf(s, b));
    }
  }

  /**
   * On every reachable store, with a safe reward schedule and a window of at least one period, the end of
   * a block panics in exactly three ways: the votes of an ending period split; a whitelist update has a
   * name too short for metadata; or a window closes on an unknown validator below the threshold. The
   * conditions speak of the store before the block.
   */
  lemma EndBlockHaltsIff(r: Run, k: nat, b: Block)
    requires ValidRun(r) && k <= |r.actions| && At(r, k).Running? && ValidBlock(b) && ClaimsKnown(b)
    requires |BlockClaims(b)| < 2 * Dec.ONE && 0 < Periods(r.protocol) <= Dec.ONE && b.minValid >= 0
    requires Reward.SafeSchedule(r.protocol.votePeriod, b.rewardWindow, At(r, k).store.taxes)
    ensures var p, s := r.protocol, At(r, k).store;
            && (EndBlockOutcome(p, s, b) == Err(DivisionByZero) <==> SplitDue(p, s, b))
            && (EndBlockOutcome(p, s, b) == Err(ShortDenom) <==> !SplitDue(p, s, b) && ShortDue(p, s, b))
            && (EndBlockOutcome(p, s, b) == Err(MissingValidator) <==>
                  && !SplitDue(p, s, b) && !ShortDue(p, s, b)
                  && PeriodLast(s.height, p.slashWindow) && exists x :: UnknownBelow(p, s.misses, b, x))
            && (EndBlockOutcome(p, s, b).Err? ==>
                  EndBlockOutcome(p, s, b).error in {DivisionByZero, ShortDenom, MissingValidator})
  {
    hide At, EndBlockOutcome, TallyIfDue, SplitDue, ShortDue, ClaimsKnown, BlockClaims, Reward.SafeSchedule, PeriodLast;
    var p, s := r.protocol, At(r, k).store;
    FaultsAfterTally(r, k, b);
    if TallyIfDue(p, s, b).Ok? {
      forall x ensures UnknownBelow(p, MissesAtCheck(p, s, b), b, x) <==> UnknownBelow(p, s.misses, b, x) {
        if x !in b.known {
          UnknownUntouched(p, s, b, x);
        }
      }
    }
  }

  // ---------- a run that halts ----------

  const TARGETS := map["ukrw" := 0, "uusd" := 0]

  /** A period of one block; a rate string is the denom it prices at one. */
  function SplitProtocol(): Protocol {
    Protocol(1, 100, (h: string) => Some(h), (salt: string, rates: string, val: string) => "h",
             (rates: string) => Some([Tuple(rates, Dec.ONE)]))
  }

  /** Two validators of equal power, of which one is enough to pass a ballot. */
  function SplitBlock(): Block {
    Block([Validator("a", 10, true), Validator("b", 10, true)], 2, 20, Dec.HALF, 0, 1,
          [W.Target("ukrw", 0), W.Target("uusd", 0)], 0, {"a", "b"}, {}, (x: int) => 0)
  }

  function Opening(): Store {
    Store(0, map[], TARGETS, map[], map[], map[], map[], map[], {})
  }

  /** Each validator commits, and a period later reveals a price for another denom. */
  function SplitRun(): Run {
    var bonded := {"a", "b"};
    Run(SplitProtocol(), Opening(),
        [TxPrevote("a", "a", "h", bonded), TxPrevote("b", "b", "h", bonded), EndBlock(SplitBlock()),
         TxVote("a", "a", "", "ukrw", bonded), TxVote("b", "b", "", "uusd", bonded), EndBlock(SplitBlock())])
  }

  function Claims(): map<string, Claim> {
    map["a" := Claim(10, 0, 0, "a"), "b" := Claim(10, 0, 0, "b")]
  }

  lemma SplitBlockIs()
    ensures BlockClaims(SplitBlock()) == Claims() && ThresholdVotes(SplitBlock()) == 10
    ensures ValidBlock(SplitBlock()) && ValidProtocol(SplitProtocol()) && ValidRun(SplitRun())
  {
    var b, first := SplitBlock(), map["a" := Claim(10, 0, 0, "a")];
    var rest := [Validator("b", 10, true)];
    assert b.validators[1..] == rest && rest[1..] == [];
    assert ClaimsOf(rest, 1, first) == Claims();
    assert Dec.HALF * 20 == 10 * Dec.ONE;
    Dec.ChopExact(10);
  }

  function Committed(): Store {
    Opening().(prevotes := map["a" := Prevote("h", 0), "b" := Prevote("h", 0)])
  }

  function OneMiss(claims: map<string, Claim>): map<string, nat> {
    map x | x in claims :: 1
  }

  /** Nobody could vote in the first period. */
  function Waiting(): Store {
    Committed().(height := 1, misses := OneMiss(Claims()))
  }

  function Revealed(): Store {
    Waiting().(prevotes := map[], votes := map["a" := [Tuple("ukrw", Dec.ONE)], "b" := [Tuple("uusd", Dec.ONE)]])
  }

  lemma QuietTally()
    ensures TallyOutcome(RoundOf(Committed(), SplitBlock())) == Ok(Tallied(map[], Claims(), TARGETS))
  {
    var s, b := Committed(), SplitBlock();
    SplitBlockIs();
    assert HeardDenoms(s.votes, BlockClaims(b)) == {};
    assert Passing(RoundOf(s, b)) == {};
    assert SurvivingTargets(s.taxes, map[], ThresholdVotes(b)) == s.taxes;
  }

  lemma QuietReward()
    ensures Reward.RewardOutcome(RewardInput(SplitProtocol(), Committed(), SplitBlock(), Tallied(map[], Claims(),
        TARGETS)))
         == Ok(Reward.Payout(map[], map[]))
  {
    SumSetConstant(Claims().Keys, Reward.WeightOf(Claims()), 0);
  }

  lemma WhitelistStands()
    ensures !W.UpdateRequired(TARGETS, SplitBlock().whitelist)
  {
    var list := SplitBlock().whitelist;
    assert |TARGETS| == 2;
    assert forall t :: t in list ==> !W.Differs(TARGETS, t);
  }

  lemma NobodyWins(claims: map<string, Claim>, targets: nat)
    requires targets > 0 && FreshClaims(claims)
    ensures CountMisses(map[], Missed(claims, targets)) == OneMiss(claims)
  {
    assert Missed(claims, targets) == claims.Keys;
  }

  lemma AllMiss()
    ensures CountMisses(map[], Missed(Claims(), |TARGETS|)) == OneMiss(Claims())
  {
    hide CountMisses, Missed;
    assert |TARGETS| == 2;
    NobodyWins(Claims(), 2);
  }

  lemma QuietSettled()
    ensures Settled(SplitProtocol(), Committed(), SplitBlock(), Tallied(map[], Claims(), TARGETS), map[])
         == Waiting().(height := 0)
  {
    hide CountMisses, Missed, W.UpdateRequired;
    WhitelistStands();
    AllMiss();
    assert KeptPrevotes(SplitProtocol(), Committed()) == Committed().prevotes;
  }

  lemma QuietBlock()
    ensures Step(SplitProtocol(), Committed(), EndBlock(SplitBlock())) == Running(Waiting())
  {
    hide TallyOutcome, RoundOf, Reward.RewardOutcome, Settled, RewardInput, W.UpdateRequired;
    QuietTally();
    QuietReward();
    WhitelistStands();
    QuietSettled();
  }

  lemma OnlyVoter(d: string, x: string)
    requires (d == "ukrw" && x == "a") || (d == "uusd" && x == "b")
    ensures var r := RoundOf(Revealed(), SplitBlock());
            && d in r.ballots && VoteOf(x, 10, Tuple(d, Dec.ONE)) in r.ballots[d]
            && forall v :: v in r.ballots[d] ==> v.voter == x
  {
    hide BlockClaims, ThresholdVotes, Collected;
    var s, b := Revealed(), SplitBlock();
    var r, claims := RoundOf(s, b), BlockClaims(b);
    SplitBlockIs();
    HeardDenomsIff(s.votes, claims, d);
    var t := Tuple(d, Dec.ONE);
    assert t in s.votes[x];
    assert Heard(s.votes, claims, x, d);
    Q.StoredVote(s, b, d, VoteOf(x, 10, t));
    forall v | v in r.ballots[d] ensures v.voter == x {
      Q.StoredVote(s, b, d, v);
    }
  }

  lemma PricesAlone(d: string, x: string)
    requires (d == "ukrw" && x == "a") || (d == "uusd" && x == "b")
    ensures var r := RoundOf(Revealed(), SplitBlock());
            d in r.ballots && Pricers(r.ballots[d]) == {x} && d in Passing(r)
  {
    hide RoundOf, FullRound, Passing, Revealed, SplitBlock;
    var r := RoundOf(Revealed(), SplitBlock());
    OnlyVoter(d, x);
    assert Pricers(r.ballots[d]) == {x};
    AloneIsEnough(r, d, x);
  }

  lemma AloneIsEnough(r: Round, d: string, x: string)
    requires r == RoundOf(Revealed(), SplitBlock()) && d in TARGETS && x in Claims()
    requires d in r.ballots && Pricers(r.ballots[d]) == {x}
    ensures d in Passing(r)
  {
    hide RoundOf, FullPower;
    assert FullRound(r) by {
      assert ValidStore(Revealed());
      Q.RoundIsFull(Revealed(), SplitBlock());
    }
    SplitRoundIs();
    BallotPower(r.ballots[d], r.claims);
    SumSetConstant({x}, PowerIn(r.claims), 10);
  }

  lemma SplitRoundIs()
    ensures var r := RoundOf(Revealed(), SplitBlock());
            r.claims == Claims() && r.threshold == 10 && r.targets == TARGETS
  {
    SplitBlockIs();
  }

  lemma RevealedHalts()
    ensures TallyOutcome(RoundOf(Revealed(), SplitBlock())) == Err(DivisionByZero)
  {
    hide TallyOutcome, RoundOf, Passing, Pricers;
    var r := RoundOf(Revealed(), SplitBlock());
    PricesAlone("ukrw", "a");
    PricesAlone("uusd", "b");
    Q.RoundIsFull(Revealed(), SplitBlock());
    OnlyTwo(r);
    var other := if Reference(r) == "ukrw" then "uusd" else "ukrw";
    DisjointPricersHalt(r, other);
  }

  lemma OnlyTwo(r: Round)
    requires r == RoundOf(Revealed(), SplitBlock()) && Passing(r) != {}
    ensures Reference(r) == "ukrw" || Reference(r) == "uusd"
  {
    assert Reference(r) in Passing(r);
  }

  function OneCommitted(): Store {
    Opening().(prevotes := map["a" := Prevote("h", 0)])
  }

  function OneRevealed(): Store {
    Waiting().(prevotes := map["b" := Prevote("h", 0)], votes := map["a" := [Tuple("ukrw", Dec.ONE)]])
  }

  lemma CommitSteps()
    ensures Step(SplitProtocol(), Opening(), SplitRun().actions[0]) == Running(OneCommitted())
    ensures Step(SplitProtocol(), OneCommitted(), SplitRun().actions[1]) == Running(Committed())
  {
    hide EndBlockOutcome, VoteTx;
  }

  lemma FirstReveal()
    ensures Step(SplitProtocol(), Waiting(), SplitRun().actions[3]) == Running(OneRevealed())
  {
    hide EndBlockOutcome, PrevoteTx;
    assert Waiting().prevotes - {"a"} == OneRevealed().prevotes;
  }

  lemma SecondReveal()
    ensures Step(SplitProtocol(), OneRevealed(), SplitRun().actions[4]) == Running(Revealed())
  {
    hide EndBlockOutcome, PrevoteTx;
    assert OneRevealed().prevotes - {"b"} == map[];
  }

  /** The chain halts, in its second period, with two denoms priced by one validator each. */
  lemma SplitRunHalts()
    ensures ValidRun(SplitRun()) && At(SplitRun(), 6) == Halted(DivisionByZero)
  {
    hide EndBlockOutcome, Step, ValidRun, Opening, Committed, Waiting, Revealed, OneCommitted, OneRevealed;
    var r := SplitRun();
    SplitBlockIs();
    CommitSteps();
    assert At(r, 2) == Running(Committed());
    QuietBlock();
    assert At(r, 3) == Running(Waiting());
    FirstReveal();
    SecondReveal();
    assert At(r, 5) == Running(Revealed());
    LastBlock();
  }

  lemma LastBlock()
    ensures Step(SplitProtocol(), Revealed(), EndBlock(SplitBlock())) == Halted(DivisionByZero)
  {
    hide TallyOutcome, RoundOf;
    RevealedHalts();
  }

  // ---------- a name of one letter ----------

  function ShortBlock(): Block {
    SplitBlock().(whitelist := [W.Target("u", 0)])
  }

  function ShortRun(): Run {
    Run(SplitProtocol(), Opening(), [EndBlock(ShortBlock())])
  }

  lemma ShortTally()
    ensures TallyOutcome(RoundOf(Opening(), ShortBlock())) == Ok(Tallied(map[], Claims(), TARGETS))
  {
    var s, b := Opening(), ShortBlock();
    SplitBlockIs();
    assert BlockClaims(b) == Claims() && ThresholdVotes(b) == 10;
    assert HeardDenoms(s.votes, BlockClaims(b)) == {};
    assert Passing(RoundOf(s, b)) == {};
    assert SurvivingTargets(s.taxes, map[], ThresholdVotes(b)) == s.taxes;
  }

  lemma ShortReward()
    ensures var tallied := Tallied(map[], Claims(), TARGETS);
            Reward.RewardOutcome(RewardInput(SplitProtocol(), Opening(), ShortBlock(), tallied)).Ok?
  {
    SumSetConstant(Claims().Keys, Reward.WeightOf(Claims()), 0);
  }

  lemma ShortIsUnregistrable()
    ensures W.Unregistrable({}, TARGETS, ShortBlock().whitelist)
  {
    var list := ShortBlock().whitelist;
    assert |TARGETS| == 2;
    assert list[0] in list && W.Nameless({}, list[0]);
  }

  /** The chain halts at the end of the first period whose whitelist has a new name of one letter. */
  lemma ShortRunHalts()
    ensures ValidRun(ShortRun()) && At(ShortRun(), 1) == Halted(ShortDenom)
  {
    hide TallyOutcome, RoundOf, Reward.RewardOutcome, RewardInput, W.Unregistrable;
    var r, list := ShortRun(), ShortBlock().whitelist;
    SplitBlockIs();
    assert forall t :: t in list ==> t == W.Target("u", 0);
    ShortTally();
    ShortReward();
    ShortIsUnregistrable();
    assert At(r, 0) == Running(Opening());
  }

  // ---------- a validator that is gone ----------

  /** A window of two periods of one block. */
  function BriefProtocol(): Protocol {
    SplitProtocol().(slashWindow := 2)
  }

  /** Nobody is left, and nothing less than every period is enough. */
  ghost function EmptyBlock(): Block {
    SilentBlock().(validators := [], known := {}, minValid := Dec.ONE)
  }

  ghost function GoneRun(): Run {
    Run(BriefProtocol(), SilentStore(0, 0), [EndBlock(SilentBlock()), EndBlock(EmptyBlock())])
  }

  lemma EmptyTally()
    ensures TallyOutcome(RoundOf(SilentStore(1, 1), EmptyBlock())) == Ok(Tallied(map[], map[], map["ukrw" := 0]))
  {
    var s, b := SilentStore(1, 1), EmptyBlock();
    assert BlockClaims(b) == map[];
    assert HeardDenoms(s.votes, BlockClaims(b)) == {};
    assert Passing(RoundOf(s, b)) == {};
    assert SurvivingTargets(s.taxes, map[], ThresholdVotes(b)) == s.taxes;
  }

  lemma EmptyPeriod()
    ensures PeriodOutcome(BriefProtocol(), SilentStore(1, 1), EmptyBlock()) == Ok(Ended(SilentStore(1, 1), map[], {}))
  {
    hide TallyOutcome, RoundOf, Settled;
    EmptyTally();
    SilentTaxes();
    EmptySettled();
    assert Reward.WeightSum(RewardInput(BriefProtocol(), SilentStore(1, 1), EmptyBlock(),
                                        Tallied(map[], map[], map["ukrw" := 0]))) == 0;
  }

  lemma EmptySettled()
    ensures Settled(BriefProtocol(), SilentStore(1, 1), EmptyBlock(), Tallied(map[], map[], map["ukrw" := 0]), map[])
         == SilentStore(1, 1)
  {
    hide W.UpdateRequired;
    SilentTaxes();
    assert Missed(map[], 1) == {};
    assert CountMisses(SilentCounter(1), {}) == SilentCounter(1);
    assert KeptPrevotes(BriefProtocol(), SilentStore(1, 1)) == map[];
  }

  lemma GoneCheck()
    ensures EndBlockOutcome(BriefProtocol(), SilentStore(1, 1), EmptyBlock()) == Err(MissingValidator)
  {
    hide PeriodOutcome, Slash.BelowThreshold;
    EmptyPeriod();
    Slash.VerdictIsExact(2, 1, Dec.ONE);
    assert "val" in Slash.Below(SilentCounter(1), 2, Dec.ONE);
  }

  /** The chain halts when a window closes on a validator that left after missing one period of two. */
  lemma GoneRunHalts()
    ensures ValidRun(GoneRun()) && At(GoneRun(), 2) == Halted(MissingValidator)
  {
    hide EndBlockOutcome, PeriodOutcome, SilentStore, SilentBlock;
    var r, p := GoneRun(), BriefProtocol();
    GoneIsValid();
    SilentBlockEnds(p, 0, 0);
    SilentHeight(0, 0);
    SilentHeight(0, 1);
    assert At(r, 0) == Running(SilentStore(0, 0));
    assert At(r, 1) == Running(SilentStore(1, 1));
    GoneCheck();
  }

  lemma GoneIsValid()
    ensures ValidProtocol(BriefProtocol()) && ValidRun(GoneRun())
  {
    SplitBlockIs();
    SilentIsValid(BriefProtocol(), 1);
    assert forall t :: t in SilentBlock().whitelist ==> t == W.Target("ukrw", 0);
  }
}
