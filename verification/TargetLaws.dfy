/**
 * The vote targets at the end of a period (x/oracle/abci.go, x/oracle/keeper/ballot.go): every
 * whitelisted denom is one, and exactly when a denom that left the whitelist stays one.
 */
module TargetLaws {
  import opened Orders
  import opened Outcome
  import opened Ballot
  import opened Tally
  import opened VoteRound
  import opened Organize
  import opened OracleStore
  import opened OracleRuns
  import Q = QuorumSafety
  import Dec
  import Reward
  import W = Whitelist

  /** The targets that survive the tally of a round. */
  ghost function Survivors(s: Store, b: Block): map<string, int> {
    var r := RoundOf(s, b);
    SurvivingTargets(r.targets, r.ballots, r.threshold)
  }

  /** A target that was voted on without its ballot passing. */
  ghost predicate Failed(s: Store, b: Block, d: string) {
    d in s.taxes && d in RoundOf(s, b).ballots && d !in Passing(RoundOf(s, b))
  }

  lemma PeriodTaxes(p: Protocol, s: Store, b: Block)
    requires ValidBlock(b) && PeriodOutcome(p, s, b).Ok?
    ensures PeriodOutcome(p, s, b).value.store.taxes == W.NewTaxes(s.taxes, Survivors(s, b), b.whitelist)
  {
    hide RateFor, ClaimsAfter, Reward.RewardOutcome, W.NewTaxes, SurvivingTargets, KeptPrevotes, CountMisses, Organized;
  }

  lemma TalliedTargets(s: Store, b: Block)
    requires TallyOutcome(RoundOf(s, b)).Ok?
    ensures TallyOutcome(RoundOf(s, b)).value.targets == Survivors(s, b)
  {
    hide RateFor, ClaimsAfter, SurvivingTargets;
  }

  lemma SurvivorIff(s: Store, b: Block, d: string)
    ensures d in Survivors(s, b) <==> d in s.taxes && !Failed(s, b, d)
    ensures d in Survivors(s, b) ==> Survivors(s, b)[d] == s.taxes[d]
  {
    hide Organized, Power;
  }

  lemma SurvivorsIff(s: Store, b: Block)
    ensures forall d :: d in Survivors(s, b) ==> d in s.taxes && s.taxes[d] == Survivors(s, b)[d]
    ensures Survivors(s, b) == s.taxes <==> forall d :: !Failed(s, b, d)
  {
    hide Survivors;
    forall d
      ensures d in Survivors(s, b) <==> d in s.taxes && !Failed(s, b, d)
      ensures d in Survivors(s, b) ==> Survivors(s, b)[d] == s.taxes[d]
    {
      SurvivorIff(s, b, d);
    }
    if Survivors(s, b) == s.taxes {
      forall d ensures !Failed(s, b, d) {
        FailedAreTargets(s, b, d);
      }
    }
  }

  lemma FailedAreTargets(s: Store, b: Block, d: string)
    ensures Failed(s, b, d) ==> d in s.taxes
  {
  }

  /** At the end of every period each whitelisted denom is a target with its listed tax. */
  lemma WhitelistedAreTargets(p: Protocol, s: Store, b: Block, x: string)
    requires ValidBlock(b) && PeriodOutcome(p, s, b).Ok? && x in W.Listed(b.whitelist)
    ensures var taxes := PeriodOutcome(p, s, b).value.store.taxes;
            x in taxes && taxes[x] == W.Listed(b.whitelist)[x]
  {
    hide PeriodOutcome, Survivors, W.Listed;
    PeriodTaxes(p, s, b);
    SurvivorsIff(s, b);
    W.WhitelistedAreTargets(s.taxes, Survivors(s, b), b.whitelist, x);
  }

  /**
   * With distinct names, the targets at the end of a period are exactly the whitelist unless some target
   * failed while the others already were the whitelist.
   */
  lemma ExactlyWhitelistIff(p: Protocol, s: Store, b: Block)
    requires ValidBlock(b) && PeriodOutcome(p, s, b).Ok? && W.DistinctNames(b.whitelist)
    ensures PeriodOutcome(p, s, b).value.store.taxes == W.Listed(b.whitelist) <==>
            !((exists d :: Failed(s, b, d)) && Survivors(s, b) == W.Listed(b.whitelist))
  {
    hide PeriodOutcome, Survivors, W.Listed, Failed;
    PeriodTaxes(p, s, b);
    SurvivorsIff(s, b);
    W.ExactlyWhitelistIff(s.taxes, Survivors(s, b), b.whitelist);
  }

  // ---------- a run that keeps a target it should have dropped ----------

  const BOTH := map["ukrw" := 0, "uusd" := 0]

  /** A period of one block; a rate string is a denom to abstain on. */
  function AbstainProtocol(): Protocol {
    Protocol(1, 100, (h: string) => Some(h), (salt: string, rates: string, val: string) => "h",
             (rates: string) => Some([Tuple(rates, 0)]))
  }

  function SoloBlock(whitelist: seq<W.Target>): Block {
    Block([Validator("val", 1, true)], 1, 1, Dec.ONE, 0, 1, whitelist, 0, {"val"}, {}, (x: int) => 0)
  }

  function Wide(): seq<W.Target> {
    [W.Target("ukrw", 0), W.Target("uusd", 0)]
  }

  /** The whitelist without uusd. */
  function Narrow(): seq<W.Target> {
    [W.Target("ukrw", 0)]
  }

  /** A validator abstains on uusd in the period in which it leaves the whitelist. */
  function StaleRun(): Run {
    Run(AbstainProtocol(), Store(0, map[], BOTH, map[], map[], map[], map[], map[], {}),
        [TxPrevote("val", "val", "h", {"val"}), EndBlock(SoloBlock(Wide())),
         TxVote("val", "val", "", "uusd", {"val"}), EndBlock(SoloBlock(Narrow()))])
  }

  function Solo(): map<string, Claim> {
    map["val" := Claim(1, 0, 0, "val")]
  }

  function Before(): Store {
    Store(0, map[], BOTH, map[], map["val" := Prevote("h", 0)], map[], map[], map[], {})
  }

  function Between(): Store {
    Before().(height := 1, misses := map["val" := 1])
  }

  function Abstained(): Store {
    Between().(prevotes := map[], votes := map["val" := [Tuple("uusd", 0)]])
  }

  function After(): Store {
    Abstained().(height := 2, votes := map[], misses := map["val" := 2])
  }

  lemma SoloClaims(list: seq<W.Target>)
    ensures BlockClaims(SoloBlock(list)) == Solo() && ThresholdVotes(SoloBlock(list)) == 1
  {
    var b := SoloBlock(list);
    assert b.validators[1..] == [];
    Dec.ChopExact(1);
  }

  lemma FirstTally()
    ensures TallyOutcome(RoundOf(Before(), SoloBlock(Wide()))) == Ok(Tallied(map[], Solo(), BOTH))
  {
    var s, b := Before(), SoloBlock(Wide());
    SoloClaims(Wide());
    assert HeardDenoms(s.votes, BlockClaims(b)) == {};
    assert Passing(RoundOf(s, b)) == {};
    assert SurvivingTargets(s.taxes, map[], ThresholdVotes(b)) == s.taxes;
  }

  /** The abstain vote makes a ballot for uusd that has no power. */
  lemma AbstainRound()
    ensures var r := RoundOf(Abstained(), SoloBlock(Narrow()));
            && r.claims == Solo() && r.targets == BOTH && r.threshold == 1
            && r.ballots.Keys == {"uusd"} && Power(r.ballots["uusd"]) == 0
  {
    hide BlockClaims, ThresholdVotes, Power;
    var s, b := Abstained(), SoloBlock(Narrow());
    SoloClaims(Narrow());
    assert s.votes["val"][0] in s.votes["val"];
    assert HeardDenoms(s.votes, Solo()) == {"uusd"};
    forall v | v in RoundOf(s, b).ballots["uusd"] ensures v.power == 0 {
      Q.StoredVote(s, b, "uusd", v);
    }
    NoPower(RoundOf(s, b).ballots["uusd"]);
  }

  /** So the ballot does not pass, and ukrw, which has none, survives alone. */
  lemma SecondTally()
    ensures TallyOutcome(RoundOf(Abstained(), SoloBlock(Narrow()))) == Ok(Tallied(map[], Solo(), map["ukrw" := 0]))
  {
    hide RoundOf, Power;
    var r := RoundOf(Abstained(), SoloBlock(Narrow()));
    AbstainRound();
    assert Passing(r) == {};
    assert SurvivingTargets(r.targets, r.ballots, r.threshold) == map["ukrw" := 0];
  }

  lemma NoPower(b: seq<Vote>)
    requires forall v :: v in b ==> v.power == 0
    ensures Power(b) == 0
  {
    SumByZero(b, PowerOf());
  }

  lemma NoReward(s: Store, b: Block, targets: map<string, int>)
    requires s.pool == map[] && b.rewardWindow > 0
    ensures Reward.RewardOutcome(RewardInput(AbstainProtocol(), s, b, Tallied(map[], Solo(), targets)))
         == Ok(Reward.Payout(map[], map[]))
  {
    SumSetConstant(Solo().Keys, Reward.WeightOf(Solo()), 0);
  }

  lemma SoloMiss(n: nat, targets: nat)
    requires targets > 0
    ensures CountMisses(if n == 0 then map[] else map["val" := n], Missed(Solo(), targets)) == map["val" := n + 1]
  {
    assert Missed(Solo(), targets) == {"val"};
  }

  /** Neither whitelist differs from the targets that survive. */
  lemma ListsStand()
    ensures !W.UpdateRequired(BOTH, Wide()) && !W.UpdateRequired(map["ukrw" := 0], Narrow())
  {
    assert |BOTH| == 2;
    assert forall t :: t in Wide() ==> !W.Differs(BOTH, t);
    assert forall t :: t in Narrow() ==> !W.Differs(map["ukrw" := 0], t);
  }

  lemma FirstSettled()
    ensures Settled(AbstainProtocol(), Before(), SoloBlock(Wide()), Tallied(map[], Solo(), BOTH), map[]) ==
            Between().(height := 0)
  {
    hide CountMisses, Missed, W.UpdateRequired;
    SoloMiss(0, |BOTH|);
    ListsStand();
    assert KeptPrevotes(AbstainProtocol(), Before()) == Before().prevotes;
  }

  lemma SecondSettled()
    ensures var tallied := Tallied(map[], Solo(), map["ukrw" := 0]);
            Settled(AbstainProtocol(), Abstained(), SoloBlock(Narrow()), tallied, map[]) == After().(height := 1)
  {
    hide CountMisses, Missed, W.UpdateRequired;
    SoloMiss(1, 1);
    ListsStand();
    assert |map["ukrw" := 0]| == 1;
    assert KeptPrevotes(AbstainProtocol(), Abstained()) == map[];
  }

  lemma FirstBlock()
    ensures Step(AbstainProtocol(), Before(), EndBlock(SoloBlock(Wide()))) == Running(Between())
  {
    hide TallyOutcome, RoundOf, Reward.RewardOutcome, RewardInput, Settled, W.UpdateRequired;
    FirstTally();
    NoReward(Before(), SoloBlock(Wide()), BOTH);
    ListsStand();
    FirstSettled();
  }

  lemma SecondBlock()
    ensures Step(AbstainProtocol(), Abstained(), EndBlock(SoloBlock(Narrow()))) == Running(After())
  {
    hide TallyOutcome, RoundOf, Reward.RewardOutcome, RewardInput, Settled, W.UpdateRequired;
    SecondTally();
    NoReward(Abstained(), SoloBlock(Narrow()), map["ukrw" := 0]);
    ListsStand();
    SecondSettled();
  }

  lemma Messages()
    ensures var p, r := AbstainProtocol(), StaleRun();
            && Step(p, r.start, r.actions[0]) == Running(Before())
            && Step(p, Between(), r.actions[2]) == Running(Abstained())
  {
    hide EndBlockOutcome;
  }

  /** In a run from empty stores uusd is still a target after a period whose whitelist does not have it. */
  lemma StaleTarget()
    ensures ValidRun(StaleRun()) && At(StaleRun(), 4) == Running(After())
    ensures "uusd" in After().taxes && "uusd" !in W.Listed(Narrow())
  {
    hide Step, EndBlockOutcome;
    var r := StaleRun();
    assert ValidRun(r);
    Messages();
    assert At(r, 1) == Running(Before());
    FirstBlock();
    assert At(r, 2) == Running(Between());
    assert At(r, 3) == Running(Abstained());
    SecondBlock();
  }
}
