/**
 * What the end of a vote period does with what was stored and what staking says (x/oracle/abci.go,
 * x/oracle/keeper/ballot.go): who is heard, which ballots count, which rates are stored, who is paid.
 */
module PeriodLaws {
  import opened Orders
  import opened Outcome
  import opened Ballot
  import opened Tally
  import opened VoteRound
  import opened Organize
  import opened OracleStore
  import opened RateLaws
  import opened RewardLaws
  import opened OracleKeeper
  import Dec
  import Reward
  import Slash
  import W = Whitelist

  // ---------- who is heard ----------

  function Bonded(vs: seq<Validator>): nat {
    if vs == [] then 0 else Bonded(vs[1..]) + (if vs[0].bonded then 1 else 0)
  }

  /** The `k`-th validator is bonded and one of the first `room` that are. */
  ghost predicate Chosen(vs: seq<Validator>, room: nat, k: nat) {
    k < |vs| && vs[k].bonded && Bonded(vs[..k]) < room
  }

  ghost predicate DistinctAddresses(vs: seq<Validator>) {
    forall i, j :: 0 <= i < j < |vs| ==> vs[i].address != vs[j].address
  }

  lemma BondedCons(vs: seq<Validator>, k: nat)
    requires 0 < k <= |vs|
    ensures Bonded(vs[..k]) == Bonded(vs[1..][..k - 1]) + (if vs[0].bonded then 1 else 0)
  {
    assert vs[..k][1..] == vs[1..][..k - 1];
  }

  lemma {:induction false} ClaimedOnlyIfChosen(vs: seq<Validator>, room: nat, claims: map<string, Claim>, x: string)
    requires x in ClaimsOf(vs, room, claims)
    ensures x in claims || exists k: nat :: Chosen(vs, room, k) && vs[k].address == x
  {
    if vs != [] && room != 0 && x !in claims {
      var v := vs[0];
      if v.bonded && v.address == x {
        assert Chosen(vs, room, 0);
      } else {
        var room' := if v.bonded then room - 1 else room;
        var claims' := if v.bonded then claims[v.address := Claim(v.power, 0, 0, v.address)] else claims;
        ClaimedOnlyIfChosen(vs[1..], room', claims', x);
        var k: nat :| Chosen(vs[1..], room', k) && vs[1..][k].address == x;
        BondedCons(vs, k + 1);
        assert Chosen(vs, room, k + 1);
      }
    }
  }

  lemma {:induction false} OthersKeepClaims(vs: seq<Validator>, room: nat, claims: map<string, Claim>, x: string)
    requires x in claims && forall v :: v in vs ==> v.address != x
    ensures x in ClaimsOf(vs, room, claims) && ClaimsOf(vs, room, claims)[x] == claims[x]
  {
    if vs != [] && room != 0 {
      var v := vs[0];
      var room' := if v.bonded then room - 1 else room;
      var claims' := if v.bonded then claims[v.address := Claim(v.power, 0, 0, v.address)] else claims;
      OthersKeepClaims(vs[1..], room', claims', x);
    }
  }

  lemma {:induction false} ChosenIsClaimed(vs: seq<Validator>, room: nat, claims: map<string, Claim>, k: nat)
    requires DistinctAddresses(vs) && Chosen(vs, room, k)
    ensures vs[k].address in ClaimsOf(vs, room, claims)
    ensures ClaimsOf(vs, room, claims)[vs[k].address] == Claim(vs[k].power, 0, 0, vs[k].address)
  {
    var v := vs[0];
    var room' := if v.bonded then room - 1 else room;
    var claims' := if v.bonded then claims[v.address := Claim(v.power, 0, 0, v.address)] else claims;
    if k == 0 {
      OthersKeepClaims(vs[1..], room', claims', v.address);
    } else {
      BondedCons(vs, k);
      ChosenIsClaimed(vs[1..], room', claims', k - 1);
    }
  }

  /** Claims are given to the first bonded validators, up to the maximum, with their own power and nothing won yet. */
  lemma ClaimsAre(b: Block, x: string)
    requires DistinctAddresses(b.validators)
    ensures x in BlockClaims(b) <==>
            exists k: nat :: Chosen(b.validators, b.maxValidators, k) && b.validators[k].address == x
    ensures forall k: nat :: Chosen(b.validators, b.maxValidators, k) && b.validators[k].address == x ==>
              x in BlockClaims(b) && BlockClaims(b)[x] == Claim(b.validators[k].power, 0, 0, x)
  {
    hide ClaimsOf;
    if x in BlockClaims(b) {
      ClaimedOnlyIfChosen(b.validators, b.maxValidators, map[], x);
    }
    forall k: nat | Chosen(b.validators, b.maxValidators, k) && b.validators[k].address == x
      ensures x in BlockClaims(b) && BlockClaims(b)[x] == Claim(b.validators[k].power, 0, 0, x)
    {
      ChosenIsClaimed(b.validators, b.maxValidators, map[], k);
    }
  }

  /** The ballots hold one vote for each stored rate of a validator with a claim, and nothing else. */
  lemma BallotsAre(s: Store, b: Block, d: string, vote: Vote)
    ensures (d in RoundOf(s, b).ballots && vote in RoundOf(s, b).ballots[d]) <==>
            && vote.voter in s.votes && vote.voter in BlockClaims(b)
            && exists t :: t in s.votes[vote.voter] && t.denom == d &&
                 vote == Vote(d, t.rate, vote.voter, if t.rate > 0 then BlockClaims(b)[vote.voter].power else 0)
  {
    hide Collected, BlockClaims;
    InCollected(SomeOrder(s.votes.Keys), s.votes, BlockClaims(b), d, vote);
  }

  // ---------- which ballots count ----------

  /** A threshold in votes: the share of the total power, to the nearest vote. */
  lemma ThresholdIs(b: Block)
    ensures 2 * Dec.Abs(ThresholdVotes(b) * Dec.ONE - b.voteThreshold * b.totalPower) <= Dec.ONE
  {
    Dec.ChopBounds(b.voteThreshold * b.totalPower);
  }

  function VotePower(): Vote -> int {
    (v: Vote) => v.power
  }

  /** A ballot counts if its denom is a target and it has power, and enough of it. */
  ghost predicate Counts(r: Round, d: string) {
    && d in r.targets && d in r.ballots
    && SumBy(r.ballots[d], VotePower()) > 0 && SumBy(r.ballots[d], VotePower()) >= r.threshold
  }

  lemma CountsIff(r: Round, d: string)
    requires Proper(r)
    ensures Counts(r, d) <==> d in Passing(r)
  {
    if d in r.ballots {
      SumByEqual(r.ballots[d], PowerOf(), VotePower());
      SumByNonNegative(r.ballots[d], PowerOf());
    }
  }

  /** Of the ballots that count, the reference has the most power, and the first name among the most powerful. */
  lemma ReferenceLeads(r: Round, d: string)
    requires Proper(r) && Counts(r, d)
    ensures Passing(r) != {} && Counts(r, Reference(r))
    ensures var ref := Reference(r);
            var most, power := SumBy(r.ballots[ref], VotePower()), SumBy(r.ballots[d], VotePower());
            power < most || (power == most && (d == ref || LexLess(ref, d)))
  {
    CountsIff(r, d);
    CountsIff(r, Reference(r));
    SumByEqual(r.ballots[d], PowerOf(), VotePower());
    SumByEqual(r.ballots[Reference(r)], PowerOf(), VotePower());
  }

  /** Exactly the ballots that count give a rate; a target is dropped exactly if its ballot does not count. */
  lemma RatesAndTargets(r: Round, d: string)
    requires Proper(r) && TallyOutcome(r).Ok?
    ensures d in TallyOutcome(r).value.rates <==> Counts(r, d)
    ensures d in TallyOutcome(r).value.targets <==> d in r.targets && (d in r.ballots ==> Counts(r, d))
    ensures d in TallyOutcome(r).value.targets ==> TallyOutcome(r).value.targets[d] == r.targets[d]
  {
    hide Counts, RateFor, ClaimsAfter, Proper, Power;
    CountsIff(r, d);
  }

  // ---------- what is stored and paid ----------

  /** The rates afterwards are those of this round alone; feeders and height stay, the votes are gone. */
  lemma PeriodStores(p: Protocol, s: Store, b: Block)
    requires ValidBlock(b) && PeriodOutcome(p, s, b).Ok?
    ensures TallyOutcome(RoundOf(s, b)).Ok?
    ensures var t := PeriodOutcome(p, s, b).value.store;
            && t.rates == Rates(RoundOf(s, b))
            && t.votes == map[] && t.feeders == s.feeders && t.height == s.height
  {
    hide TallyOutcome, RoundOf, Reward.RewardOutcome, W.NewTaxes, CountMisses, KeptPrevotes;
  }

  /**
   * Whoever has a claim that staking knows is paid pro rata to what it won in this round, out of what the account
   * holds of uluna and of each target that was not dropped; nobody else is paid.
   */
  lemma PeriodPays(p: Protocol, s: Store, b: Block, x: string, d: string)
    requires ValidProtocol(p) && ValidStore(s) && ValidBlock(b) && PeriodOutcome(p, s, b).Ok?
    ensures TallyOutcome(RoundOf(s, b)).Ok?
    ensures var t, paid := TallyOutcome(RoundOf(s, b)).value, PeriodOutcome(p, s, b).value.allocations;
            var coins := if x in paid && d in paid[x] then paid[x][d] else 0;
            var sum := SumSet(t.claims.Keys, Weight(t.claims));
            if x in t.claims && t.claims[x].recipient in b.known && sum != 0 then
              ProRata(coins, ((if d == "uluna" then 1 else 0) + (if d in t.targets then 1 else 0)) *
                             (if d in s.pool then s.pool[d] else 0),
                      p.votePeriod, b.rewardWindow, t.claims[x].weight, sum)
            else coins == 0
  {
    hide TallyOutcome, RoundOf, Reward.RewardOutcome, W.NewTaxes, CountMisses, KeptPrevotes, ProRata;
    var t := TallyOutcome(RoundOf(s, b)).value;
    var i := RewardInput(p, s, b, t);
    InputIsValid(p, s, b);
    RewardIsProRata(i, x, d);
  }

  /** What is paid and what is left in the account add up to what was there. */
  lemma PeriodConserves(p: Protocol, s: Store, b: Block, d: string)
    requires ValidProtocol(p) && ValidStore(s) && ValidBlock(b) && PeriodOutcome(p, s, b).Ok?
    ensures var e := PeriodOutcome(p, s, b).value;
            Reward.Balance(e.store.pool, d) + AllAllocated(Reward.Payout(e.store.pool, e.allocations), d) ==
            Reward.Balance(s.pool, d)
  {
    hide TallyOutcome, RoundOf, Reward.RewardOutcome, W.NewTaxes, CountMisses, KeptPrevotes;
    var i := RewardInput(p, s, b, TallyOutcome(RoundOf(s, b)).value);
    InputIsValid(p, s, b);
    RewardsConserve(i, d);
    var payout := Reward.RewardOutcome(i).value;
    assert payout == Reward.Payout(payout.pool, payout.allocations);
  }

  /** A commitment outlives the end of a period exactly if at most a vote period of blocks has passed since. */
  lemma PrevoteKeptIff(p: Protocol, s: Store, b: Block, v: string)
    requires ValidBlock(b) && PeriodOutcome(p, s, b).Ok?
    ensures var kept := PeriodOutcome(p, s, b).value.store.prevotes;
            && (v in kept <==> v in s.prevotes && s.height - s.prevotes[v].submitBlock <= p.votePeriod)
            && (v in kept ==> kept[v] == s.prevotes[v])
  {
    hide TallyOutcome, RoundOf, Reward.RewardOutcome, W.NewTaxes, CountMisses;
  }

  /** Within a period an end of block changes nothing, but for the counters when a slash window closes. */
  lemma QuietBlock(p: Protocol, s: Store, b: Block)
    requires ValidProtocol(p) && ValidBlock(b) && EndBlockOutcome(p, s, b).Ok? && (s.height + 1) % p.votePeriod != 0
    ensures EndBlockOutcome(p, s, b).value.allocations == map[]
    ensures EndBlockOutcome(p, s, b).value.store ==
            if (s.height + 1) % p.slashWindow == 0 then s.(misses := map[]) else s
  {
    hide Slash.SlashOutcome, PeriodOutcome;
  }

  /** At the end of a period it does what the period asks for, but for the counters. */
  lemma LoudBlock(p: Protocol, s: Store, b: Block)
    requires ValidProtocol(p) && ValidBlock(b) && EndBlockOutcome(p, s, b).Ok? && (s.height + 1) % p.votePeriod == 0
    ensures PeriodOutcome(p, s, b).Ok?
    ensures EndBlockOutcome(p, s, b).value.allocations == PeriodOutcome(p, s, b).value.allocations
    ensures var t := PeriodOutcome(p, s, b).value.store;
            EndBlockOutcome(p, s, b).value.store ==
            if (s.height + 1) % p.slashWindow == 0 then t.(misses := map[]) else t
  {
    hide Slash.SlashOutcome, PeriodOutcome;
  }

  // ---------- the whitelist ----------

  /** The whitelist differs in length from the targets, or names one of them with another tax, or a new one. */
  ghost predicate UpdateDue(targets: map<string, int>, list: seq<W.Target>) {
    |targets| != |list| || exists t :: t in list && !(t.name in targets && targets[t.name] == t.tax)
  }

  ghost predicate Named(list: seq<W.Target>, x: string) {
    exists t :: t in list && t.name == x
  }

  ghost predicate LastNamed(list: seq<W.Target>, i: int, x: string) {
    0 <= i < |list| && list[i].name == x && forall j :: i < j < |list| ==> list[j].name != x
  }

  lemma UpdateDueIff(targets: map<string, int>, list: seq<W.Target>)
    ensures UpdateDue(targets, list) <==> W.UpdateRequired(targets, list)
  {
    forall t | t in list ensures W.Differs(targets, t) <==> !(t.name in targets && targets[t.name] == t.tax) {
    }
  }

  /**
   * A period that ends well leaves targets and metadata alone, or, if an update is due, has exactly the listed names
   * as targets, each with the last tax listed for it, and metadata for all of them.
   */
  lemma WhitelistApplied(p: Protocol, s: Store, b: Block, x: string)
    requires ValidBlock(b) && PeriodOutcome(p, s, b).Ok?
    ensures TallyOutcome(RoundOf(s, b)).Ok?
    ensures var t := PeriodOutcome(p, s, b).value.store;
            if UpdateDue(TallyOutcome(RoundOf(s, b)).value.targets, b.whitelist) then
              && (x in t.taxes <==> Named(b.whitelist, x))
              && (forall i :: LastNamed(b.whitelist, i, x) ==> t.taxes[x] == b.whitelist[i].tax)
              && (x in t.metadata <==> x in s.metadata || Named(b.whitelist, x))
              && (Named(b.whitelist, x) && |x| < 2 ==> x in s.metadata)
            else t.taxes == s.taxes && t.metadata == s.metadata
  {
    hide TallyOutcome, RoundOf, Reward.RewardOutcome, CountMisses, KeptPrevotes, W.Listed, W.UpdateRequired, UpdateDue;
    UpdateDueIff(TallyOutcome(RoundOf(s, b)).value.targets, b.whitelist);
    W.ListedKeys(b.whitelist, x);
    forall i | LastNamed(b.whitelist, i, x)
      ensures x in W.Listed(b.whitelist) && W.Listed(b.whitelist)[x] == b.whitelist[i].tax
    {
      W.LastTaxCounts(b.whitelist, i);
    }
  }

  /** A due update panics exactly if it lists a name of less than two letters that has no metadata. */
  lemma WhitelistPanicsIff(p: Protocol, s: Store, b: Block)
    requires ValidBlock(b) && TallyOutcome(RoundOf(s, b)).Ok?
    requires Reward.RewardOutcome(RewardInput(p, s, b, TallyOutcome(RoundOf(s, b)).value)).Ok?
    ensures PeriodOutcome(p, s, b) == Err(ShortDenom) <==>
            && UpdateDue(TallyOutcome(RoundOf(s, b)).value.targets, b.whitelist)
            && exists x :: Named(b.whitelist, x) && |x| < 2 && x !in s.metadata
    ensures PeriodOutcome(p, s, b).Err? ==> PeriodOutcome(p, s, b) == Err(ShortDenom)
  {
    hide TallyOutcome, RoundOf, Reward.RewardOutcome, W.UpdateRequired, UpdateDue, OracleStore.Settled;
    UpdateDueIff(TallyOutcome(RoundOf(s, b)).value.targets, b.whitelist);
    if x :| Named(b.whitelist, x) && |x| < 2 && x !in s.metadata {
      var t :| t in b.whitelist && t.name == x;
      assert W.Nameless(s.metadata, t);
    }
    if t :| t in b.whitelist && W.Nameless(s.metadata, t) {
      assert Named(b.whitelist, t.name);
    }
  }
}
