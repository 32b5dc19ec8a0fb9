/**
 * The oracle keeper: the stores of x/oracle/keeper as fields, and the message handlers and the end
 * blocker as methods that update them. Every loop over a Go map visits its keys in an order the
 * caller of the loop cannot choose; each method is proved against the order-free `OracleStore`.
 */
module OracleKeeper {
  import opened Orders
  import opened Outcome
  import opened Ballot
  import opened Tally
  import opened VoteRound
  import opened RoundLaws
  import opened Organize
  import opened OracleStore
  import Reward
  import Slash
  import W = Whitelist
  import Words

  class Keeper {
    var height: nat
    var rates: map<string, int>
    var taxes: map<string, int>
    var misses: map<string, nat>
    var prevotes: map<string, Prevote>
    var votes: map<string, seq<Tuple>>
    var feeders: map<string, string>
    var pool: map<string, int>
    var metadata: set<string>

    function View(): Store
      reads this
    {
      Store(height, rates, taxes, misses, prevotes, votes, feeders, pool, metadata)
    }

    ghost predicate Valid()
      reads this
    {
      ValidStore(View())
    }

    constructor (height: nat, taxes: map<string, int>, pool: map<string, int>, metadata: set<string>)
      requires "" !in taxes && forall d :: d in pool ==> pool[d] >= 0
      ensures Valid() && View() == Store(height, map[], taxes, map[], map[], map[], map[], pool, metadata)
    {
      this.height, this.taxes, this.pool, this.metadata := height, taxes, pool, metadata;
      rates, misses, prevotes, votes, feeders := map[], map[], map[], map[], map[];
    }

    // ---------- messages ----------

    method ValidateFeeder(feeder: string, val: string, bonded: set<string>) returns (error: Option<TxError>)
      ensures error == FeederError(View(), feeder, val, bonded)
    {
      if feeder != val {
        var delegate := if val in feeders then feeders[val] else val;
        if delegate != feeder {
          return Some(NoVotingPermission);
        }
      }
      if val !in bonded {
        return Some(NoValidatorFound);
      }
      return None;
    }

    method AggregateExchangeRatePrevote(p: Protocol, feeder: string, val: string, hash: string, bonded: set<string>)
      returns (error: Option<TxError>)
      requires Valid()
      modifies this`prevotes
      ensures Valid()
      ensures PrevoteTx(p, old(View()), feeder, val, hash, bonded) ==
              if error.None? then Accepted(View()) else Rejected(error.value)
      ensures error.Some? ==> View() == old(View())
    {
      error := ValidateFeeder(feeder, val, bonded);
      if error.Some? {
        return;
      }
      var voteHash := p.decode(hash);
      if voteHash.None? {
        return Some(InvalidHash);
      }
      prevotes := prevotes[val := Prevote(voteHash.value, height)];
    }

    method AllTargets(tuples: seq<Tuple>) returns (ok: bool)
      ensures ok <==> forall t :: t in tuples ==> t.denom in taxes
    {
      for i := 0 to |tuples|
        invariant forall t :: t in tuples[..i] ==> t.denom in taxes
      {
        if tuples[i].denom !in taxes {
          return false;
        }
        assert tuples[..i + 1] == tuples[..i] + [tuples[i]];
      }
      assert tuples[..|tuples|] == tuples;
      return true;
    }

    method AggregateExchangeRateVote(p: Protocol, feeder: string, val: string, salt: string, rates: string,
                                     bonded: set<string>)
      returns (error: Option<TxError>)
      requires Valid() && ValidProtocol(p)
      modifies this`prevotes, this`votes
      ensures Valid()
      ensures VoteTx(p, old(View()), feeder, val, salt, rates, bonded) ==
              if error.None? then Accepted(View()) else Rejected(error.value)
      ensures error.Some? ==> View() == old(View())
    {
      error := ValidateFeeder(feeder, val, bonded);
      if error.Some? {
        return;
      }
      if val !in prevotes {
        return Some(NoAggregatePrevote);
      }
      if Words.AsUint64(height / p.votePeriod - prevotes[val].submitBlock / p.votePeriod) != 1 {
        return Some(RevealPeriodMissMatch);
      }
      var tuples := p.parse(rates);
      if tuples.None? {
        return Some(InvalidCoins);
      }
      var ok := AllTargets(tuples.value);
      if !ok {
        return Some(UnknownDenom);
      }
      if prevotes[val].hash != p.hash(salt, rates, val) {
        return Some(VerificationFailed);
      }
      votes := votes[val := tuples.value];
      prevotes := prevotes - {val};
    }

    method DelegateFeedConsent(operator: string, delegate: string, known: set<string>) returns (error: Option<TxError>)
      requires Valid()
      modifies this`feeders
      ensures Valid()
      ensures DelegateTx(old(View()), operator, delegate, known) ==
              if error.None? then Accepted(View()) else Rejected(error.value)
      ensures error.Some? ==> View() == old(View())
    {
      if operator !in known {
        return Some(NoValidatorFound);
      }
      feeders := feeders[operator := delegate];
      return None;
    }

    // ---------- steps of the end blocker ----------

    method BuildClaims(validators: seq<Validator>, maxValidators: nat) returns (claims: map<string, Claim>)
      ensures claims == ClaimsOf(validators, maxValidators, map[])
    {
      claims := map[];
      var i, k := 0, 0;
      while k < |validators| && i < maxValidators
        invariant 0 <= k <= |validators| && 0 <= i <= maxValidators
        invariant ClaimsOf(validators[k..], maxValidators - i, claims) == ClaimsOf(validators, maxValidators, map[])
      {
        var v := validators[k];
        assert validators[k..][1..] == validators[k + 1..];
        if v.bonded {
          claims := claims[v.address := Claim(v.power, 0, 0, v.address)];
          i := i + 1;
        }
        k := k + 1;
      }
    }

    /** Adds one miss to every claim that did not win all surviving targets. */
    method CountMissing(claims: map<string, Claim>, targets: nat)
      requires forall x :: x in claims ==> claims[x].recipient == x
      modifies this`misses
      ensures misses == CountMisses(old(misses), Missed(claims, targets))
    {
      var order := RangeOrder(claims.Keys);
      ghost var done: set<string> := {};
      assert misses == CountMisses(old(misses), Missed(claims, targets) * done);
      for i := 0 to |order|
        invariant forall x :: x in done <==> x in order[..i]
        invariant misses == CountMisses(old(misses), Missed(claims, targets) * done)
      {
        var x := order[i];
        Fresh(order, i);
        var claim := claims[x];
        CountNext(old(misses), Missed(claims, targets), done, x);
        if claim.winCount != targets {
          misses := misses[claim.recipient := MissesOf(misses, claim.recipient) + 1];
        }
        done := done + {x};
      }
      assert order[..|order|] == order;
      assert Missed(claims, targets) * done == Missed(claims, targets);
    }

    /** Deletes prevotes too old to be revealed, and all votes. */
    method ClearBallots(p: Protocol)
      modifies this`prevotes, this`votes
      ensures prevotes == KeptPrevotes(p, old(View())) && votes == map[]
    {
      var order := RangeOrder(prevotes.Keys);
      ghost var done: set<string> := {};
      for i := 0 to |order|
        invariant forall x :: x in done <==> x in order[..i]
        invariant prevotes ==
                  map v | v in old(prevotes) && (v in done ==> height <= old(prevotes)[v].submitBlock + p.votePeriod) ::
                    old(prevotes)[v]
      {
        var v := order[i];
        Fresh(order, i);
        if height > prevotes[v].submitBlock + p.votePeriod {
          prevotes := prevotes - {v};
        }
        done := done + {v};
      }
      assert order[..|order|] == order;
      votes := map[];
    }

    method IsUpdateRequired(list: seq<W.Target>, targets: map<string, int>) returns (required: bool)
      ensures required <==> W.UpdateRequired(targets, list)
    {
      if |targets| != |list| {
        return true;
      }
      for i := 0 to |list|
        invariant forall t :: t in list[..i] ==> !W.Differs(targets, t)
      {
        if list[i].name !in targets || targets[list[i].name] != list[i].tax {
          assert list[i] in list && W.Differs(targets, list[i]);
          return true;
        }
        assert list[..i + 1] == list[..i] + [list[i]];
      }
      assert list[..|list|] == list;
      return false;
    }

    /** Sets the tax of one listed denom and registers its metadata, which a name of one letter cannot have. */
    method SetTarget(t: W.Target) returns (r: Halting<()>)
      modifies this`taxes, this`metadata
      ensures r == if W.Nameless(old(metadata), t) then Err(ShortDenom) else Ok(())
      ensures r.Ok? ==> taxes == old(taxes)[t.name := t.tax] && metadata == old(metadata) + {t.name}
    {
      taxes := taxes[t.name := t.tax];
      if t.name !in metadata {
        if |t.name| < 2 {
          return Err(ShortDenom);
        }
        metadata := metadata + {t.name};
      }
      return Ok(());
    }

    method SetTargets(list: seq<W.Target>) returns (r: Halting<()>)
      modifies this`taxes, this`metadata
      ensures r == if W.AllNamed(old(metadata), list) then Ok(()) else Err(ShortDenom)
      ensures r.Ok? ==> taxes == W.Listed(list) && metadata == old(metadata) + W.Names(list)
    {
      hide W.Listed, W.Names, W.AllNamed, W.Nameless;
      taxes := map[];
      W.EmptyList(metadata);
      assert list[..0] == [];
      for i := 0 to |list|
        invariant taxes == W.Listed(list[..i]) && metadata == old(metadata) + W.Names(list[..i])
        invariant W.AllNamed(old(metadata), list[..i])
      {
        W.ListNext(list, i);
        W.NamedNext(old(metadata), list, i);
        r := SetTarget(list[i]);
        if r.Err? {
          return;
        }
      }
      assert list[..|list|] == list;
      return Ok(());
    }

    method ApplyWhitelist(list: seq<W.Target>, targets: map<string, int>) returns (r: Halting<()>)
      modifies this`taxes, this`metadata
      ensures r == if W.Unregistrable(old(metadata), targets, list) then Err(ShortDenom) else Ok(())
      ensures r.Ok? ==> taxes == W.NewTaxes(old(taxes), targets, list)
      ensures r.Ok? ==> metadata == W.NewMetadata(old(metadata), targets, list)
    {
      hide W.Listed, W.Names, W.AllNamed, W.UpdateRequired;
      var required := IsUpdateRequired(list, targets);
      if !required {
        return Ok(());
      }
      r := SetTargets(list);
    }

    /** Judges every counter, then forgets it; an unknown validator below the threshold panics. */
    method SlashAndResetMissCounters(periods: int, minValid: int, known: set<string>, active: set<string>)
      returns (r: Halting<set<string>>)
      requires periods >= 0
      modifies this`misses
      ensures r == Slash.SlashOutcome(old(misses), periods, minValid, known, active)
      ensures r.Ok? ==> misses == map[]
    {
      var order := RangeOrder(misses.Keys);
      var slashed: set<string> := {};
      if periods == 0 && |order| > 0 {
        assert order[0] in misses;
        return Err(DivisionByZero);
      }
      if periods == 0 {
        assert misses.Keys == {};
        return Ok({});
      }
      ghost var below, done: set<string> := Slash.Below(misses, periods, minValid), {};
      for i := 0 to |order|
        invariant forall x :: x in done <==> x in order[..i]
        invariant misses == old(misses) - done
        invariant below * done <= known && slashed == below * done * active
      {
        hide Slash.ValidVoteRate;
        var v := order[i];
        Fresh(order, i);
        if Slash.ValidVoteRate(periods, misses[v]) < minValid {
          assert v in below;
          if v !in known {
            return Err(MissingValidator);
          }
          if v in active {
            slashed := slashed + {v};
          }
        }
        misses := misses - {v};
        done := done + {v};
      }
      assert order[..|order|] == order;
      assert below * done == below;
      r := Ok(slashed);
    }

    // ---------- the end blocker ----------

    /** Organizes the stored votes and tallies them; the rates of the last period are gone either way. */
    method TallyStored(b: Block) returns (out: Halting<Tallied>)
      requires Valid()
      modifies this`rates
      ensures out == TallyOutcome(RoundOf(old(View()), b))
      ensures out.Ok? ==> rates == out.value.rates
    {
      hide TallyOutcome, Sorted, Proper;
      var claims := BuildClaims(b.validators, b.maxValidators);
      rates := map[];
      var order := RangeOrder(votes.Keys);
      var voteMap := OrganizeBallotByDenom(votes, claims, order);
      var round := Round(claims, taxes, voteMap, ThresholdVotes(b), b.band, b.root);
      OrganizedRound(old(View()), b, order, round);
      out := TallyVotes(round);
      if out.Ok? {
        rates := out.value.rates;
      }
    }

    /** Counts misses, pays winners, clears the ballots and applies the whitelist. */
    method Settle(p: Protocol, b: Block, t: Tallied) returns (r: Halting<map<string, map<string, int>>>)
      requires rates == t.rates && b.rewardWindow > 0 && forall x :: x in t.claims ==> t.claims[x].recipient == x
      requires Reward.Valid(RewardInput(p, View(), b, t))
      modifies this`taxes, this`misses, this`prevotes, this`votes, this`pool, this`metadata
      ensures match Reward.RewardOutcome(RewardInput(p, old(View()), b, t))
              case Err(fault) => r == Err(fault)
              case Ok(payout) =>
                if W.Unregistrable(old(metadata), t.targets, b.whitelist) then r == Err(ShortDenom)
                else r == Ok(payout.allocations) && View() == Settled(p, old(View()), b, t, payout.pool)
    {
      hide Reward.RewardOutcome, Missed, CountMisses, W.NewTaxes, W.NewMetadata, W.Unregistrable, Reward.Valid;
      CountMissing(t.claims, |t.targets|);
      var denomOrder := RangeOrder(t.targets.Keys);
      var sumOrder := RangeOrder(t.claims.Keys);
      var payOrder := RangeOrder(t.claims.Keys);
      var input := Reward.Input(p.votePeriod, b.rewardWindow, t.targets, t.claims, pool, b.known);
      var reward := Reward.RewardBallotWinners(input, denomOrder, sumOrder, payOrder);
      if reward.Err? {
        return Err(reward.error);
      }
      pool := reward.value.pool;
      ClearBallots(p);
      var applied := ApplyWhitelist(b.whitelist, t.targets);
      if applied.Err? {
        return Err(applied.error);
      }
      return Ok(reward.value.allocations);
    }

    method TallyPeriod(p: Protocol, b: Block) returns (r: Halting<map<string, map<string, int>>>)
      requires Valid() && ValidProtocol(p) && ValidBlock(b)
      modifies this`rates, this`taxes, this`misses, this`prevotes, this`votes, this`pool, this`metadata
      ensures match PeriodOutcome(p, old(View()), b)
              case Err(fault) => r == Err(fault)
              case Ok(e) => r == Ok(e.allocations) && e.slashed == {} && View() == e.store && Valid()
    {
      hide TallyOutcome, RoundOf, Reward.RewardOutcome, W.NewTaxes, W.NewMetadata, W.Unregistrable, ValidStore;
      var tallied := TallyStored(b);
      if tallied.Err? {
        return Err(tallied.error);
      }
      TalliedClaims(old(View()), b);
      InputIsValid(p, old(View()), b);
      r := Settle(p, b, tallied.value);
      if r.Ok? {
        PeriodKeepsValid(p, old(View()), b);
      }
    }

    method EndBlocker(p: Protocol, b: Block) returns (r: Halting<(map<string, map<string, int>>, set<string>)>)
      requires Valid() && ValidProtocol(p) && ValidBlock(b)
      modifies this`rates, this`taxes, this`misses, this`prevotes, this`votes, this`pool, this`metadata
      ensures match EndBlockOutcome(p, old(View()), b)
              case Err(fault) => r == Err(fault)
              case Ok(e) => r == Ok((e.allocations, e.slashed)) && View() == e.store && Valid()
    {
      hide PeriodOutcome, Slash.SlashOutcome, Periods;
      var allocations: map<string, map<string, int>> := map[];
      var slashed: set<string> := {};
      if (height + 1) % p.votePeriod == 0 {
        var paid := TallyPeriod(p, b);
        if paid.Err? {
          return Err(paid.error);
        }
        allocations := paid.value;
      }
      if (height + 1) % p.slashWindow == 0 {
        var periods := Periods(p);
        var verdict := SlashAndResetMissCounters(periods, b.minValid, b.known, b.active);
        if verdict.Err? {
          return Err(verdict.error);
        }
        slashed := verdict.value;
      }
      return Ok((allocations, slashed));
    }
  }

  /** What the store iteration and the sorts produced is a reordering of the order-free round. */
  lemma OrganizedRound(s: Store, b: Block, order: seq<string>, round: Round)
    requires ValidStore(s) && IsOrderOf(order, s.votes.Keys)
    requires round == RoundOf(s, b).(ballots := round.ballots)
    requires forall d :: d in round.ballots <==> exists v :: Heard(s.votes, BlockClaims(b), v, d)
    requires forall d :: d in round.ballots ==>
               multiset(round.ballots[d]) == multiset(Collected(order, s.votes, BlockClaims(b), d))
    ensures Proper(round) && TallyOutcome(round) == TallyOutcome(RoundOf(s, b))
  {
    hide Proper, TallyOutcome, Heard, Collected, BlockClaims;
    var claims := BlockClaims(b);
    RoundIsProper(s, b);
    forall d ensures d in HeardDenoms(s.votes, claims) <==> d in round.ballots {
      HeardDenomsIff(s.votes, claims, d);
    }
    forall d | d in round.ballots
      ensures multiset(round.ballots[d]) == multiset(RoundOf(s, b).ballots[d])
    {
      CollectedPermutation(s, b, order, d);
    }
    assert Reordered(RoundOf(s, b), round);
    ReorderedProper(RoundOf(s, b), round);
    OutcomeIgnoresBallotOrder(RoundOf(s, b), round);
  }

  lemma CollectedPermutation(s: Store, b: Block, order: seq<string>, d: string)
    requires IsOrderOf(order, s.votes.Keys)
    ensures multiset(Collected(order, s.votes, BlockClaims(b), d)) ==
            multiset(Collected(SomeOrder(s.votes.Keys), s.votes, BlockClaims(b), d))
  {
    OrdersArePermutations(order, SomeOrder(s.votes.Keys), s.votes.Keys);
    FlatMapPermutation(order, SomeOrder(s.votes.Keys), VotesBy(s.votes, BlockClaims(b), d));
  }

  lemma TalliedClaims(s: Store, b: Block)
    requires ValidStore(s) && TallyOutcome(RoundOf(s, b)).Ok?
    ensures var claims := TallyOutcome(RoundOf(s, b)).value.claims;
            forall x :: x in claims ==> claims[x].recipient == x && claims[x].weight >= 0
  {
    hide TallyOutcome, RoundOf;
    var r := RoundOf(s, b);
    RoundIsProper(s, b);
    forall x | x in r.claims
      ensures var t := TallyOutcome(r).value;
              t.claims.Keys == r.claims.Keys && t.claims[x].recipient == x && t.claims[x].weight >= 0
    {
      ClaimsStayBounded(r, x);
    }
    TalliedKeys(r);
  }

  lemma InputIsValid(p: Protocol, s: Store, b: Block)
    requires ValidStore(s) && ValidProtocol(p) && ValidBlock(b) && TallyOutcome(RoundOf(s, b)).Ok?
    ensures Reward.Valid(RewardInput(p, s, b, TallyOutcome(RoundOf(s, b)).value))
  {
    hide TallyOutcome, RoundOf;
    TalliedClaims(s, b);
  }

  lemma TalliedKeys(r: Round)
    requires TallyOutcome(r).Ok?
    ensures TallyOutcome(r).value.claims.Keys == r.claims.Keys
  {
    hide RateFor, MedianFor, ClaimAfter;
  }

  lemma PeriodKeepsValid(p: Protocol, s: Store, b: Block)
    requires ValidStore(s) && ValidProtocol(p) && ValidBlock(b) && PeriodOutcome(p, s, b).Ok?
    ensures ValidStore(PeriodOutcome(p, s, b).value.store)
  {
    hide TallyOutcome, RoundOf, Reward.RewardOutcome, W.Listed;
    var t := TallyOutcome(RoundOf(s, b)).value;
    var input := RewardInput(p, s, b, t);
    TalliedClaims(s, b);
    PoolStaysNonNegative(input);
    NamesAreListed(b.whitelist);
  }

  lemma PoolStaysNonNegative(i: Reward.Input)
    requires Reward.Valid(i) && Reward.RewardOutcome(i).Ok?
    ensures forall d :: d in Reward.RewardOutcome(i).value.pool ==> Reward.RewardOutcome(i).value.pool[d] >= 0
  {
    hide Reward.TotalPaid;
  }

  lemma NamesAreListed(list: seq<W.Target>)
    requires forall t :: t in list ==> t.name != ""
    ensures "" !in W.Listed(list)
  {
    W.ListedKeys(list, "");
  }

  lemma CountNext(misses: map<string, nat>, missed: set<string>, done: set<string>, x: string)
    requires x !in done
    ensures var before := CountMisses(misses, missed * done);
            CountMisses(misses, missed * (done + {x})) ==
            if x in missed then before[x := MissesOf(before, x) + 1] else before
  {
    if x !in missed {
      assert missed * (done + {x}) == missed * done;
    } else {
      assert missed * (done + {x}) == missed * done + {x};
    }
  }
}
