/**
 * The vote loop of the oracle end blocker (x/oracle/abci.go): pick the reference denom, convert
 * the other passing ballots to cross rates, tally each, and store the rates.
 */
module VoteRound {
  import opened Orders
  import opened Outcome
  import opened Ballot
  import opened Tally
  import Dec

  datatype Round = Round(
    claims: map<string, Claim>,
    targets: map<string, int>,
    ballots: map<string, seq<Vote>>,
    threshold: int,
    band: int,
    root: int -> nat)

  datatype Tallied = Tallied(rates: map<string, int>, claims: map<string, Claim>, targets: map<string, int>)

  /** What organizing the stored votes guarantees of one ballot. */
  ghost predicate ProperBallot(b: seq<Vote>, claims: map<string, Claim>) {
    && NonNegative(b)
    && OneVotePerVoter(b)
    && forall v :: v in b ==> v.voter in claims && v.power <= claims[v.voter].power
  }

  ghost predicate Proper(r: Round) {
    && "" !in r.targets
    && (forall d :: d in r.ballots ==> ProperBallot(r.ballots[d], r.claims))
    && (forall x :: x in r.claims ==> r.claims[x].power >= 0)
  }

  // ---------- the order-free meaning of a round ----------

  ghost function Passing(r: Round): set<string> {
    PassingOf(r.targets, r.ballots, r.threshold)
  }

  ghost function Reference(r: Round): (ref: string)
    requires Passing(r) != {}
    ensures IsReference(ref, Passing(r), r.ballots)
  {
    ReferenceExists(Passing(r), r.ballots);
    var ref :| IsReference(ref, Passing(r), r.ballots);
    ref
  }

  ghost function BallotFor(r: Round, d: string): seq<Vote> {
    if d in r.ballots then r.ballots[d] else []
  }

  /** The ballot that is tallied for a denom: cross rates against the reference voters. */
  ghost function CrossBallot(r: Round, ref: string, d: string): seq<Vote> {
    if d == ref then BallotFor(r, d) else CrossVotes(BallotFor(r, d), RateMap(BallotFor(r, ref)))
  }

  ghost function MedianFor(r: Round, ref: string, d: string): int {
    Median(CrossBallot(r, ref, d))
  }

  ghost function SpreadFor(r: Round, ref: string, d: string): int {
    RewardSpread(CrossBallot(r, ref, d), MedianFor(r, ref, d), r.band, r.root)
  }

  /** Cross medians are turned back into the price of uluna in the denom. */
  ghost function RateFor(r: Round, ref: string, d: string): int
    requires d != ref ==> MedianFor(r, ref, d) != 0
  {
    if d == ref then MedianFor(r, ref, d) else Dec.Quo(MedianFor(r, ref, ref), MedianFor(r, ref, d))
  }

  ghost function WeightIn(r: Round, ref: string, x: string): string -> int {
    (d: string) => SumBy(CrossBallot(r, ref, d), WinPowerOf(x, MedianFor(r, ref, d), SpreadFor(r, ref, d)))
  }

  ghost function TimesIn(r: Round, ref: string, x: string): string -> int {
    (d: string) => SumBy(CrossBallot(r, ref, d), WinTimesOf(x, MedianFor(r, ref, d), SpreadFor(r, ref, d)))
  }

  /** The claims once the ballots of the denoms `done` have been tallied, in whatever order. */
  ghost function ClaimsAfter(r: Round, ref: string, done: set<string>): map<string, Claim> {
    map x | x in r.claims :: ClaimAfter(r, ref, done, x)
  }

  ghost function ClaimAfter(r: Round, ref: string, done: set<string>, x: string): Claim {
    Award(ClaimOf(r.claims, x), SumSet(done, WeightIn(r, ref, x)), SumSet(done, TimesIn(r, ref, x)))
  }

  ghost predicate ZeroMedian(r: Round, ref: string, d: string) {
    d in Passing(r) && d != ref && MedianFor(r, ref, d) == 0
  }

  ghost function TallyOutcome(r: Round): Halting<Tallied> {
    var targets := SurvivingTargets(r.targets, r.ballots, r.threshold);
    if Passing(r) == {} then Ok(Tallied(map[], r.claims, targets))
    else
      var ref := Reference(r);
      if exists d :: ZeroMedian(r, ref, d) then Err(DivisionByZero)
      else
        assert forall d :: d in Passing(r) && d != ref ==> !ZeroMedian(r, ref, d);
        Ok(Tallied(map d | d in Passing(r) :: RateFor(r, ref, d), ClaimsAfter(r, ref, Passing(r)), targets))
  }

  // ---------- the loop computes it for every order ----------

  lemma CrossIsProper(r: Round, ref: string, d: string)
    requires Proper(r)
    ensures ProperBallot(CrossBallot(r, ref, d), r.claims)
  {
    var b, bases := BallotFor(r, d), RateMap(BallotFor(r, ref));
    if b == [] {
      assert CrossBallot(r, ref, d) == [];
    } else if d != ref {
      CrossKeepsShape(b, bases);
      forall c | c in CrossVotes(b, bases)
        ensures c.voter in r.claims && c.power <= r.claims[c.voter].power
      {
        InCrossVotes(b, bases, c);
      }
    }
  }

  /** Awards depend on the votes of a ballot and not on their order. */
  lemma AwardedPermutation(claims: map<string, Claim>, a: seq<Vote>, b: seq<Vote>, m: int, spread: int, x: string)
    requires multiset(a) == multiset(b)
    ensures ClaimOf(Awarded(claims, a, m, spread), x) ==
            Award(ClaimOf(claims, x), SumBy(b, WinPowerOf(x, m, spread)), SumBy(b, WinTimesOf(x, m, spread)))
  {
    AwardedAt(claims, a, m, spread, x);
    SumByPermutation(a, b, WinPowerOf(x, m, spread));
    SumByPermutation(a, b, WinTimesOf(x, m, spread));
  }

  lemma SpreadPermutation(a: seq<Vote>, b: seq<Vote>, m: int, band: int, root: int -> nat)
    requires multiset(a) == multiset(b)
    ensures RewardSpread(a, m, band, root) == RewardSpread(b, m, band, root)
  {
    SameVotes(a, b);
    SumByPermutation(a, b, SquaredDeviation(m));
  }

  lemma MedianMatches(r: Round, ref: string, d: string, cb: seq<Vote>)
    requires Proper(r) && multiset(cb) == multiset(CrossBallot(r, ref, d))
    ensures NonNegative(cb) && Median(cb) == MedianFor(r, ref, d)
    ensures RewardSpread(cb, Median(cb), r.band, r.root) == SpreadFor(r, ref, d)
  {
    CrossIsProper(r, ref, d);
    MedianPermutation(CrossBallot(r, ref, d), cb);
    SpreadPermutation(cb, CrossBallot(r, ref, d), MedianFor(r, ref, d), r.band, r.root);
  }

  lemma ClaimNext(r: Round, ref: string, done: set<string>, d: string, x: string)
    requires d !in done
    ensures ClaimAfter(r, ref, done + {d}, x) ==
            Award(ClaimAfter(r, ref, done, x), WeightIn(r, ref, x)(d), TimesIn(r, ref, x)(d))
  {
    SumSetAdd(done, d, WeightIn(r, ref, x));
    SumSetAdd(done, d, TimesIn(r, ref, x));
  }

  lemma SameVoters(r: Round, ref: string, d: string, cb: seq<Vote>)
    requires Proper(r) && multiset(cb) == multiset(CrossBallot(r, ref, d))
    ensures forall v :: v in cb ==> v.voter in r.claims
  {
    CrossIsProper(r, ref, d);
    SameVotes(cb, CrossBallot(r, ref, d));
  }

  lemma ClaimsNextAt(r: Round, ref: string, done: set<string>, d: string, cb: seq<Vote>, x: string)
    requires d !in done && multiset(cb) == multiset(CrossBallot(r, ref, d)) && x in r.claims
    ensures ClaimOf(Awarded(ClaimsAfter(r, ref, done), cb, MedianFor(r, ref, d), SpreadFor(r, ref, d)), x) ==
            ClaimAfter(r, ref, done + {d}, x)
  {
    hide Awarded, ClaimAfter, SpreadFor, MedianFor, CrossBallot;
    ClaimNext(r, ref, done, d, x);
    AwardedPermutation(ClaimsAfter(r, ref, done), cb, CrossBallot(r, ref, d),
                       MedianFor(r, ref, d), SpreadFor(r, ref, d), x);
  }

  lemma ClaimsNext(r: Round, ref: string, done: set<string>, d: string, cb: seq<Vote>)
    requires Proper(r) && d !in done
    requires multiset(cb) == multiset(CrossBallot(r, ref, d))
    ensures Awarded(ClaimsAfter(r, ref, done), cb, MedianFor(r, ref, d), SpreadFor(r, ref, d)) ==
            ClaimsAfter(r, ref, done + {d})
  {
    hide Awarded, ClaimAfter, SpreadFor, MedianFor, CrossBallot, Proper;
    SameVoters(r, ref, d, cb);
    AwardedKeys(ClaimsAfter(r, ref, done), cb, MedianFor(r, ref, d), SpreadFor(r, ref, d));
    forall x | x in r.claims
      ensures ClaimOf(Awarded(ClaimsAfter(r, ref, done), cb, MedianFor(r, ref, d), SpreadFor(r, ref, d)), x) ==
              ClaimAfter(r, ref, done + {d}, x)
    {
      ClaimsNextAt(r, ref, done, d, cb, x);
    }
  }

  lemma ClaimsBefore(r: Round, ref: string)
    ensures ClaimsAfter(r, ref, {}) == r.claims
  {
    assert forall x :: x in r.claims ==> Award(r.claims[x], 0, 0) == r.claims[x];
  }

  /** Tallies one denom of the loop; the reference ballot is tallied as it is. */
  method TallyDenom(r: Round, ref: string, bases: map<string, int>, d: string, ghost done: set<string>,
                    claims: map<string, Claim>)
    returns (median: int, claims': map<string, Claim>)
    requires Proper(r) && d in r.ballots && Sorted(r.ballots[d]) && d !in done
    requires bases == RateMap(BallotFor(r, ref))
    requires claims == ClaimsAfter(r, ref, done)
    ensures median == MedianFor(r, ref, d)
    ensures claims' == ClaimsAfter(r, ref, done + {d})
  {
    var ballot := r.ballots[d];
    if d != ref {
      ballot := ToCrossRateWithSort(ballot, bases);
    }
    MedianMatches(r, ref, d, ballot);
    ClaimsNext(r, ref, done, d, ballot);
    var tallied: Halting<int>;
    tallied, claims' := TallyBallot(ballot, r.band, r.root, claims);
    median := tallied.value;
  }

  /** Transforms a median back into the price of uluna; dividing by zero halts the chain. */
  method OriginalForm(r: Round, ref: string, rateRT: int, d: string, median: int) returns (rate: Halting<int>)
    requires rateRT == MedianFor(r, ref, ref) && median == MedianFor(r, ref, d)
    ensures d != ref && median == 0 ==> rate == Err(DivisionByZero)
    ensures d == ref || median != 0 ==> rate == Ok(RateFor(r, ref, d))
  {
    if d == ref {
      return Ok(median);
    }
    if median == 0 {
      return Err(DivisionByZero);
    }
    return Ok(Dec.Quo(rateRT, median));
  }

  /** The rates of the denoms `done`, none of which has a cross median of zero. */
  ghost predicate RatesAfter(r: Round, ref: string, done: set<string>, rates: map<string, int>) {
    && rates.Keys == done
    && forall d :: d in done ==> (d != ref ==> MedianFor(r, ref, d) != 0) && rates[d] == RateFor(r, ref, d)
  }

  lemma RatesNext(r: Round, ref: string, done: set<string>, rates: map<string, int>, d: string, rate: int)
    requires RatesAfter(r, ref, done, rates)
    requires (d != ref ==> MedianFor(r, ref, d) != 0) && rate == RateFor(r, ref, d)
    ensures RatesAfter(r, ref, done + {d}, rates[d := rate])
  {
  }

  /** Ranges over the surviving ballots, storing rates, until a cross median of zero divides. */
  method TallyLoop(r: Round, ref: string, rateRT: int, bases: map<string, int>, order: seq<string>)
    returns (halted: bool, rates: map<string, int>, claims: map<string, Claim>)
    requires Proper(r) && forall d :: d in r.ballots ==> Sorted(r.ballots[d])
    requires bases == RateMap(BallotFor(r, ref)) && rateRT == MedianFor(r, ref, ref)
    requires IsOrderOf(order, Passing(r))
    ensures halted <==> exists d :: ZeroMedian(r, ref, d)
    ensures !halted ==> claims == ClaimsAfter(r, ref, Passing(r)) && RatesAfter(r, ref, Passing(r), rates)
  {
    hide Proper, ClaimsAfter, RateMap, MedianFor, Sorted, RateFor, BallotFor;
    rates, claims := map[], r.claims;
    ghost var done: set<string> := {};
    ClaimsBefore(r, ref);
    for i := 0 to |order|
      invariant forall d :: d in done <==> d in order[..i]
      invariant claims == ClaimsAfter(r, ref, done)
      invariant RatesAfter(r, ref, done, rates)
    {
      var denom := order[i];
      Fresh(order, i);
      var median;
      median, claims := TallyDenom(r, ref, bases, denom, done, claims);
      var rate := OriginalForm(r, ref, rateRT, denom, median);
      if rate.Err? {
        assert ZeroMedian(r, ref, denom);
        return true, rates, claims;
      }
      RatesNext(r, ref, done, rates, denom, rate.value);
      rates := rates[denom := rate.value];
      done := done + {denom};
    }
    assert order[..|order|] == order;
    assert done == Passing(r);
    halted := false;
  }

  lemma OutcomeOfRates(r: Round, rates: map<string, int>)
    requires Passing(r) != {} && forall d :: !ZeroMedian(r, Reference(r), d)
    requires RatesAfter(r, Reference(r), Passing(r), rates)
    ensures TallyOutcome(r) ==
            Ok(Tallied(rates, ClaimsAfter(r, Reference(r), Passing(r)), SurvivingTargets(r.targets, r.ballots,
                r.threshold)))
  {
    var ref := Reference(r);
    assert forall d :: d in Passing(r) && d != ref ==> !ZeroMedian(r, ref, d);
    assert rates == map d | d in Passing(r) :: RateFor(r, ref, d);
  }

  /**
   * The round as the end blocker runs it. The result is the order-free outcome whatever order the
   * vote map is visited in, and however equal rates were left by the sorts.
   */
  method TallyVotes(r: Round) returns (out: Halting<Tallied>)
    requires Proper(r) && forall d :: d in r.ballots ==> Sorted(r.ballots[d])
    ensures out == TallyOutcome(r)
  {
    hide IsOrderOf;
    var pickOrder := RangeOrder(r.ballots.Keys);
    var ref, targets, ballots := PickReferenceTerra(r.targets, r.ballots, r.threshold, pickOrder);
    if ref == "" {
      return Ok(Tallied(map[], r.claims, targets));
    }
    ReferenceUnique(ref, Reference(r), Passing(r), r.ballots);
    var bases := ToMap(ballots[ref]);
    var rateRT := WeightedMedianWithAssertion(ballots[ref]);
    MedianUnique(ballots[ref], rateRT.value, MedianFor(r, ref, ref));
    assert ballots.Keys == Passing(r);
    var tallyOrder := RangeOrder(ballots.Keys);
    var halted, rates, claims := TallyLoop(r, ref, rateRT.value, bases, tallyOrder);
    if halted {
      return Err(DivisionByZero);
    }
    OutcomeOfRates(r, rates);
    out := Ok(Tallied(rates, claims, targets));
  }
}
