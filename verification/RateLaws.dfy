/**
 * What the exchange rates stored at the end of a round mean (x/oracle/abci.go): the reference rate is a
 * weighted median, and every other rate is the reference rate carried over by the prices of a validator
 * that named both.
 */
module RateLaws {
  import opened Orders
  import opened Outcome
  import opened Ballot
  import opened Tally
  import opened VoteRound
  import opened Quorum
  import Dec

  /** The rates of a round that did not halt. */
  ghost function Rates(r: Round): map<string, int>
    requires TallyOutcome(r).Ok?
  {
    TallyOutcome(r).value.rates
  }

  ghost function CrossMedian(r: Round, d: string): int
    requires Passing(r) != {} && d in r.ballots
  {
    Median(CrossVotes(r.ballots[d], RateMap(r.ballots[Reference(r)])))
  }

  /** Exactly the denoms with a passing ballot get a rate; the reference gets its median. */
  lemma RatedDenoms(r: Round)
    requires TallyOutcome(r).Ok?
    ensures Rates(r).Keys == Passing(r)
    ensures Passing(r) != {} ==> Rates(r)[Reference(r)] == Median(r.ballots[Reference(r)])
  {
    hide ClaimsAfter, SurvivingTargets, Median;
  }

  lemma CrossMedianPositive(r: Round, d: string)
    requires Proper(r) && TallyOutcome(r).Ok? && d in Passing(r) && d != Reference(r)
    ensures CrossMedian(r, d) > 0
  {
    hide ClaimsAfter, SurvivingTargets, Median, CrossVote, RateFor;
    var ref := Reference(r);
    var a, b := r.ballots[ref], r.ballots[d];
    var cross := CrossVotes(b, RateMap(a));
    CrossIsProper(r, ref, d);
    CrossNotEmpty(r, ref, d);
    assert !ZeroMedian(r, ref, d);
    var c :| c in cross && c.rate == Median(cross);
    InCrossVotes(b, RateMap(a), c);
    var v :| v in b && c == CrossVote(v, RateMap(a));
    CrossVoteZeroIff(a, b, v);
  }

  /** The rate of a denom times its cross median is the reference rate, within one cross median. */
  lemma RateTimesMedian(r: Round, d: string)
    requires Proper(r) && TallyOutcome(r).Ok? && d in Passing(r) && d != Reference(r)
    ensures d in Rates(r) && Reference(r) in Rates(r)
    ensures var m := CrossMedian(r, d);
            m > 0 && Dec.Abs(Rates(r)[d] * m - Rates(r)[Reference(r)] * Dec.ONE) <= m
  {
    hide ClaimsAfter, SurvivingTargets, Median, CrossVote, Dec.Quo;
    RatedDenoms(r);
    CrossMedianPositive(r, d);
    assert !ZeroMedian(r, Reference(r), d);
    Dec.QuoWithin(Rates(r)[Reference(r)], CrossMedian(r, d));
  }

  /**
   * With shared power of at least two, some validator priced both, and the rate of the denom is to its
   * price as the reference rate is to its reference price, within the rounding of two quotients.
   */
  lemma RateFollowsPrices(r: Round, d: string) returns (u: Vote, v: Vote)
    requires FullRound(r) && TallyOutcome(r).Ok? && d in Passing(r) && d != Reference(r)
    requires SumSet(Shared(r.ballots[Reference(r)], r.ballots[d]), PowerIn(r.claims)) >= 2
    ensures u in r.ballots[Reference(r)] && v in r.ballots[d] && u.voter == v.voter && u.rate > 0 && v.rate > 0
    ensures d in Rates(r) && Reference(r) in Rates(r)
    ensures var rate, m := Rates(r)[d], CrossMedian(r, d);
            && m > 0 && Dec.Abs(m * v.rate - u.rate * Dec.ONE) <= v.rate
            && Dec.Abs(rate * u.rate - Rates(r)[Reference(r)] * v.rate) * Dec.ONE <= v.rate * (m + Dec.Abs(rate))
  {
    hide Median, CrossVotes, RateMap, TallyOutcome, Dec.Quo, PowerIn;
    var ref := Reference(r);
    RateTimesMedian(r, d);
    CrossPower(r.ballots[ref], r.ballots[d], r.claims);
    u, v := CrossMedianIsPriced(r.ballots[ref], r.ballots[d]);
    Dec.QuoWithin(u.rate, v.rate);
    var rate, m, refRate := Rates(r)[d], CrossMedian(r, d), Rates(r)[ref];
    var x, y := rate * m - refRate * Dec.ONE, m * v.rate - u.rate * Dec.ONE;
    CarriedIs(rate, m, refRate, u.rate, v.rate, x, y);
    CarriedBound(rate, m, v.rate, x, y);
    Spread(v.rate, m, Dec.Abs(rate));
    ScaledAbs(rate * u.rate - refRate * v.rate);
  }

  lemma CarriedBound(rate: int, m: int, v: int, x: int, y: int)
    requires Dec.Abs(x) <= m && Dec.Abs(y) <= v
    ensures Dec.Abs(x * v - rate * y) <= m * v + Dec.Abs(rate) * v
  {
    ProductAtMost(x, v, m, v);
    ProductAtMost(rate, y, Dec.Abs(rate), v);
  }

  lemma ScaledAbs(x: int)
    ensures Dec.Abs(x * Dec.ONE) == Dec.Abs(x) * Dec.ONE
  {
  }

  lemma Spread(v: int, m: int, rate: int)
    ensures v * (m + rate) == m * v + rate * v
  {
  }

  lemma CarriedIs(rate: int, m: int, refRate: int, u: int, v: int, x: int, y: int)
    requires x == rate * m - refRate * Dec.ONE && y == m * v - u * Dec.ONE
    ensures (rate * u - refRate * v) * Dec.ONE == x * v - rate * y
  {
    var mv := m * v;
    assert x * v == rate * m * v - refRate * Dec.ONE * v;
    assert rate * m * v == rate * mv;
    assert rate * y == rate * mv - rate * (u * Dec.ONE);
    assert rate * (u * Dec.ONE) == (rate * u) * Dec.ONE;
    assert refRate * Dec.ONE * v == (refRate * v) * Dec.ONE;
  }

  lemma ProductAtMost(a: int, b: int, p: int, q: int)
    requires Dec.Abs(a) <= p && Dec.Abs(b) <= q
    ensures Dec.Abs(a * b) <= p * q
  {
    Dec.MulLe(Dec.Abs(a), p, Dec.Abs(b));
    Dec.MulLe2(p, Dec.Abs(b), q);
    assert Dec.Abs(a * b) == Dec.Abs(a) * Dec.Abs(b);
  }

  /** If all prices of a denom agree then they are its median; abstentions do not matter. */
  lemma UnanimousMedian(b: seq<Vote>, claims: map<string, Claim>, price: int)
    requires FullPower(b, claims) && NonNegative(b) && Power(b) >= 2
    requires forall v :: v in b && v.rate > 0 ==> v.rate == price
    ensures Median(b) == price
  {
    hide Median;
    var v := MedianHasPower(b, Median(b));
  }

  /** When everybody names the same two prices, the round stores them: one exactly, the other up to rounding. */
  lemma UnanimousRates(r: Round, d: string, refPrice: int, price: int)
    requires FullRound(r) && TallyOutcome(r).Ok? && d in Passing(r) && d != Reference(r)
    requires SumSet(Shared(r.ballots[Reference(r)], r.ballots[d]), PowerIn(r.claims)) >= 2
    requires Power(r.ballots[Reference(r)]) >= 2
    requires forall v :: v in r.ballots[Reference(r)] && v.rate > 0 ==> v.rate == refPrice
    requires forall v :: v in r.ballots[d] && v.rate > 0 ==> v.rate == price
    ensures d in Rates(r) && Reference(r) in Rates(r) && refPrice > 0 && price > 0
    ensures Rates(r)[Reference(r)] == refPrice
    ensures var rate, m := Rates(r)[d], CrossMedian(r, d);
            && Dec.Abs(m * price - refPrice * Dec.ONE) <= price
            && Dec.Abs(rate - price) * refPrice * Dec.ONE <= price * (m + Dec.Abs(rate))
  {
    hide Median, CrossVotes, RateMap, TallyOutcome, PowerIn, Shared, Power, Dec.Abs, CrossMedian, Rates;
    var ref := Reference(r);
    var u, v := RateFollowsPrices(r, d);
    RatedDenoms(r);
    UnanimousMedian(r.ballots[ref], r.claims, refPrice);
    SamePrice(Rates(r)[d], refPrice, price);
  }

  lemma SamePrice(rate: int, refPrice: int, price: int)
    requires refPrice > 0
    ensures Dec.Abs(rate * refPrice - refPrice * price) == Dec.Abs(rate - price) * refPrice
  {
    assert rate * refPrice - refPrice * price == (rate - price) * refPrice;
    if rate >= price {
      Dec.MulLe(0, rate - price, refPrice);
    } else {
      Dec.MulLe(rate - price, 0, refPrice);
      assert (price - rate) * refPrice == -((rate - price) * refPrice);
    }
  }
}
