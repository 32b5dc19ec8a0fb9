/**
 * What a tallied round guarantees: it does not depend on any visiting or sorting order, claims
 * grow within bounds, and a ballot with power rewards somebody.
 */
module RoundLaws {
  import opened Orders
  import opened Ballot
  import opened Tally
  import opened VoteRound

  // ---------- independence of ballot order ----------

  /** The same round with the votes inside each ballot in another order. */
  ghost predicate Reordered(r: Round, s: Round) {
    && s == r.(ballots := s.ballots)
    && s.ballots.Keys == r.ballots.Keys
    && forall d :: d in r.ballots ==> multiset(r.ballots[d]) == multiset(s.ballots[d])
  }

  lemma ReorderedProper(r: Round, s: Round)
    requires Proper(r) && Reordered(r, s)
    ensures Proper(s)
  {
    forall d | d in s.ballots
      ensures ProperBallot(s.ballots[d], s.claims)
    {
      SameVotes(r.ballots[d], s.ballots[d]);
      OneVotePermutation(r.ballots[d], s.ballots[d]);
    }
  }

  lemma ReorderedPower(r: Round, s: Round)
    requires Reordered(r, s)
    ensures forall d :: d in r.ballots ==> Power(r.ballots[d]) == Power(s.ballots[d])
    ensures Passing(r) == Passing(s)
    ensures SurvivingTargets(r.targets, r.ballots, r.threshold) == SurvivingTargets(s.targets, s.ballots, s.threshold)
  {
    forall d | d in r.ballots
      ensures Power(r.ballots[d]) == Power(s.ballots[d])
    {
      SumByPermutation(r.ballots[d], s.ballots[d], PowerOf());
    }
  }

  lemma ReorderedReference(r: Round, s: Round)
    requires Reordered(r, s) && Passing(r) != {}
    ensures Passing(s) == Passing(r) && Reference(s) == Reference(r)
  {
    hide Power;
    ReorderedPower(r, s);
    assert IsReference(Reference(r), Passing(s), s.ballots);
    ReferenceUnique(Reference(r), Reference(s), Passing(s), s.ballots);
  }

  lemma ReorderedCross(r: Round, s: Round, ref: string, d: string)
    requires Proper(r) && Reordered(r, s)
    ensures multiset(CrossBallot(r, ref, d)) == multiset(CrossBallot(s, ref, d))
  {
    if d != ref {
      if ref in r.ballots {
        RateMapPermutation(BallotFor(r, ref), BallotFor(s, ref));
      }
      FlatMapPermutation(BallotFor(r, d), BallotFor(s, d), CrossOf(RateMap(BallotFor(r, ref))));
    }
  }

  lemma ReorderedDenom(r: Round, s: Round, ref: string, d: string)
    requires Proper(r) && Reordered(r, s)
    ensures MedianFor(r, ref, d) == MedianFor(s, ref, d) && SpreadFor(r, ref, d) == SpreadFor(s, ref, d)
  {
    hide Median, RewardSpread, CrossBallot;
    ReorderedCross(r, s, ref, d);
    MedianMatches(r, ref, d, CrossBallot(s, ref, d));
  }

  lemma ReorderedAwards(r: Round, s: Round, ref: string, x: string, d: string)
    requires Proper(r) && Reordered(r, s)
    ensures WeightIn(r, ref, x)(d) == WeightIn(s, ref, x)(d)
    ensures TimesIn(r, ref, x)(d) == TimesIn(s, ref, x)(d)
  {
    hide MedianFor, SpreadFor, CrossBallot;
    var m, spread := MedianFor(r, ref, d), SpreadFor(r, ref, d);
    ReorderedDenom(r, s, ref, d);
    ReorderedCross(r, s, ref, d);
    SumByPermutation(CrossBallot(r, ref, d), CrossBallot(s, ref, d), WinPowerOf(x, m, spread));
    SumByPermutation(CrossBallot(r, ref, d), CrossBallot(s, ref, d), WinTimesOf(x, m, spread));
  }

  lemma ReorderedClaims(r: Round, s: Round, ref: string, done: set<string>)
    requires Proper(r) && Reordered(r, s)
    ensures ClaimsAfter(r, ref, done) == ClaimsAfter(s, ref, done)
  {
    hide WeightIn, TimesIn, Proper;
    forall x
      ensures SumSet(done, WeightIn(r, ref, x)) == SumSet(done, WeightIn(s, ref, x))
      ensures SumSet(done, TimesIn(r, ref, x)) == SumSet(done, TimesIn(s, ref, x))
    {
      forall d
        ensures WeightIn(r, ref, x)(d) == WeightIn(s, ref, x)(d)
        ensures TimesIn(r, ref, x)(d) == TimesIn(s, ref, x)(d)
      {
        ReorderedAwards(r, s, ref, x, d);
      }
      SumSetEqual(done, WeightIn(r, ref, x), WeightIn(s, ref, x));
      SumSetEqual(done, TimesIn(r, ref, x), TimesIn(s, ref, x));
    }
  }

  /** Equal rates left in any order by an unstable sort give the same rates, claims and targets. */
  lemma OutcomeIgnoresBallotOrder(r: Round, s: Round)
    requires Proper(r) && Reordered(r, s)
    ensures TallyOutcome(r) == TallyOutcome(s)
  {
    hide MedianFor, ClaimsAfter, SurvivingTargets, Passing, Proper;
    ReorderedPower(r, s);
    if Passing(r) != {} {
      var ref := Reference(r);
      ReorderedReference(r, s);
      ReorderedClaims(r, s, ref, Passing(r));
      forall d ensures MedianFor(r, ref, d) == MedianFor(s, ref, d) {
        ReorderedDenom(r, s, ref, d);
      }
      assert forall d :: ZeroMedian(r, ref, d) <==> ZeroMedian(s, ref, d);
      if forall d :: !ZeroMedian(r, ref, d) {
        assert forall d :: d in Passing(r) && d != ref ==> !ZeroMedian(r, ref, d);
        assert (map d | d in Passing(r) :: RateFor(r, ref, d)) == (map d | d in Passing(s) :: RateFor(s, ref, d));
      }
    }
  }

  // ---------- growth of the claims ----------

  function Scaled(f: Vote -> int, c: int): Vote -> int {
    (v: Vote) => c * f(v)
  }

  lemma {:induction false} SumByScaled(b: seq<Vote>, f: Vote -> int, c: int)
    ensures SumBy(b, Scaled(f, c)) == c * SumBy(b, f)
  {
    if b != [] {
      SumByScaled(b[1..], f, c);
    }
  }

  /** In one ballot a validator wins at most once, with at most its own power. */
  lemma BallotAwards(b: seq<Vote>, claims: map<string, Claim>, x: string, m: int, spread: int)
    requires ProperBallot(b, claims) && x in claims
    ensures 0 <= SumBy(b, WinTimesOf(x, m, spread)) <= 1
    ensures 0 <= SumBy(b, WinPowerOf(x, m, spread)) <= claims[x].power * SumBy(b, WinTimesOf(x, m, spread))
  {
    var times, power := WinTimesOf(x, m, spread), WinPowerOf(x, m, spread);
    SumByNonNegative(b, times);
    SumByNonNegative(b, power);
    SumByMonotone(b, times, CountOf(x));
    SumByMonotone(b, power, Scaled(times, claims[x].power));
    SumByScaled(b, times, claims[x].power);
  }

  lemma {:induction false} SumSetScaledBound(s: set<string>, f: string -> int, g: string -> int, c: int)
    requires forall d :: d in s ==> 0 <= f(d) <= c * g(d) && 0 <= g(d) <= 1
    ensures 0 <= SumSet(s, g) <= |s|
    ensures 0 <= SumSet(s, f) <= c * SumSet(s, g)
  {
    if s != {} {
      var d := Pick(s);
      SumSetRemove(s, d, f);
      SumSetRemove(s, d, g);
      SumSetScaledBound(s - {d}, f, g, c);
      assert c * (g(d) + SumSet(s - {d}, g)) == c * g(d) + c * SumSet(s - {d}, g);
    }
  }

  lemma ClaimBounds(r: Round, ref: string, done: set<string>, x: string)
    requires Proper(r) && x in r.claims
    ensures var times, weight := SumSet(done, TimesIn(r, ref, x)), SumSet(done, WeightIn(r, ref, x));
            0 <= times <= |done| && 0 <= weight <= r.claims[x].power * times
  {
    hide CrossBallot, MedianFor, SpreadFor, Proper;
    forall d
      ensures 0 <= TimesIn(r, ref, x)(d) <= 1
      ensures 0 <= WeightIn(r, ref, x)(d) <= r.claims[x].power * TimesIn(r, ref, x)(d)
    {
      CrossIsProper(r, ref, d);
      BallotAwards(CrossBallot(r, ref, d), r.claims, x, MedianFor(r, ref, d), SpreadFor(r, ref, d));
    }
    SumSetScaledBound(done, WeightIn(r, ref, x), TimesIn(r, ref, x), r.claims[x].power);
  }

  /**
   * Starting from fresh claims, the round keeps the validators and their powers; no validator wins
   * more often than there are surviving targets, nor gathers more than its power per win.
   */
  lemma ClaimsStayBounded(r: Round, x: string)
    requires Proper(r) && TallyOutcome(r).Ok?
    requires x in r.claims && r.claims[x].weight == 0 && r.claims[x].winCount == 0
    ensures var t := TallyOutcome(r).value;
            && t.claims.Keys == r.claims.Keys
            && t.claims[x].power == r.claims[x].power && t.claims[x].recipient == r.claims[x].recipient
            && 0 <= t.claims[x].winCount <= |t.targets|
            && 0 <= t.claims[x].weight <= r.claims[x].power * t.claims[x].winCount
  {
    hide Proper, MedianFor, WeightIn, TimesIn, RateFor, IsReference;
    var t := TallyOutcome(r).value;
    if Passing(r) != {} {
      ClaimBounds(r, Reference(r), Passing(r), x);
      SubsetSize(Passing(r), t.targets.Keys);
    }
  }

  /** Every ballot with power at least two rewards somebody, whatever the reward band. */
  lemma SomebodyWins(r: Round, ref: string, d: string) returns (x: string)
    requires Proper(r) && Power(CrossBallot(r, ref, d)) >= 2
    ensures x in r.claims && WeightIn(r, ref, x)(d) > 0
  {
    var b, m, spread := CrossBallot(r, ref, d), MedianFor(r, ref, d), SpreadFor(r, ref, d);
    CrossIsProper(r, ref, d);
    var v := MedianHasPower(b, m);
    SpreadNonNegative(b, m, r.band, r.root);
    assert Wins(v, m, spread);
    x := v.voter;
    SumByNonNegative(b, WinPowerOf(x, m, spread));
    assert WinPowerOf(x, m, spread)(v) == v.power;
  }

  lemma SpreadNonNegative(b: seq<Vote>, m: int, band: int, root: int -> nat)
    ensures RewardSpread(b, m, band, root) >= 0
  {
  }
}
