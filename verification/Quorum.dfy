/**
 * Two ballots that both reach the vote threshold share pricing validators; the cross rates between
 * them inherit the shared power. When too little is shared the end blocker divides by zero.
 */
module Quorum {
  import opened Orders
  import opened Outcome
  import opened Ballot
  import opened Tally
  import opened VoteRound
  import Dec

  function PowerIn(claims: map<string, Claim>): string -> int {
    (x: string) => if x in claims then claims[x].power else 0
  }

  /** A ballot as organized from the store: full power behind a price, none behind an abstain vote. */
  ghost predicate FullPower(b: seq<Vote>, claims: map<string, Claim>) {
    && OneVotePerVoter(b)
    && forall v :: v in b ==>
         v.voter in claims && v.power == if v.rate > 0 then claims[v.voter].power else 0
  }

  /** The validators who named a price. */
  ghost function Pricers(b: seq<Vote>): set<string> {
    set v | v in b && v.rate > 0 :: v.voter
  }

  function PricedBy(who: set<string>): Vote -> int {
    (v: Vote) => if v.voter in who && v.rate > 0 then v.power else 0
  }

  lemma OneVoteTail(b: seq<Vote>)
    requires OneVotePerVoter(b) && b != []
    ensures OneVotePerVoter(b[1..]) && b[0].voter !in Pricers(b[1..])
  {
    forall x ensures SumBy(b[1..], CountOf(x)) <= 1 {
      assert SumBy(b, CountOf(x)) <= 1;
    }
    if b[0].voter in Pricers(b[1..]) {
      var v :| v in b[1..] && v.voter == b[0].voter;
      var i :| 0 <= i < |b[1..]| && b[1..][i] == v;
      VotersDiffer(b, 0, i + 1);
    }
  }

  /** Power that comes from a group of validators is the sum of the powers of its pricers. */
  lemma {:induction false} PowerOfPricers(b: seq<Vote>, claims: map<string, Claim>, who: set<string>)
    requires FullPower(b, claims)
    ensures SumBy(b, PricedBy(who)) == SumSet(Pricers(b) * who, PowerIn(claims))
  {
    if b == [] {
      assert Pricers(b) * who == {};
    } else {
      var v, rest := b[0], b[1..];
      OneVoteTail(b);
      PowerOfPricers(rest, claims, who);
      assert forall w :: w in b <==> w == v || w in rest;
      if v.rate > 0 && v.voter in who {
        assert Pricers(b) * who == Pricers(rest) * who + {v.voter};
        SumSetAdd(Pricers(rest) * who, v.voter, PowerIn(claims));
      } else {
        assert Pricers(b) * who == Pricers(rest) * who;
      }
    }
  }

  lemma BallotPower(b: seq<Vote>, claims: map<string, Claim>)
    requires FullPower(b, claims)
    ensures Power(b) == SumSet(Pricers(b), PowerIn(claims))
  {
    var all := Pricers(b);
    SumByEqual(b, PowerOf(), PricedBy(all));
    PowerOfPricers(b, claims, all);
    assert Pricers(b) * all == Pricers(b);
  }

  lemma RateMapKeys(b: seq<Vote>)
    ensures RateMap(b).Keys == Pricers(b)
  {
    forall x | x in RateMap(b) ensures x in Pricers(b) {
      var v := RateMapKey(b, x);
    }
    forall x | x in Pricers(b) ensures x in RateMap(b) {
      var v :| v in b && v.rate > 0 && v.voter == x;
      RateMapHas(b, v);
    }
  }

  lemma CrossPower(a: seq<Vote>, b: seq<Vote>, claims: map<string, Claim>)
    requires FullPower(b, claims)
    ensures Power(CrossVotes(b, RateMap(a))) == SumSet(Pricers(b) * Pricers(a), PowerIn(claims))
  {
    var bases, who := RateMap(a), Pricers(a);
    RateMapKeys(a);
    forall v | v in b ensures PricedBy(who)(v) == SumBy(CrossOf(bases)(v), PowerOf()) {
      assert CrossOf(bases)(v) == [CrossVote(v, bases)];
    }
    SumByFlatMap(b, CrossOf(bases), PowerOf(), PricedBy(who));
    PowerOfPricers(b, claims, who);
  }

  /**
   * Quorum intersection: when two ballots reach `threshold` and all claims add up to `total`, the
   * cross ballot keeps at least 2 * threshold - total.
   */
  lemma CrossKeepsQuorum(a: seq<Vote>, b: seq<Vote>, claims: map<string, Claim>, threshold: int)
    requires FullPower(a, claims) && FullPower(b, claims)
    requires forall x :: x in claims ==> claims[x].power >= 0
    requires Power(a) >= threshold && Power(b) >= threshold
    ensures Power(CrossVotes(b, RateMap(a))) >= 2 * threshold - SumSet(claims.Keys, PowerIn(claims))
  {
    BallotPower(a, claims);
    BallotPower(b, claims);
    CrossPower(a, b, claims);
    SumSetUnion(Pricers(b), Pricers(a), PowerIn(claims));
    SumSetSubset(Pricers(b) + Pricers(a), claims.Keys, PowerIn(claims));
  }

  /** A cross median backed by power is the quotient of two prices of one validator. */
  lemma CrossMedianIsPriced(a: seq<Vote>, b: seq<Vote>) returns (u: Vote, v: Vote)
    requires NonNegative(b) && OneVotePerVoter(a)
    requires Power(CrossVotes(b, RateMap(a))) >= 2
    ensures u in a && v in b && u.voter == v.voter && u.rate > 0 && v.rate > 0
    ensures Median(CrossVotes(b, RateMap(a))) == Dec.Quo(u.rate, v.rate)
  {
    hide Median, Dec.Quo;
    var bases := RateMap(a);
    var cross := CrossVotes(b, bases);
    CrossKeepsShape(b, bases);
    var c := MedianHasPower(cross, Median(cross));
    InCrossVotes(b, bases, c);
    v :| v in b && c == CrossVote(v, bases);
    u := RateMapKey(a, v.voter);
  }

  // ---------- when the round halts ----------

  /** A quotient rounds to zero exactly when it is at most half an ulp, up to the truncated tail. */
  predicate Negligible(price: int, other: int) {
    price * Dec.ONE * Dec.ONE < (Dec.HALF + 1) * other
  }

  lemma NegligibleIff(price: int, other: int)
    requires price > 0 && other > 0
    ensures Dec.Quo(price, other) == 0 <==> Negligible(price, other)
  {
    var t := price * Dec.ONE * Dec.ONE / other;
    Dec.DivBounds(price * Dec.ONE * Dec.ONE, other);
    if t <= Dec.HALF {
      Dec.MulLe(t + 1, Dec.HALF + 1, other);
    } else {
      Dec.MulLe(Dec.HALF + 1, t, other);
    }
    Dec.DivAntitone(price * Dec.ONE * Dec.ONE, other, other);
  }

  /** The validators who priced both ballots. */
  ghost function Shared(a: seq<Vote>, b: seq<Vote>): set<string> {
    Pricers(b) * Pricers(a)
  }

  /** Those of them whose two prices are too far apart to divide. */
  ghost function Vanishing(a: seq<Vote>, b: seq<Vote>): set<string> {
    set u, v | u in a && v in b && u.voter == v.voter && u.rate > 0 && v.rate > 0 &&
        Negligible(u.rate, v.rate) :: v.voter
  }

  /**
   * Somebody voted on `b` without a usable quotient to `a`, and quotients that vanish have half of the
   * shared power, rounded down.
   */
  ghost predicate Unpriceable(a: seq<Vote>, b: seq<Vote>, claims: map<string, Claim>) {
    && (exists v :: v in b && v.voter !in Shared(a, b) - Vanishing(a, b))
    && SumSet(Vanishing(a, b), PowerIn(claims)) >= SumSet(Shared(a, b), PowerIn(claims)) / 2
  }

  /** The cross vote is zero exactly for the votes without a usable quotient, and never negative. */
  lemma CrossVoteZeroIff(a: seq<Vote>, b: seq<Vote>, v: Vote)
    requires OneVotePerVoter(a) && OneVotePerVoter(b) && v in b
    ensures CrossVote(v, RateMap(a)).rate >= 0
    ensures CrossVote(v, RateMap(a)).rate == 0 <==> v.voter !in Shared(a, b) - Vanishing(a, b)
    ensures CrossVote(v, RateMap(a)).rate == 0 ==>
              CrossVote(v, RateMap(a)).power == PricedBy(Vanishing(a, b))(v)
  {
    hide Dec.Quo, Negligible;
    RateMapKeys(a);
    assert v.rate > 0 <==> v.voter in Pricers(b) by {
      if v.voter in Pricers(b) {
        var w :| w in b && w.rate > 0 && w.voter == v.voter;
        SameVoterSameVote(b, v, w);
      }
    }
    if v.voter in Shared(a, b) {
      var u := RateMapKey(a, v.voter);
      NegligibleIff(u.rate, v.rate);
      Dec.QuoAntitone(u.rate, v.rate, v.rate);
      if v.voter in Vanishing(a, b) {
        var x, y :| x in a && y in b && x.voter == y.voter == v.voter && x.rate > 0 && Negligible(x.rate, y.rate);
        SameVoterSameVote(a, u, x);
        SameVoterSameVote(b, v, y);
      }
    }
  }

  /** The power of the cross votes at zero is the power of the validators whose quotients vanish. */
  lemma VanishingPower(a: seq<Vote>, b: seq<Vote>, claims: map<string, Claim>)
    requires OneVotePerVoter(a) && FullPower(b, claims)
    ensures PowerUpTo(CrossVotes(b, RateMap(a)), 0) == SumSet(Vanishing(a, b), PowerIn(claims))
  {
    hide CrossVote, Negligible;
    var bases, who := RateMap(a), Vanishing(a, b);
    forall v | v in b ensures PricedBy(who)(v) == SumBy(CrossOf(bases)(v), PowerAtMost(0)) {
      CrossVoteZeroIff(a, b, v);
      var c := CrossVote(v, bases);
      assert CrossOf(bases)(v) == [] + [c];
      SumBySnoc([], c, PowerAtMost(0));
    }
    SumByFlatMap(b, CrossOf(bases), PowerAtMost(0), PricedBy(who));
    PowerOfPricers(b, claims, who);
    assert Pricers(b) * who == who;
  }

  /** The cross median is zero exactly when the votes before crossing make the denom unpriceable. */
  lemma ZeroCrossMedianIff(a: seq<Vote>, b: seq<Vote>, claims: map<string, Claim>)
    requires OneVotePerVoter(a) && FullPower(b, claims) && NonNegative(b) && b != []
    ensures Median(CrossVotes(b, RateMap(a))) == 0 <==> Unpriceable(a, b, claims)
  {
    hide CrossVote, Negligible, PowerUpTo, Power, Shared, Vanishing;
    var bases := RateMap(a);
    var cross := CrossVotes(b, bases);
    CrossKeepsShape(b, bases);
    CrossPower(a, b, claims);
    VanishingPower(a, b, claims);
    SharedIs(a, b);
    forall c | c in cross
      ensures c.rate >= 0
      ensures c.rate == 0 ==> exists v :: v in b && v.voter !in Shared(a, b) - Vanishing(a, b)
    {
      InCrossVotes(b, bases, c);
      var v :| v in b && c == CrossVote(v, bases);
      CrossVoteZeroIff(a, b, v);
    }
    if v :| v in b && v.voter !in Shared(a, b) - Vanishing(a, b) {
      CrossVoteZeroIff(a, b, v);
      InCrossVotes(b, bases, CrossVote(v, bases));
      if PowerUpTo(cross, 0) >= Power(cross) / 2 {
        assert IsWeightedMedian(cross, 0);
        MedianUnique(cross, 0, Median(cross));
      }
    }
  }

  lemma SharedIs(a: seq<Vote>, b: seq<Vote>)
    ensures Shared(a, b) == Pricers(b) * Pricers(a)
  {
  }

  ghost predicate FullRound(r: Round) {
    Proper(r) && forall d :: d in r.ballots ==> FullPower(r.ballots[d], r.claims)
  }

  /** The exact condition under which a round panics, in terms of the votes before crossing. */
  lemma HaltsExactlyWhen(r: Round)
    requires FullRound(r)
    ensures TallyOutcome(r).Err? <==>
            && Passing(r) != {}
            && exists d :: d in Passing(r) && d != Reference(r) &&
                           Unpriceable(r.ballots[Reference(r)], r.ballots[d], r.claims)
  {
    hide Median, CrossVotes, RateMap, RateFor, ClaimsAfter, Unpriceable;
    if Passing(r) != {} {
      var ref := Reference(r);
      forall d | d in Passing(r) && d != ref
        ensures ZeroMedian(r, ref, d) <==> Unpriceable(r.ballots[ref], r.ballots[d], r.claims)
      {
        CrossNotEmpty(r, ref, d);
        ZeroCrossMedianIff(r.ballots[ref], r.ballots[d], r.claims);
      }
    }
  }

  lemma CrossNotEmpty(r: Round, ref: string, d: string)
    requires d in Passing(r)
    ensures r.ballots[d] != [] && CrossBallot(r, ref, d) != []
  {
    assert r.ballots[d] != [];
  }

  /** Ballots that pass without sharing a pricing validator with the reference halt the chain. */
  lemma DisjointPricersHalt(r: Round, d: string)
    requires Proper(r) && Passing(r) != {} && d in Passing(r) && d != Reference(r)
    requires Pricers(r.ballots[d]) !! Pricers(r.ballots[Reference(r)])
    ensures TallyOutcome(r) == Err(DivisionByZero)
  {
    var ref := Reference(r);
    var bases := RateMap(r.ballots[ref]);
    RateMapKeys(r.ballots[ref]);
    CrossIsProper(r, ref, d);
    CrossNotEmpty(r, ref, d);
    var m := MedianFor(r, ref, d);
    var c :| c in CrossBallot(r, ref, d) && c.rate == m;
    InCrossVotes(r.ballots[d], bases, c);
    assert ZeroMedian(r, ref, d);
  }

  /** No price exceeds the same validator's reference price by more than a factor of 10^18. */
  ghost predicate Comparable(a: seq<Vote>, b: seq<Vote>) {
    forall u, v :: u in a && v in b && u.voter == v.voter && u.rate > 0 && v.rate > 0 ==> v.rate <= u.rate * Dec.ONE
  }

  /**
   * With threshold and claims such that two quorums share power at least two, and
   * comparable prices, the round cannot halt.
   */
  lemma QuorumPreventsHalt(r: Round)
    requires Proper(r) && forall d :: d in r.ballots ==> FullPower(r.ballots[d], r.claims)
    requires 2 * r.threshold - SumSet(r.claims.Keys, PowerIn(r.claims)) >= 2
    requires Passing(r) != {} ==> forall d :: d in Passing(r) ==> Comparable(r.ballots[Reference(r)], r.ballots[d])
    ensures TallyOutcome(r).Ok?
  {
    hide Median, Dec.Quo, CrossVotes, RateMap, RateFor, ClaimsAfter;
    if Passing(r) != {} {
      var ref := Reference(r);
      forall d | d in Passing(r) && d != ref
        ensures !ZeroMedian(r, ref, d)
      {
        CrossKeepsQuorum(r.ballots[ref], r.ballots[d], r.claims, r.threshold);
        var u, v := CrossMedianIsPriced(r.ballots[ref], r.ballots[d]);
        QuotientPositive(u.rate, v.rate);
      }
    }
  }

  lemma QuotientPositive(a: int, b: int)
    requires a > 0 && 0 < b <= a * Dec.ONE
    ensures Dec.Quo(a, b) >= 1
  {
    Dec.QuoAntitone(a, b, a * Dec.ONE);
    assert a * Dec.ONE * Dec.ONE == Dec.ONE * (a * Dec.ONE);
    Dec.DivExact(Dec.ONE, a * Dec.ONE);
    Dec.ChopExact(1);
  }
}
