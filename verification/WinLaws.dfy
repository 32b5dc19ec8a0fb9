/**
 * Who wins a round and what winning is worth (x/oracle/tally.go), in terms of rates, median, band and
 * deviation: one win per denom a validator was close enough on, or abstained on, and its power for each
 * of them that it priced.
 */
module WinLaws {
  import opened Orders
  import opened Outcome
  import opened Ballot
  import opened Tally
  import opened VoteRound
  import opened RoundLaws
  import opened Quorum
  import Dec

  /** The votes a denom is judged by: its own for the reference, cross rates for the others. */
  ghost function Judged(r: Round, d: string): seq<Vote>
    requires Passing(r) != {} && d in r.ballots
  {
    var ref := Reference(r);
    if d == ref then r.ballots[d] else CrossVotes(r.ballots[d], RateMap(r.ballots[ref]))
  }

  function Squares(m: int): Vote -> int {
    (v: Vote) => Dec.Mul(v.rate - m, v.rate - m)
  }

  /**
   * A vote is close enough if it is an abstention, or no further from the median than half the band of
   * it, or no further than the deviation of the ballot.
   */
  ghost predicate Close(r: Round, b: seq<Vote>, v: Vote) {
    var m := Median(b);
    || v.rate <= 0
    || Dec.Abs(v.rate - m) <= Dec.Mul(m, Dec.Quot(r.band, 2))
    || (b != [] && Dec.Abs(v.rate - m) <= r.root(Dec.Quot(SumBy(b, Squares(m)), |b|)))
  }

  ghost predicate Won(r: Round, x: string, d: string)
    requires Passing(r) != {} && d in r.ballots
  {
    exists v :: v in Judged(r, d) && v.voter == x && Close(r, Judged(r, d), v)
  }

  ghost function Wins(r: Round, x: string): set<string>
    requires Passing(r) != {}
  {
    set d | d in Passing(r) && Won(r, x, d)
  }

  /** The validator named a price of the denom, and one of the reference to compare it with. */
  ghost predicate PricedFully(r: Round, x: string, d: string)
    requires Passing(r) != {} && d in r.ballots
  {
    x in Pricers(r.ballots[d]) && x in Pricers(r.ballots[Reference(r)])
  }

  // ---------- one denom ----------

  lemma CloseIff(r: Round, d: string, v: Vote)
    requires Passing(r) != {} && d in Passing(r) && v in Judged(r, d)
    ensures var ref := Reference(r);
            Tally.Wins(v, MedianFor(r, ref, d), SpreadFor(r, ref, d)) <==> Close(r, Judged(r, d), v)
  {
    hide Median, Dec.Mul, Dec.Quot, CrossVotes, RateMap;
    var b := Judged(r, d);
    var m := Median(b);
    assert b == CrossBallot(r, Reference(r), d);
    SumByEqual(b, SquaredDeviation(m), Squares(m));
  }

  lemma SumOfOne(b: seq<Vote>, x: string, f: Vote -> int, v: Vote)
    requires OneVotePerVoter(b) && v in b && v.voter == x && forall w :: w in b && w.voter != x ==> f(w) == 0
    ensures SumBy(b, f) == f(v)
  {
    var k :| 0 <= k < |b| && b[k] == v;
    SumByRemove(b, k, f);
    var rest := b[..k] + b[k + 1..];
    forall w | w in rest ensures f(w) == 0 {
      var j :| 0 <= j < |b| && j != k && b[j] == w;
      VotersDiffer(b, if j < k then j else k, if j < k then k else j);
    }
    SumByZero(rest, f);
  }

  lemma SumOfNone(b: seq<Vote>, x: string, f: Vote -> int)
    requires forall w :: w in b ==> w.voter != x
    requires forall w :: w in b && w.voter != x ==> f(w) == 0
    ensures SumBy(b, f) == 0
  {
    SumByZero(b, f);
  }

  lemma JudgedIsProper(r: Round, d: string)
    requires FullRound(r) && d in Passing(r)
    ensures ProperBallot(Judged(r, d), r.claims) && Judged(r, d) == CrossBallot(r, Reference(r), d)
  {
    CrossIsProper(r, Reference(r), d);
  }

  lemma JudgedPower(r: Round, d: string, v: Vote)
    requires FullRound(r) && d in Passing(r) && v in Judged(r, d)
    ensures v.voter in r.claims && v.power == if PricedFully(r, v.voter, d) then r.claims[v.voter].power else 0
  {
    hide Dec.Quo;
    var ref := Reference(r);
    var a, b := r.ballots[ref], r.ballots[d];
    if d == ref {
      PricedIff(b, v);
    } else {
      InCrossVotes(b, RateMap(a), v);
      var w :| w in b && v == CrossVote(w, RateMap(a));
      RateMapKeys(a);
      PricedIff(b, w);
    }
  }

  lemma PricedIff(b: seq<Vote>, v: Vote)
    requires OneVotePerVoter(b) && v in b
    ensures v.voter in Pricers(b) <==> v.rate > 0
  {
    if v.voter in Pricers(b) {
      var w :| w in b && w.rate > 0 && w.voter == v.voter;
      SameVoterSameVote(b, v, w);
    }
  }

  lemma DenomAwards(r: Round, x: string, d: string)
    requires FullRound(r) && d in Passing(r) && x in r.claims
    ensures var ref := Reference(r);
            && TimesIn(r, ref, x)(d) == (if Won(r, x, d) then 1 else 0)
            && WeightIn(r, ref, x)(d) == (if Won(r, x, d) && PricedFully(r, x, d) then r.claims[x].power else 0)
  {
    hide Close, MedianFor, SpreadFor, FullRound, CrossBallot, PricedFully;
    var ref, b := Reference(r), Judged(r, d);
    var m, spread := MedianFor(r, ref, d), SpreadFor(r, ref, d);
    JudgedIsProper(r, d);
    if v :| v in b && v.voter == x {
      CloseIff(r, d, v);
      JudgedPower(r, d, v);
      SumOfOne(b, x, WinTimesOf(x, m, spread), v);
      SumOfOne(b, x, WinPowerOf(x, m, spread), v);
      forall w | w in b && w.voter == x ensures w == v {
        SameVoterSameVote(b, v, w);
      }
    } else {
      SumOfNone(b, x, WinTimesOf(x, m, spread));
      SumOfNone(b, x, WinPowerOf(x, m, spread));
    }
  }

  // ---------- a whole round ----------

  lemma SumOfSubset(s: set<string>, inner: set<string>, f: string -> int, c: int)
    requires inner <= s && forall x :: x in s ==> f(x) == if x in inner then c else 0
    ensures SumSet(s, f) == c * |inner|
  {
    SumSetOver(s, inner, f);
    SumSetConstant(inner, f, c);
  }

  /**
   * After a round a validator has one more win for each denom it was close on, and its power more weight
   * for each of those that it priced.
   */
  lemma WinnersAre(r: Round, x: string)
    requires FullRound(r) && TallyOutcome(r).Ok? && Passing(r) != {} && x in r.claims
    ensures var c, won := TallyOutcome(r).value.claims, Wins(r, x);
            && x in c && c[x].winCount == r.claims[x].winCount + |won|
            && c[x].weight == r.claims[x].weight + r.claims[x].power * |set d | d in won && PricedFully(r, x, d)|
            && c[x].power == r.claims[x].power && c[x].recipient == r.claims[x].recipient
  {
    hide Won, RateFor, FullRound, TimesIn, WeightIn, PricedFully, SurvivingTargets;
    var ref, passing := Reference(r), Passing(r);
    var won := Wins(r, x);
    var priced := set d | d in won && PricedFully(r, x, d);
    forall d | d in passing
      ensures TimesIn(r, ref, x)(d) == if d in won then 1 else 0
      ensures WeightIn(r, ref, x)(d) == if d in priced then r.claims[x].power else 0
    {
      DenomAwards(r, x, d);
    }
    SumOfSubset(passing, won, TimesIn(r, ref, x), 1);
    SumOfSubset(passing, priced, WeightIn(r, ref, x), r.claims[x].power);
  }

  /** Without a passing ballot nobody wins anything. */
  lemma NobodyWins(r: Round)
    requires Passing(r) == {}
    ensures TallyOutcome(r).Ok? && TallyOutcome(r).value.claims == r.claims && TallyOutcome(r).value.rates == map[]
  {
  }
}
