/**
 * Which validator sets and thresholds rule a halt of the vote round out (x/oracle/abci.go): exactly
 * those whose quorums always share enough power.
 */
module QuorumSafety {
  import opened Orders
  import opened Ballot
  import opened Tally
  import opened VoteRound
  import opened Quorum
  import opened Organize
  import opened OracleStore
  import Dec

  /** The validators whose prices alone make a ballot pass. */
  ghost predicate IsQuorum(who: set<string>, claims: map<string, Claim>, threshold: int) {
    && who <= claims.Keys
    && SumSet(who, PowerIn(claims)) != 0 && SumSet(who, PowerIn(claims)) >= threshold
  }

  /** Any two quorums share power of at least two, or are both everybody. */
  ghost predicate SafeQuorums(claims: map<string, Claim>, threshold: int) {
    forall a, b :: IsQuorum(a, claims, threshold) && IsQuorum(b, claims, threshold) ==>
                     SumSet(b * a, PowerIn(claims)) >= 2 || b * a == claims.Keys
  }

  /** No validator names two prices more than a factor of 10^18 apart. */
  ghost predicate ComparablePrices(s: Store) {
    forall v, t, u :: v in s.votes && t in s.votes[v] && u in s.votes[v] && t.rate > 0 && u.rate > 0 ==>
                        u.rate <= t.rate * Dec.ONE
  }

  /** No stored votes with comparable prices halt the round of this block. */
  ghost predicate NeverHalts(b: Block) {
    forall s :: ValidStore(s) && ComparablePrices(s) ==> TallyOutcome(RoundOf(s, b)).Ok?
  }

  // ---------- stored rounds ----------

  lemma RoundIsFull(s: Store, b: Block)
    requires ValidStore(s)
    ensures FullRound(RoundOf(s, b))
  {
    hide Collected, FullPower, Proper;
    var claims := BlockClaims(b);
    RoundIsProper(s, b);
    ClaimsAreFresh(b.validators, b.maxValidators, map[]);
    forall d | d in RoundOf(s, b).ballots ensures FullPower(RoundOf(s, b).ballots[d], claims) {
      CollectedIsProper(SomeOrder(s.votes.Keys), s.votes, claims, d);
    }
  }

  lemma StoredVote(s: Store, b: Block, d: string, v: Vote)
    requires d in RoundOf(s, b).ballots
    ensures v in RoundOf(s, b).ballots[d] <==>
            v.voter in s.votes && v.voter in BlockClaims(b) &&
            exists t :: t in s.votes[v.voter] && t.denom == d && v == VoteOf(v.voter, BlockClaims(b)[v.voter].power, t)
  {
    hide Collected;
    InCollected(SomeOrder(s.votes.Keys), s.votes, BlockClaims(b), d, v);
  }

  lemma StoredComparable(s: Store, b: Block, d: string, e: string)
    requires ComparablePrices(s) && d in RoundOf(s, b).ballots && e in RoundOf(s, b).ballots
    ensures Comparable(RoundOf(s, b).ballots[d], RoundOf(s, b).ballots[e])
  {
    hide RoundOf;
    forall u, v | u in RoundOf(s, b).ballots[d] && v in RoundOf(s, b).ballots[e] && u.voter == v.voter
                  && u.rate > 0 && v.rate > 0
      ensures v.rate <= u.rate * Dec.ONE
    {
      StoredVote(s, b, d, u);
      StoredVote(s, b, e, v);
    }
  }

  // ---------- a halt needs two quorums that hardly meet ----------

  lemma NoneVanish(a: seq<Vote>, b: seq<Vote>)
    requires Comparable(a, b)
    ensures Vanishing(a, b) == {}
  {
    hide Negligible, Dec.Quo;
    forall u, v | u in a && v in b && u.voter == v.voter && u.rate > 0 && v.rate > 0
      ensures !Negligible(u.rate, v.rate)
    {
      QuotientPositive(u.rate, v.rate);
      NegligibleIff(u.rate, v.rate);
    }
  }

  /** With comparable prices a denom is unpriceable exactly if hardly any power is shared and somebody is left out. */
  lemma UnpriceableIff(a: seq<Vote>, b: seq<Vote>, claims: map<string, Claim>)
    requires Comparable(a, b) && forall x :: x in claims ==> claims[x].power >= 0
    ensures Unpriceable(a, b, claims) <==>
            && (exists v :: v in b && v.voter !in Pricers(b) * Pricers(a))
            && SumSet(Pricers(b) * Pricers(a), PowerIn(claims)) <= 1
  {
    hide Vanishing, Comparable, Pricers;
    NoneVanish(a, b);
    var shared := Pricers(b) * Pricers(a);
    SumSetSubset({}, shared, PowerIn(claims));
    assert Shared(a, b) - Vanishing(a, b) == shared;
    assert SumSet({}, PowerIn(claims)) == 0;
  }

  lemma PassingIsQuorum(r: Round, d: string)
    requires FullRound(r) && d in Passing(r)
    ensures IsQuorum(Pricers(r.ballots[d]), r.claims, r.threshold)
  {
    BallotPower(r.ballots[d], r.claims);
  }

  lemma HaltNeedsSplit(r: Round)
    requires FullRound(r) && TallyOutcome(r).Err?
    requires forall d, e :: d in r.ballots && e in r.ballots ==> Comparable(r.ballots[d], r.ballots[e])
    ensures !SafeQuorums(r.claims, r.threshold)
  {
    hide TallyOutcome, FullRound, Comparable, Unpriceable, IsQuorum, Pricers, SumSet;
    HaltsExactlyWhen(r);
    var ref := Reference(r);
    var d :| d in Passing(r) && d != ref && Unpriceable(r.ballots[ref], r.ballots[d], r.claims);
    var a, b := r.ballots[ref], r.ballots[d];
    assert Comparable(a, b) && forall x :: x in r.claims ==> r.claims[x].power >= 0 by { PowersNonNegative(r); }
    UnpriceableIff(a, b, r.claims);
    PassingIsQuorum(r, ref);
    PassingIsQuorum(r, d);
    var v :| v in b && v.voter !in Pricers(b) * Pricers(a);
    assert v.voter in r.claims by { VotersHaveClaims(r, d, v); }
  }

  lemma VotersHaveClaims(r: Round, d: string, v: Vote)
    requires FullRound(r) && d in r.ballots && v in r.ballots[d]
    ensures v.voter in r.claims
  {
  }

  // ---------- and two such quorums halt ----------

  function SplitVotes(a: set<string>, b: set<string>, claims: map<string, Claim>): map<string, seq<Tuple>> {
    map x | x in claims ::
      [Tuple("a", if x in a then Dec.ONE else 0), Tuple("b", if x in b then Dec.ONE else 0)]
  }

  /** One quorum prices one denom, the other prices another, and the rest abstain. */
  function SplitStore(a: set<string>, b: set<string>, claims: map<string, Claim>): Store {
    Store(0, map[], map["a" := 0, "b" := 0], map[], map[], SplitVotes(a, b, claims), map[], map[], {})
  }

  lemma SplitHas(a: set<string>, b: set<string>, block: Block, x: string, d: string)
    requires x in BlockClaims(block) && d in {"a", "b"}
    ensures d in RoundOf(SplitStore(a, b, BlockClaims(block)), block).ballots
    ensures exists v :: v in RoundOf(SplitStore(a, b, BlockClaims(block)), block).ballots[d] && v.voter == x
  {
    hide Collected;
    var claims, s := BlockClaims(block), SplitStore(a, b, BlockClaims(block));
    var t := s.votes[x][if d == "a" then 0 else 1];
    assert t in s.votes[x];
    HeardDenomsIff(s.votes, claims, d);
    assert Heard(s.votes, claims, x, d);
    StoredVote(s, block, d, VoteOf(x, claims[x].power, t));
  }

  lemma SplitPricers(a: set<string>, b: set<string>, block: Block, d: string)
    requires a <= BlockClaims(block).Keys && b <= BlockClaims(block).Keys && d in {"a", "b"}
    requires d in RoundOf(SplitStore(a, b, BlockClaims(block)), block).ballots
    ensures Pricers(RoundOf(SplitStore(a, b, BlockClaims(block)), block).ballots[d]) == if d == "a" then a else b
  {
    hide Collected, BlockClaims;
    var claims, s := BlockClaims(block), SplitStore(a, b, BlockClaims(block));
    var ballot, who := RoundOf(s, block).ballots[d], if d == "a" then a else b;
    forall x | x in who ensures x in Pricers(ballot) {
      var t := s.votes[x][if d == "a" then 0 else 1];
      assert t in s.votes[x];
      StoredVote(s, block, d, VoteOf(x, claims[x].power, t));
    }
    forall x | x in Pricers(ballot) ensures x in who {
      var v :| v in ballot && v.rate > 0 && v.voter == x;
      StoredVote(s, block, d, v);
    }
  }

  lemma SplitIsValid(a: set<string>, b: set<string>, claims: map<string, Claim>)
    ensures ValidStore(SplitStore(a, b, claims)) && ComparablePrices(SplitStore(a, b, claims))
  {
  }

  lemma SplitReference(r: Round)
    requires Passing(r) == {"a", "b"} && Power(r.ballots["a"]) >= Power(r.ballots["b"])
    ensures Reference(r) == "a"
  {
    assert LexLess("a", "b");
    assert IsReference("a", Passing(r), r.ballots);
    ReferenceUnique("a", Reference(r), Passing(r), r.ballots);
  }

  lemma SplitHalts(a: set<string>, b: set<string>, block: Block)
    requires var claims, threshold := BlockClaims(block), ThresholdVotes(block);
             && IsQuorum(a, claims, threshold) && IsQuorum(b, claims, threshold)
             && SumSet(b * a, PowerIn(claims)) < 2 && b * a != claims.Keys
             && SumSet(a, PowerIn(claims)) >= SumSet(b, PowerIn(claims))
    ensures TallyOutcome(RoundOf(SplitStore(a, b, BlockClaims(block)), block)).Err?
  {
    hide TallyOutcome, BlockClaims, Collected, FullPower, ThresholdVotes, Organized, Unpriceable, Comparable,
        Pricers, Proper;
    var claims := BlockClaims(block);
    var s := SplitStore(a, b, claims);
    var r := RoundOf(s, block);
    SplitIsValid(a, b, claims);
    RoundIsFull(s, block);
    var x :| x in claims.Keys && x !in b * a;
    SplitHas(a, b, block, x, "a");
    SplitHas(a, b, block, x, "b");
    SplitPricers(a, b, block, "a");
    SplitPricers(a, b, block, "b");
    BallotPower(r.ballots["a"], claims);
    BallotPower(r.ballots["b"], claims);
    assert Passing(r) == {"a", "b"};
    SplitReference(r);
    StoredComparable(s, block, "a", "b");
    PowersNonNegative(r);
    UnpriceableIff(r.ballots["a"], r.ballots["b"], claims);
    HaltsExactlyWhen(r);
  }

  lemma PowersNonNegative(r: Round)
    requires FullRound(r)
    ensures forall x :: x in r.claims ==> r.claims[x].power >= 0
  {
  }

  /** Quorums that are not safe can be told apart by the votes that halt the round. */
  lemma UnsafeQuorumsHalt(block: Block) returns (a: set<string>, b: set<string>)
    requires !SafeQuorums(BlockClaims(block), ThresholdVotes(block))
    ensures TallyOutcome(RoundOf(SplitStore(a, b, BlockClaims(block)), block)).Err?
  {
    hide TallyOutcome, BlockClaims, ThresholdVotes, IsQuorum, RoundOf;
    var claims, threshold := BlockClaims(block), ThresholdVotes(block);
    a, b :| IsQuorum(a, claims, threshold) && IsQuorum(b, claims, threshold)
            && SumSet(b * a, PowerIn(claims)) < 2 && b * a != claims.Keys;
    assert a * b == b * a;
    if SumSet(a, PowerIn(claims)) < SumSet(b, PowerIn(claims)) {
      a, b := b, a;
    }
    SplitHalts(a, b, block);
  }

  /** No stored votes with comparable prices can halt a block if and only if its quorums are safe. */
  lemma QuorumSafeIff(block: Block)
    ensures NeverHalts(block) <==> SafeQuorums(BlockClaims(block), ThresholdVotes(block))
  {
    hide TallyOutcome, BlockClaims, ThresholdVotes, FullRound, ValidStore, ComparablePrices, SafeQuorums, RoundOf;
    if SafeQuorums(BlockClaims(block), ThresholdVotes(block)) {
      forall s | ValidStore(s) && ComparablePrices(s) ensures TallyOutcome(RoundOf(s, block)).Ok? {
        if TallyOutcome(RoundOf(s, block)).Err? {
          SafeRounds(s, block);
        }
      }
    } else {
      var a, b := UnsafeQuorumsHalt(block);
      SplitIsValid(a, b, BlockClaims(block));
    }
  }

  lemma SafeRounds(s: Store, block: Block)
    requires ValidStore(s) && ComparablePrices(s) && TallyOutcome(RoundOf(s, block)).Err?
    ensures !SafeQuorums(BlockClaims(block), ThresholdVotes(block))
  {
    hide TallyOutcome, BlockClaims, ThresholdVotes, FullRound, ValidStore, ComparablePrices, SafeQuorums,
        Comparable, Organized;
    var r := RoundOf(s, block);
    RoundIsFull(s, block);
    forall d, e | d in r.ballots && e in r.ballots ensures Comparable(r.ballots[d], r.ballots[e]) {
      StoredComparable(s, block, d, e);
    }
    HaltNeedsSplit(r);
  }

  /** Thresholds that force two quorums to share power of at least two are safe. */
  lemma LargeQuorumsAreSafe(claims: map<string, Claim>, threshold: int)
    requires forall x :: x in claims ==> claims[x].power >= 0
    requires 2 * threshold - SumSet(claims.Keys, PowerIn(claims)) >= 2
    ensures SafeQuorums(claims, threshold)
  {
    forall a, b | IsQuorum(a, claims, threshold) && IsQuorum(b, claims, threshold)
      ensures SumSet(b * a, PowerIn(claims)) >= 2
    {
      SumSetUnion(b, a, PowerIn(claims));
      SumSetSubset(b + a, claims.Keys, PowerIn(claims));
    }
  }
}
