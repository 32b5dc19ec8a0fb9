/**
 * Collecting the stored aggregate votes into one ballot per denom
 * (OrganizeBallotByDenom in x/oracle/keeper/ballot.go).
 */
module Organize {
  import opened Orders
  import opened Ballot
  import opened Tally
  import opened VoteRound
  import opened Quorum

  datatype Tuple = Tuple(denom: string, rate: int)

  ghost predicate DistinctDenoms(tuples: seq<Tuple>) {
    forall i, j :: 0 <= i < j < |tuples| ==> tuples[i].denom != tuples[j].denom
  }

  /** An abstain tuple, one without a positive rate, carries no power. */
  function VoteOf(voter: string, power: int, t: Tuple): Vote {
    Vote(t.denom, t.rate, voter, if t.rate > 0 then power else 0)
  }

  function VotesIn(voter: string, power: int, d: string): Tuple -> seq<Vote> {
    (t: Tuple) => if t.denom == d then [VoteOf(voter, power, t)] else []
  }

  function TupleVotes(voter: string, power: int, tuples: seq<Tuple>, d: string): seq<Vote> {
    FlatMap(tuples, VotesIn(voter, power, d))
  }

  /** Only validators with a claim are heard. */
  function VotesBy(votes: map<string, seq<Tuple>>, claims: map<string, Claim>, d: string): string -> seq<Vote> {
    (v: string) => if v in votes && v in claims then TupleVotes(v, claims[v].power, votes[v], d) else []
  }

  function Collected(order: seq<string>, votes: map<string, seq<Tuple>>, claims: map<string, Claim>, d: string)
    : seq<Vote>
  {
    FlatMap(order, VotesBy(votes, claims, d))
  }

  ghost predicate Heard(votes: map<string, seq<Tuple>>, claims: map<string, Claim>, v: string, d: string) {
    v in votes && v in claims && exists t :: t in votes[v] && t.denom == d
  }

  // ---------- the collected ballots are proper ----------

  lemma {:induction false} TupleVotesCount(voter: string, power: int, tuples: seq<Tuple>, d: string, x: string)
    requires DistinctDenoms(tuples)
    ensures 0 <= SumBy(TupleVotes(voter, power, tuples, d), CountOf(x)) <= (if voter == x then 1 else 0)
    ensures (forall t :: t in tuples ==> t.denom != d) ==> TupleVotes(voter, power, tuples, d) == []
  {
    if tuples != [] {
      var rest := tuples[1..];
      TupleVotesCount(voter, power, rest, d, x);
      SumByAppend(VotesIn(voter, power, d)(tuples[0]), TupleVotes(voter, power, rest, d), CountOf(x));
      if tuples[0].denom == d {
        assert forall t :: t in rest ==> t.denom != d;
      }
    }
  }

  function Is(x: string): string -> int {
    (v: string) => if v == x then 1 else 0
  }

  lemma {:induction false} DistinctSum(order: seq<string>, x: string)
    requires Distinct(order)
    ensures SumBy(order, Is(x)) == if x in order then 1 else 0
  {
    if order != [] {
      DistinctSum(order[1..], x);
      assert forall y :: y in order <==> y == order[0] || y in order[1..];
    }
  }

  function CountBy(votes: map<string, seq<Tuple>>, claims: map<string, Claim>, d: string, x: string): string -> int {
    (v: string) => SumBy(VotesBy(votes, claims, d)(v), CountOf(x))
  }

  lemma OneVoteEach(order: seq<string>, votes: map<string, seq<Tuple>>, claims: map<string, Claim>, d: string)
    requires Distinct(order) && forall v :: v in votes ==> DistinctDenoms(votes[v])
    ensures OneVotePerVoter(Collected(order, votes, claims, d))
  {
    forall x
      ensures SumBy(Collected(order, votes, claims, d), CountOf(x)) <= 1
    {
      forall v | v in order ensures CountBy(votes, claims, d, x)(v) <= Is(x)(v) {
        if v in votes && v in claims {
          assert VotesBy(votes, claims, d)(v) == TupleVotes(v, claims[v].power, votes[v], d);
          TupleVotesCount(v, claims[v].power, votes[v], d, x);
        } else {
          assert VotesBy(votes, claims, d)(v) == [];
        }
      }
      SumByFlatMap(order, VotesBy(votes, claims, d), CountOf(x), CountBy(votes, claims, d, x));
      SumByMonotone(order, CountBy(votes, claims, d, x), Is(x));
      DistinctSum(order, x);
    }
  }

  /** Every collected vote restates one tuple of one heard validator, and the other way round. */
  lemma InCollected(order: seq<string>, votes: map<string, seq<Tuple>>, claims: map<string, Claim>, d: string, b: Vote)
    ensures b in Collected(order, votes, claims, d) <==>
            b.voter in order && b.voter in votes && b.voter in claims &&
            exists t :: t in votes[b.voter] && t.denom == d &&
                        b == Vote(d, t.rate, b.voter, if t.rate > 0 then claims[b.voter].power else 0)
  {
    hide FlatMap;
    InFlatMap(order, VotesBy(votes, claims, d), b);
    forall v | v in votes && v in claims
      ensures b in VotesBy(votes, claims, d)(v) <==>
              exists t :: t in votes[v] && t.denom == d && b == VoteOf(v, claims[v].power, t)
    {
      InFlatMap(votes[v], VotesIn(v, claims[v].power, d), b);
      assert forall t :: b in VotesIn(v, claims[v].power, d)(t) <==> t.denom == d && b == VoteOf(v, claims[v].power, t);
    }
  }

  lemma CollectedIsProper(order: seq<string>, votes: map<string, seq<Tuple>>, claims: map<string, Claim>, d: string)
    requires Distinct(order) && forall v :: v in votes ==> DistinctDenoms(votes[v])
    requires forall x :: x in claims ==> claims[x].power >= 0
    ensures ProperBallot(Collected(order, votes, claims, d), claims)
    ensures FullPower(Collected(order, votes, claims, d), claims)
  {
    OneVoteEach(order, votes, claims, d);
    forall b | b in Collected(order, votes, claims, d)
      ensures b.voter in claims && b.power == if b.rate > 0 then claims[b.voter].power else 0
    {
      InCollected(order, votes, claims, d, b);
    }
  }

  lemma CollectedNotEmpty(order: seq<string>, votes: map<string, seq<Tuple>>, claims: map<string, Claim>, d: string)
    requires forall v :: v in order <==> v in votes
    ensures Collected(order, votes, claims, d) != [] <==> exists v :: Heard(votes, claims, v, d)
  {
    hide Collected;
    var c := Collected(order, votes, claims, d);
    if c != [] {
      assert c[0] in c;
      InCollected(order, votes, claims, d, c[0]);
      assert Heard(votes, claims, c[0].voter, d);
    }
    if v :| Heard(votes, claims, v, d) {
      var t :| t in votes[v] && t.denom == d;
      var b := VoteOf(v, claims[v].power, t);
      InCollected(order, votes, claims, d, b);
      assert b in c;
    }
  }

  // ---------- the loops ----------

  function BallotAt(ballots: map<string, seq<Vote>>, d: string): seq<Vote> {
    if d in ballots then ballots[d] else []
  }

  /** No empty ballot is ever stored, so a denom has an entry exactly when it has a vote. */
  ghost predicate NoEmpty(ballots: map<string, seq<Vote>>) {
    forall d :: d in ballots ==> ballots[d] != []
  }

  function AppendVote(ballots: map<string, seq<Vote>>, v: Vote): map<string, seq<Vote>> {
    ballots[v.denom := BallotAt(ballots, v.denom) + [v]]
  }

  lemma AppendNext(ballots: map<string, seq<Vote>>, voter: string, power: int, tuples: seq<Tuple>, k: nat, d: string)
    requires k < |tuples|
    ensures BallotAt(AppendVote(ballots, VoteOf(voter, power, tuples[k])), d) ==
            BallotAt(ballots, d) + VotesIn(voter, power, d)(tuples[k])
    ensures TupleVotes(voter, power, tuples[..k + 1], d) ==
            TupleVotes(voter, power, tuples[..k], d) + VotesIn(voter, power, d)(tuples[k])
  {
    FlatMapTake(tuples, k, VotesIn(voter, power, d));
  }

  method AppendVotes(ballots: map<string, seq<Vote>>, voter: string, power: int, tuples: seq<Tuple>)
    returns (ballots': map<string, seq<Vote>>)
    requires NoEmpty(ballots)
    ensures NoEmpty(ballots')
    ensures forall d :: BallotAt(ballots', d) == BallotAt(ballots, d) + TupleVotes(voter, power, tuples, d)
  {
    hide BallotAt, VotesIn;
    ballots' := ballots;
    for k := 0 to |tuples|
      invariant NoEmpty(ballots')
      invariant forall d :: BallotAt(ballots', d) == BallotAt(ballots, d) + TupleVotes(voter, power, tuples[..k], d)
    {
      var tmpPower := power;
      if !(tuples[k].rate > 0) {
        tmpPower := 0;
      }
      forall d {
        AppendNext(ballots', voter, power, tuples, k, d);
      }
      ballots' := AppendVote(ballots', Vote(tuples[k].denom, tuples[k].rate, voter, tmpPower));
    }
    assert tuples[..|tuples|] == tuples;
  }

  method CollectVotes(votes: map<string, seq<Tuple>>, claims: map<string, Claim>, order: seq<string>)
    returns (ballots: map<string, seq<Vote>>)
    requires forall v :: v in order <==> v in votes
    ensures NoEmpty(ballots)
    ensures forall d :: BallotAt(ballots, d) == Collected(order, votes, claims, d)
  {
    hide TupleVotes;
    ballots := map[];
    for i := 0 to |order|
      invariant NoEmpty(ballots)
      invariant forall d :: BallotAt(ballots, d) == Collected(order[..i], votes, claims, d)
    {
      var v := order[i];
      assert v in order;
      forall d ensures Collected(order[..i + 1], votes, claims, d) ==
                       Collected(order[..i], votes, claims, d) + VotesBy(votes, claims, d)(v) {
        FlatMapTake(order, i, VotesBy(votes, claims, d));
      }
      if v in claims {
        ballots := AppendVotes(ballots, v, claims[v].power, votes[v]);
      }
    }
    assert order[..|order|] == order;
  }

  method SortBallots(ballots: map<string, seq<Vote>>) returns (sorted: map<string, seq<Vote>>)
    ensures sorted.Keys == ballots.Keys
    ensures forall d :: d in ballots ==> Sorted(sorted[d]) && multiset(sorted[d]) == multiset(ballots[d])
  {
    hide Sorted;
    sorted := ballots;
    var todo := ballots.Keys;
    while todo != {}
      invariant todo <= ballots.Keys && sorted.Keys == ballots.Keys
      invariant forall d :: d in ballots ==> multiset(sorted[d]) == multiset(ballots[d])
      invariant forall d :: d in ballots && d !in todo ==> Sorted(sorted[d])
      decreases todo
    {
      var d :| d in todo;
      var ballot := SortBallot(sorted[d]);
      sorted := sorted[d := ballot];
      todo := todo - {d};
    }
  }

  method OrganizeBallotByDenom(votes: map<string, seq<Tuple>>, claims: map<string, Claim>, order: seq<string>)
    returns (ballots: map<string, seq<Vote>>)
    requires forall v :: v in order <==> v in votes
    ensures forall d :: d in ballots <==> exists v :: Heard(votes, claims, v, d)
    ensures forall d :: d in ballots ==> Sorted(ballots[d])
    ensures forall d :: d in ballots ==> multiset(ballots[d]) == multiset(Collected(order, votes, claims, d))
  {
    hide Sorted, Collected, Heard;
    var collected := CollectVotes(votes, claims, order);
    ballots := SortBallots(collected);
    forall d
      ensures d in ballots <==> exists v :: Heard(votes, claims, v, d)
    {
      CollectedNotEmpty(order, votes, claims, d);
      assert BallotAt(collected, d) == Collected(order, votes, claims, d);
    }
    forall d | d in ballots
      ensures multiset(ballots[d]) == multiset(Collected(order, votes, claims, d))
    {
      assert BallotAt(collected, d) == Collected(order, votes, claims, d);
    }
  }
}
