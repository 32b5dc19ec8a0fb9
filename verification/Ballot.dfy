/**
 * Exchange rate ballots (x/oracle/types/ballot.go): the votes cast for one denom, their
 * weighted median, and their conversion to cross rates.
 */
module Ballot {
  import opened Orders
  import opened Outcome
  import Dec

  datatype Vote = Vote(denom: string, rate: int, voter: string, power: int)

  ghost predicate NonNegative(b: seq<Vote>) {
    forall v :: v in b ==> v.power >= 0
  }

  ghost predicate Sorted(b: seq<Vote>) {
    forall i, j :: 0 <= i < j < |b| ==> b[i].rate <= b[j].rate
  }

  function PowerOf(): Vote -> int {
    (v: Vote) => v.power
  }

  function PowerAtMost(r: int): Vote -> int {
    (v: Vote) => if v.rate <= r then v.power else 0
  }

  function CountOf(x: string): Vote -> int {
    (v: Vote) => if v.voter == x then 1 else 0
  }

  /** Total voting power behind a ballot. */
  ghost function Power(b: seq<Vote>): int {
    SumBy(b, PowerOf())
  }

  /** Voting power of the votes that name a rate of at most `r`. */
  ghost function PowerUpTo(b: seq<Vote>, r: int): int {
    SumBy(b, PowerAtMost(r))
  }

  ghost predicate OneVotePerVoter(b: seq<Vote>) {
    forall x :: SumBy(b, CountOf(x)) <= 1
  }

  // ---------- sorting ----------

  method InsertVote(s: seq<Vote>, v: Vote) returns (t: seq<Vote>)
    requires Sorted(s)
    ensures Sorted(t)
    ensures multiset(t) == multiset(s) + multiset{v}
  {
    var k := 0;
    while k < |s| && s[k].rate <= v.rate
      invariant 0 <= k <= |s|
      invariant forall j :: 0 <= j < k ==> s[j].rate <= v.rate
    {
      k := k + 1;
    }
    t := s[..k] + [v] + s[k..];
    assert s == s[..k] + s[k..];
  }

  /** Any sort is allowed here: callers learn only that the result is a sorted permutation. */
  method SortBallot(b: seq<Vote>) returns (s: seq<Vote>)
    ensures Sorted(s)
    ensures multiset(s) == multiset(b)
  {
    s := [];
    for i := 0 to |b|
      invariant Sorted(s)
      invariant multiset(s) == multiset(b[..i])
    {
      assert b[..i + 1] == b[..i] + [b[i]];
      s := InsertVote(s, b[i]);
    }
    assert b[..|b|] == b;
  }

  method IsSorted(b: seq<Vote>) returns (r: bool)
    ensures r <==> Sorted(b)
  {
    if |b| == 0 {
      return true;
    }
    var i := |b| - 1;
    while i > 0
      invariant 0 <= i < |b|
      invariant forall p, q :: i <= p < q < |b| ==> b[p].rate <= b[q].rate
    {
      if b[i].rate < b[i - 1].rate {
        return false;
      }
      i := i - 1;
    }
    return true;
  }

  // ---------- weighted median ----------

  /** The least voted rate whose cumulative power reaches half of the total, rounded down. */
  ghost predicate IsWeightedMedian(b: seq<Vote>, m: int) {
    if b == [] then m == 0 else
    && (exists v :: v in b && v.rate == m)
    && PowerUpTo(b, m) >= Power(b) / 2
    && forall v :: v in b && v.rate < m ==> PowerUpTo(b, v.rate) < Power(b) / 2
  }

  method TotalPower(b: seq<Vote>) returns (total: int)
    ensures total == Power(b)
  {
    total := 0;
    for i := 0 to |b|
      invariant total == SumBy(b[..i], PowerOf())
    {
      SumByTake(b, i, PowerOf());
      total := total + b[i].power;
    }
    assert b[..|b|] == b;
  }

  method WeightedMedianWithAssertion(b: seq<Vote>) returns (r: Halting<int>)
    requires NonNegative(b)
    ensures !Sorted(b) ==> r == Err(BallotNotSorted)
    ensures Sorted(b) ==> r.Ok? && IsWeightedMedian(b, r.value)
  {
    var sorted := IsSorted(b);
    if !sorted {
      return Err(BallotNotSorted);
    }
    var totalPower := TotalPower(b);
    if |b| > 0 {
      var pivot := 0;
      for i := 0 to |b|
        invariant pivot == SumBy(b[..i], PowerOf())
        invariant i > 0 ==> pivot < totalPower / 2
      {
        SumByTake(b, i, PowerOf());
        pivot := pivot + b[i].power;
        if pivot >= totalPower / 2 {
          ReachedAt(b, i);
          return Ok(b[i].rate);
        }
      }
      assert b[..|b|] == b;
      SumByNonNegative(b, PowerOf());
      assert false;
    }
    return Ok(0);
  }

  /** The first position whose prefix reaches half holds the median. */
  lemma ReachedAt(b: seq<Vote>, i: nat)
    requires i < |b| && Sorted(b) && NonNegative(b)
    requires SumBy(b[..i + 1], PowerOf()) >= Power(b) / 2
    requires i > 0 ==> SumBy(b[..i], PowerOf()) < Power(b) / 2
    ensures IsWeightedMedian(b, b[i].rate)
  {
    assert b[i] in b;
    PrefixReaches(b, i);
    forall v | v in b && v.rate < b[i].rate
      ensures PowerUpTo(b, v.rate) < Power(b) / 2
    {
      PrefixBounds(b, i, v.rate);
    }
  }

  lemma PrefixReaches(b: seq<Vote>, i: nat)
    requires i < |b| && Sorted(b) && NonNegative(b)
    ensures PowerUpTo(b, b[i].rate) >= SumBy(b[..i + 1], PowerOf())
  {
    var r := b[i].rate;
    assert b == b[..i + 1] + b[i + 1..];
    SumByAppend(b[..i + 1], b[i + 1..], PowerAtMost(r));
    SumByEqual(b[..i + 1], PowerAtMost(r), PowerOf());
    SumByNonNegative(b[i + 1..], PowerAtMost(r));
  }

  lemma PrefixBounds(b: seq<Vote>, i: nat, r: int)
    requires i < |b| && Sorted(b) && NonNegative(b) && r < b[i].rate
    ensures PowerUpTo(b, r) <= SumBy(b[..i], PowerOf())
  {
    assert b == b[..i] + b[i..];
    SumByAppend(b[..i], b[i..], PowerAtMost(r));
    SumByMonotone(b[..i], PowerAtMost(r), PowerOf());
    SumByZero(b[i..], PowerAtMost(r));
  }

  lemma MedianUnique(b: seq<Vote>, m: int, n: int)
    requires IsWeightedMedian(b, m) && IsWeightedMedian(b, n)
    ensures m == n
  {
  }

  lemma {:induction false} LeastElement(s: set<int>) returns (m: int)
    requires s != {}
    ensures m in s && forall x :: x in s ==> m <= x
  {
    var y := Pick(s);
    var rest := s - {y};
    if rest == {} {
      m := y;
      assert s == {y};
    } else {
      var n := LeastElement(rest);
      m := if y < n then y else n;
      forall x | x in s ensures m <= x { assert x == y || x in rest; }
    }
  }

  lemma GreatestElement(s: set<int>) returns (m: int)
    requires s != {}
    ensures m in s && forall x :: x in s ==> x <= m
  {
    var t := set x | x in s :: -x;
    var y := Pick(s);
    assert -y in t;
    var n := LeastElement(t);
    m := -n;
    forall x | x in s ensures x <= m { assert -x in t; }
  }

  lemma MedianExists(b: seq<Vote>)
    requires NonNegative(b)
    ensures exists m :: IsWeightedMedian(b, m)
  {
    if b == [] {
      assert IsWeightedMedian(b, 0);
    } else {
      var rates := set v | v in b :: v.rate;
      assert b[0].rate in rates;
      var top := GreatestElement(rates);
      forall v | v in b ensures v.rate <= top { assert v.rate in rates; }
      SumByEqual(b, PowerAtMost(top), PowerOf());
      SumByNonNegative(b, PowerOf());
      var candidates := set v | v in b && PowerUpTo(b, v.rate) >= Power(b) / 2 :: v.rate;
      assert top in candidates;
      var m := LeastElement(candidates);
      forall v | v in b && v.rate < m
        ensures PowerUpTo(b, v.rate) < Power(b) / 2
      {
        assert v.rate !in candidates;
      }
      assert IsWeightedMedian(b, m);
    }
  }

  ghost function Median(b: seq<Vote>): (m: int)
    ensures NonNegative(b) ==> IsWeightedMedian(b, m)
  {
    if NonNegative(b) then
      MedianExists(b);
      var m :| IsWeightedMedian(b, m);
      m
    else 0
  }

  lemma SameVotes(a: seq<Vote>, b: seq<Vote>)
    requires multiset(a) == multiset(b)
    ensures forall v :: v in a <==> v in b
    ensures NonNegative(a) <==> NonNegative(b)
    ensures a == [] <==> b == []
    ensures |a| == |b|
  {
    assert forall v :: v in a <==> v in multiset(a);
    assert forall v :: v in b <==> v in multiset(b);
    assert |a| == |multiset(a)| && |b| == |multiset(b)|;
  }

  /** The median depends on the votes only, not on the order equal rates were left in. */
  lemma MedianPermutation(a: seq<Vote>, b: seq<Vote>)
    requires multiset(a) == multiset(b) && NonNegative(a)
    ensures NonNegative(b) && Median(a) == Median(b)
  {
    SameVotes(a, b);
    var m := Median(a);
    SumByPermutation(a, b, PowerOf());
    SumByPermutation(a, b, PowerAtMost(m));
    forall v | v in b && v.rate < m
      ensures PowerUpTo(b, v.rate) < Power(b) / 2
    {
      SumByPermutation(a, b, PowerAtMost(v.rate));
    }
    assert IsWeightedMedian(b, m);
    MedianUnique(b, m, Median(b));
  }

  /** Some vote holds the highest rate that is at most `r`, and no power lies in between. */
  lemma HighestUpTo(b: seq<Vote>, r: int) returns (v: Vote)
    requires NonNegative(b) && PowerUpTo(b, r) > 0
    ensures v in b && v.rate <= r && PowerUpTo(b, v.rate) == PowerUpTo(b, r)
  {
    var rates := set w | w in b && w.rate <= r :: w.rate;
    if forall w :: w in b ==> w.rate > r {
      SumByZero(b, PowerAtMost(r));
      assert false;
    }
    var u :| u in b && u.rate <= r;
    assert u.rate in rates;
    var top := GreatestElement(rates);
    v :| v in b && v.rate == top;
    forall w | w in b ensures PowerAtMost(r)(w) == PowerAtMost(top)(w) {
      if w.rate <= r { assert w.rate in rates; }
    }
    SumByEqual(b, PowerAtMost(r), PowerAtMost(top));
  }

  /** With a total of at least two, no lower rate at all, voted or not, reaches half. */
  lemma MedianIsLeast(b: seq<Vote>, m: int, r: int)
    requires NonNegative(b) && Power(b) >= 2 && IsWeightedMedian(b, m) && r < m
    ensures PowerUpTo(b, r) < Power(b) / 2
  {
    if PowerUpTo(b, r) >= Power(b) / 2 {
      var v := HighestUpTo(b, r);
    }
  }

  /** With a total of at least two the median is a rate somebody backed with power. */
  lemma MedianHasPower(b: seq<Vote>, m: int) returns (v: Vote)
    requires NonNegative(b) && Power(b) >= 2 && IsWeightedMedian(b, m)
    ensures v in b && v.rate == m && v.power > 0
  {
    if forall w :: w in b && w.rate == m ==> w.power == 0 {
      SumByEqual(b, PowerAtMost(m), PowerAtMost(m - 1));
      MedianIsLeast(b, m, m - 1);
    }
    v :| v in b && v.rate == m && v.power != 0;
  }

  /** Below the median lies less than half of the power, and at most half lies above it. */
  lemma MedianSplitsPower(b: seq<Vote>)
    requires NonNegative(b) && Power(b) >= 2
    ensures 2 * PowerUpTo(b, Median(b) - 1) < Power(b)
    ensures 2 * (Power(b) - PowerUpTo(b, Median(b))) <= Power(b) + 1
  {
    MedianIsLeast(b, Median(b), Median(b) - 1);
    assert b != [];
  }

  /** Adding or removing abstain votes does not move the median. */
  lemma MedianIgnoresAbstain(b: seq<Vote>, abstain: seq<Vote>)
    requires NonNegative(b) && Power(b) >= 2
    requires forall v :: v in abstain ==> v.power == 0
    ensures NonNegative(b + abstain) && Median(b + abstain) == Median(b)
  {
    var c := b + abstain;
    assert forall v :: v in c <==> v in b || v in abstain;
    var m := Median(b);
    SumByAppend(b, abstain, PowerOf());
    SumByZero(abstain, PowerOf());
    forall r
      ensures PowerUpTo(c, r) == PowerUpTo(b, r)
    {
      SumByAppend(b, abstain, PowerAtMost(r));
      SumByZero(abstain, PowerAtMost(r));
    }
    forall v | v in c && v.rate < m
      ensures PowerUpTo(c, v.rate) < Power(c) / 2
    {
      MedianIsLeast(b, m, v.rate);
    }
    assert b != [];
    assert IsWeightedMedian(c, m);
    MedianUnique(c, m, Median(c));
  }

  // ---------- one vote per voter ----------

  lemma OneVotePermutation(a: seq<Vote>, b: seq<Vote>)
    requires multiset(a) == multiset(b) && OneVotePerVoter(a)
    ensures OneVotePerVoter(b)
  {
    forall x ensures SumBy(b, CountOf(x)) <= 1 {
      SumByPermutation(a, b, CountOf(x));
    }
  }

  lemma VotersDiffer(b: seq<Vote>, i: nat, j: nat)
    requires OneVotePerVoter(b) && i < j < |b|
    ensures b[i].voter != b[j].voter
  {
    var x := b[i].voter;
    assert SumBy(b, CountOf(x)) <= 1;
    if b[j].voter == x {
      var rest := b[..i] + b[i + 1..];
      SumByRemove(b, i, CountOf(x));
      assert rest[j - 1] == b[j];
      SumByRemove(rest, j - 1, CountOf(x));
      SumByNonNegative(rest[..j - 1] + rest[j..], CountOf(x));
    }
  }

  lemma SameVoterSameVote(b: seq<Vote>, v: Vote, w: Vote)
    requires OneVotePerVoter(b) && v in b && w in b && v.voter == w.voter
    ensures v == w
  {
    var i :| 0 <= i < |b| && b[i] == v;
    var j :| 0 <= j < |b| && b[j] == w;
    if i < j {
      VotersDiffer(b, i, j);
    } else if j < i {
      VotersDiffer(b, j, i);
    }
  }

  // ---------- cross rates ----------

  /** The rates a ballot names, by voter; abstain votes are left out. */
  function RateMap(b: seq<Vote>): map<string, int> {
    if b == [] then map[] else
    var n := |b| - 1;
    var m := RateMap(b[..n]);
    if b[n].rate > 0 then m[b[n].voter := b[n].rate] else m
  }

  method ToMap(b: seq<Vote>) returns (m: map<string, int>)
    ensures m == RateMap(b)
  {
    m := map[];
    for i := 0 to |b|
      invariant m == RateMap(b[..i])
    {
      assert b[..i + 1][..i] == b[..i];
      if b[i].rate > 0 {
        m := m[b[i].voter := b[i].rate];
      }
    }
    assert b[..|b|] == b;
  }

  lemma {:induction false} RateMapKey(b: seq<Vote>, x: string) returns (v: Vote)
    requires x in RateMap(b)
    ensures v in b && v.voter == x && v.rate > 0 && RateMap(b)[x] == v.rate
  {
    var n := |b| - 1;
    if b[n].rate > 0 && b[n].voter == x {
      v := b[n];
    } else {
      v := RateMapKey(b[..n], x);
    }
  }

  lemma {:induction false} RateMapHas(b: seq<Vote>, v: Vote)
    requires v in b && v.rate > 0
    ensures v.voter in RateMap(b)
  {
    var n := |b| - 1;
    assert b == b[..n] + [b[n]];
    if v != b[n] {
      RateMapHas(b[..n], v);
    }
  }

  lemma RateMapEntry(b: seq<Vote>, v: Vote)
    requires OneVotePerVoter(b) && v in b && v.rate > 0
    ensures v.voter in RateMap(b) && RateMap(b)[v.voter] == v.rate
  {
    RateMapHas(b, v);
    var w := RateMapKey(b, v.voter);
    SameVoterSameVote(b, v, w);
  }

  lemma RateMapPermutation(a: seq<Vote>, b: seq<Vote>)
    requires multiset(a) == multiset(b) && OneVotePerVoter(a)
    ensures RateMap(a) == RateMap(b)
  {
    SameVotes(a, b);
    OneVotePermutation(a, b);
    forall x | x in RateMap(a)
      ensures x in RateMap(b) && RateMap(b)[x] == RateMap(a)[x]
    {
      var v := RateMapKey(a, x);
      RateMapEntry(b, v);
    }
    forall x | x in RateMap(b)
      ensures x in RateMap(a)
    {
      var v := RateMapKey(b, x);
      RateMapHas(a, v);
    }
  }

  /** A voter without a reference rate, or an abstain vote, becomes a powerless abstain vote. */
  function CrossVote(v: Vote, bases: map<string, int>): Vote {
    if v.voter in bases && v.rate > 0 then v.(rate := Dec.Quo(bases[v.voter], v.rate))
    else v.(rate := 0, power := 0)
  }

  function CrossOf(bases: map<string, int>): Vote -> seq<Vote> {
    (v: Vote) => [CrossVote(v, bases)]
  }

  function CrossVotes(b: seq<Vote>, bases: map<string, int>): seq<Vote> {
    FlatMap(b, CrossOf(bases))
  }

  method ToCrossRateWithSort(b: seq<Vote>, bases: map<string, int>) returns (cb: seq<Vote>)
    ensures Sorted(cb)
    ensures multiset(cb) == multiset(CrossVotes(b, bases))
  {
    cb := [];
    for i := 0 to |b|
      invariant cb == CrossVotes(b[..i], bases)
    {
      FlatMapTake(b, i, CrossOf(bases));
      var vote := b[i];
      if vote.voter in bases && vote.rate > 0 {
        vote := vote.(rate := Dec.Quo(bases[vote.voter], vote.rate));
      } else {
        vote := vote.(rate := 0, power := 0);
      }
      cb := cb + [vote];
    }
    assert b[..|b|] == b;
    cb := SortBallot(cb);
  }

  lemma InCrossVotes(b: seq<Vote>, bases: map<string, int>, c: Vote)
    ensures c in CrossVotes(b, bases) <==> exists v :: v in b && c == CrossVote(v, bases)
  {
    InFlatMap(b, CrossOf(bases), c);
    assert forall v :: c in CrossOf(bases)(v) <==> c == CrossVote(v, bases);
    if c in CrossVotes(b, bases) {
      var v :| v in b && c in CrossOf(bases)(v);
      assert c == CrossVote(v, bases);
    }
  }

  lemma CrossKeepsShape(b: seq<Vote>, bases: map<string, int>)
    requires NonNegative(b)
    ensures NonNegative(CrossVotes(b, bases))
    ensures OneVotePerVoter(b) ==> OneVotePerVoter(CrossVotes(b, bases))
  {
    forall c | c in CrossVotes(b, bases) ensures c.power >= 0 {
      InCrossVotes(b, bases, c);
    }
    forall x ensures SumBy(CrossVotes(b, bases), CountOf(x)) == SumBy(b, CountOf(x)) {
      forall v | v in b ensures CountOf(x)(v) == SumBy(CrossOf(bases)(v), CountOf(x)) {
        assert CrossOf(bases)(v) == [CrossVote(v, bases)];
      }
      SumByFlatMap(b, CrossOf(bases), CountOf(x), CountOf(x));
    }
  }
}
