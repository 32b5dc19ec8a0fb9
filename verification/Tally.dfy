/**
 * Tallying one ballot and choosing the reference ballot (x/oracle/tally.go). A loop over a Go map
 * takes its visiting order as an argument.
 */
module Tally {
  import opened Orders
  import opened Outcome
  import opened Ballot
  import Dec

  datatype Claim = Claim(power: int, weight: int, winCount: int, recipient: string)

  // ---------- winners of one ballot ----------

  function SquaredDeviation(m: int): Vote -> int {
    (v: Vote) => Dec.Mul(v.rate - m, v.rate - m)
  }

  /** The square root is taken in floating point; it is a parameter here. */
  ghost function StdDev(b: seq<Vote>, m: int, root: int -> nat): int {
    if b == [] then 0 else root(Dec.QuoInt(SumBy(b, SquaredDeviation(m)), |b|))
  }

  ghost function RewardSpread(b: seq<Vote>, m: int, band: int, root: int -> nat): int {
    var byBand := Dec.Mul(m, Dec.QuoInt(band, 2));
    var byDeviation := StdDev(b, m, root);
    if byDeviation > byBand then byDeviation else byBand
  }

  /** Votes inside the band win; so do abstain votes. */
  predicate Wins(v: Vote, m: int, spread: int) {
    m - spread <= v.rate <= m + spread || v.rate <= 0
  }

  function WinPowerOf(x: string, m: int, spread: int): Vote -> int {
    (v: Vote) => if v.voter == x && Wins(v, m, spread) then v.power else 0
  }

  function WinTimesOf(x: string, m: int, spread: int): Vote -> int {
    (v: Vote) => if v.voter == x && Wins(v, m, spread) then 1 else 0
  }

  function Award(c: Claim, power: int, times: int): Claim {
    c.(weight := c.weight + power, winCount := c.winCount + times)
  }

  /** A validator without a claim is given an empty one, as a Go map lookup does. */
  function ClaimOf(claims: map<string, Claim>, x: string): Claim {
    if x in claims then claims[x] else Claim(0, 0, 0, "")
  }

  function AwardVote(claims: map<string, Claim>, v: Vote, m: int, spread: int): map<string, Claim> {
    if Wins(v, m, spread) then claims[v.voter := Award(ClaimOf(claims, v.voter), v.power, 1)] else claims
  }

  function Awarded(claims: map<string, Claim>, b: seq<Vote>, m: int, spread: int): map<string, Claim> {
    if b == [] then claims
    else AwardVote(Awarded(claims, b[..|b| - 1], m, spread), b[|b| - 1], m, spread)
  }

  method StandardDeviation(b: seq<Vote>, m: int, root: int -> nat) returns (deviation: int)
    ensures deviation == StdDev(b, m, root)
  {
    if |b| == 0 {
      return 0;
    }
    var sum := 0;
    for i := 0 to |b|
      invariant sum == SumBy(b[..i], SquaredDeviation(m))
    {
      SumByTake(b, i, SquaredDeviation(m));
      sum := sum + Dec.Mul(b[i].rate - m, b[i].rate - m);
    }
    assert b[..|b|] == b;
    return root(Dec.QuoInt(sum, |b|));
  }

  /** What a ballot adds to a claim is a pair of sums over the votes. */
  lemma {:induction false} AwardedAt(claims: map<string, Claim>, b: seq<Vote>, m: int, spread: int, x: string)
    ensures ClaimOf(Awarded(claims, b, m, spread), x) ==
            Award(ClaimOf(claims, x), SumBy(b, WinPowerOf(x, m, spread)), SumBy(b, WinTimesOf(x, m, spread)))
    ensures x in claims ==> x in Awarded(claims, b, m, spread)
  {
    if b != [] {
      var n := |b| - 1;
      assert b[..n + 1] == b;
      AwardedAt(claims, b[..n], m, spread, x);
      SumByTake(b, n, WinPowerOf(x, m, spread));
      SumByTake(b, n, WinTimesOf(x, m, spread));
    }
  }

  lemma {:induction false} AwardedKeys(claims: map<string, Claim>, b: seq<Vote>, m: int, spread: int)
    requires forall v :: v in b ==> v.voter in claims
    ensures Awarded(claims, b, m, spread).Keys == claims.Keys
  {
    if b != [] {
      AwardedKeys(claims, b[..|b| - 1], m, spread);
    }
  }

  method AwardWinners(b: seq<Vote>, m: int, spread: int, claims: map<string, Claim>)
    returns (claims': map<string, Claim>)
    ensures claims' == Awarded(claims, b, m, spread)
  {
    claims' := claims;
    for i := 0 to |b|
      invariant claims' == Awarded(claims, b[..i], m, spread)
    {
      assert b[..i + 1][..i] == b[..i];
      if (b[i].rate >= m - spread && b[i].rate <= m + spread) || !(b[i].rate > 0) {
        var key := b[i].voter;
        var claim := ClaimOf(claims', key);
        claims' := claims'[key := claim.(weight := claim.weight + b[i].power, winCount := claim.winCount + 1)];
      }
    }
    assert b[..|b|] == b;
  }

  /** The panic of the sortedness assertion is the only failure. */
  method TallyBallot(b: seq<Vote>, band: int, root: int -> nat, claims: map<string, Claim>)
    returns (r: Halting<int>, claims': map<string, Claim>)
    requires NonNegative(b)
    ensures !Sorted(b) ==> r == Err(BallotNotSorted)
    ensures Sorted(b) ==> r == Ok(Median(b))
    ensures Sorted(b) ==>
              claims' == Awarded(claims, b, Median(b), RewardSpread(b, Median(b), band, root))
  {
    claims' := claims;
    r := WeightedMedianWithAssertion(b);
    if r.Err? {
      return;
    }
    var m := r.value;
    MedianUnique(b, m, Median(b));
    var deviation := StandardDeviation(b, m, root);
    var spread := Dec.Mul(m, Dec.QuoInt(band, 2));
    if deviation > spread {
      spread := deviation;
    }
    claims' := AwardWinners(b, m, spread, claims);
  }

  // ---------- reference denom ----------

  ghost predicate IsPassing(b: seq<Vote>, threshold: int) {
    Power(b) != 0 && Power(b) >= threshold
  }

  method BallotIsPassing(b: seq<Vote>, threshold: int) returns (power: int, ok: bool)
    ensures power == Power(b) && (ok <==> IsPassing(b, threshold))
  {
    power := TotalPower(b);
    ok := power != 0 && power >= threshold;
  }

  ghost function PassingOf(targets: map<string, int>, ballots: map<string, seq<Vote>>, threshold: int): set<string> {
    set d | d in ballots && d in targets && IsPassing(ballots[d], threshold)
  }

  /** Greatest power first, alphabetical order among equals. */
  ghost predicate IsReference(d: string, among: set<string>, ballots: map<string, seq<Vote>>)
    requires among <= ballots.Keys
  {
    && d in among
    && forall e :: e in among && e != d ==>
         || Power(ballots[e]) < Power(ballots[d])
         || (Power(ballots[e]) == Power(ballots[d]) && LexLess(d, e))
  }

  lemma ReferenceUnique(d: string, e: string, among: set<string>, ballots: map<string, seq<Vote>>)
    requires among <= ballots.Keys && IsReference(d, among, ballots) && IsReference(e, among, ballots)
    ensures d == e
  {
    LexTotal(d, e);
  }

  /** Adding a denom moves the reference only if it has more power or comes first at equal power. */
  lemma ReferenceNext(ref: string, d: string, among: set<string>, ballots: map<string, seq<Vote>>)
    requires among + {d} <= ballots.Keys && d !in among && IsReference(ref, among, ballots)
    ensures var better := Power(ballots[d]) > Power(ballots[ref])
                          || (Power(ballots[d]) == Power(ballots[ref]) && LexLess(d, ref));
            IsReference(if better then d else ref, among + {d}, ballots)
  {
    LexTotal(d, ref);
    forall e | e in among && LexLess(d, ref) && LexLess(ref, e)
      ensures LexLess(d, e)
    {
      LexTransitive(d, ref, e);
    }
  }

  lemma {:induction false} ReferenceExists(among: set<string>, ballots: map<string, seq<Vote>>)
    requires among <= ballots.Keys && among != {}
    ensures exists d :: IsReference(d, among, ballots)
  {
    var d := Pick(among);
    var rest := among - {d};
    if rest == {} {
      assert among == {d};
      assert IsReference(d, among, ballots);
    } else {
      ReferenceExists(rest, ballots);
      var ref :| IsReference(ref, rest, ballots);
      ReferenceNext(ref, d, rest, ballots);
      assert rest + {d} == among;
    }
  }

  ghost predicate NonNegativeAll(ballots: map<string, seq<Vote>>) {
    forall d :: d in ballots ==> NonNegative(ballots[d])
  }

  /** The targets that survive: those not voted on, and those whose ballot passed. */
  ghost function SurvivingTargets(targets: map<string, int>, ballots: map<string, seq<Vote>>, threshold: int)
    : map<string, int>
  {
    map d | d in targets && (d in ballots ==> d in PassingOf(targets, ballots, threshold)) :: targets[d]
  }

  method PickReferenceTerra(targets: map<string, int>, ballots: map<string, seq<Vote>>, threshold: int,
                            order: seq<string>)
    returns (ref: string, targets': map<string, int>, ballots': map<string, seq<Vote>>)
    requires IsOrderOf(order, ballots.Keys) && NonNegativeAll(ballots)
    ensures var passing := PassingOf(targets, ballots, threshold);
            && ballots' == (map d | d in passing :: ballots[d])
            && targets' == SurvivingTargets(targets, ballots, threshold)
            && (passing == {} ==> ref == "")
            && (passing != {} ==> IsReference(ref, passing, ballots))
  {
    hide IsReference, Power, LexLess, NonNegative;
    ghost var passing, seen := PassingOf(targets, ballots, threshold), {};
    var largest := 0;
    ref, targets', ballots' := "", targets, ballots;
    for i := 0 to |order|
      invariant forall d :: d in seen <==> d in order[..i]
      invariant Dropped(ballots', ballots, seen - passing)
      invariant Dropped(targets', targets, seen - passing)
      invariant BestSoFar(ref, largest, seen * passing, ballots)
    {
      var denom := order[i];
      Fresh(order, i);
      ghost var before := seen;
      seen := seen + {denom};
      if denom !in targets' {
        SkipFailing(before, denom, passing);
        ballots' := ballots' - {denom};
      } else {
        var power, ok := BallotIsPassing(ballots'[denom], threshold);
        if ok {
          KeepPassing(before, denom, passing);
          BestNext(ref, largest, denom, before * passing, ballots);
          if power > largest || largest == 0 {
            ref, largest := denom, power;
          } else if largest == power && LexLess(denom, ref) {
            ref := denom;
          }
        } else {
          SkipFailing(before, denom, passing);
          targets' := targets' - {denom};
          ballots' := ballots' - {denom};
        }
      }
    }
    assert order[..|order|] == order;
    assert seen == ballots.Keys;
    assert seen * passing == passing;
  }

  ghost predicate Dropped<V>(m': map<string, V>, m: map<string, V>, gone: set<string>) {
    m' == m - gone
  }

  lemma Fresh(order: seq<string>, i: nat)
    requires i < |order| && Distinct(order)
    ensures order[i] in order && order[i] !in order[..i]
    ensures forall d :: d in order[..i + 1] <==> d in order[..i] || d == order[i]
  {
    assert order[..i + 1] == order[..i] + [order[i]];
  }

  lemma SkipFailing(seen: set<string>, d: string, passing: set<string>)
    requires d !in passing
    ensures (seen + {d}) * passing == seen * passing
    ensures (seen + {d}) - passing == (seen - passing) + {d}
  {
  }

  lemma KeepPassing(seen: set<string>, d: string, passing: set<string>)
    requires d in passing
    ensures (seen + {d}) * passing == seen * passing + {d}
    ensures (seen + {d}) - passing == seen - passing
  {
  }

  ghost predicate BestSoFar(ref: string, largest: int, among: set<string>, ballots: map<string, seq<Vote>>)
    requires among <= ballots.Keys
  {
    if among == {} then ref == "" && largest == 0
    else IsReference(ref, among, ballots) && largest == Power(ballots[ref]) && largest > 0
  }

  lemma BestNext(ref: string, largest: int, d: string, among: set<string>, ballots: map<string, seq<Vote>>)
    requires among + {d} <= ballots.Keys && d !in among && BestSoFar(ref, largest, among, ballots)
    requires NonNegative(ballots[d]) && Power(ballots[d]) != 0
    ensures var power := Power(ballots[d]);
            if power > largest || largest == 0 then BestSoFar(d, power, among + {d}, ballots)
            else if largest == power && LexLess(d, ref) then BestSoFar(d, largest, among + {d}, ballots)
            else BestSoFar(ref, largest, among + {d}, ballots)
  {
    SumByNonNegative(ballots[d], PowerOf());
    assert d in among + {d};
    if among != {} {
      ReferenceNext(ref, d, among, ballots);
    }
  }
}
