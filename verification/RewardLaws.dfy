/**
 * What a reward payout means (x/oracle/keeper/reward.go): every known winner gets its share of the period's
 * part of each reward balance, to within a coin and the rounding of the fixed-point code; what is
 * allocated is what leaves the pool.
 */
module RewardLaws {
  import opened Orders
  import opened Outcome
  import opened Denoms
  import opened Tally
  import opened Reward
  import Dec

  /** What a winner is allocated of a denom. */
  function Allocated(p: Payout, x: string, d: string): int {
    if x in p.allocations && d in p.allocations[x] then p.allocations[x][d] else 0
  }

  function Weight(winners: map<string, Claim>): string -> int {
    (x: string) => if x in winners then winners[x].weight else 0
  }

  ghost function TotalWeight(i: Input): int {
    SumSet(i.winners.Keys, Weight(i.winners))
  }

  /** uluna is always rewarded, and every vote target once more. */
  function Counted(i: Input, d: string): int {
    (if d == ULUNA then 1 else 0) + (if d in i.targets then 1 else 0)
  }

  function Held(i: Input, d: string): int {
    if d in i.pool then i.pool[d] else 0
  }

  lemma SameWeight(i: Input)
    ensures WeightSum(i) == TotalWeight(i)
  {
    SumSetEqual(i.winners.Keys, WeightOf(i.winners), Weight(i.winners));
  }

  // ---------- one winner ----------

  /** A truncated quotient, times its divisor, is at most one divisor short. */
  lemma Truncates(a: int, n: int)
    requires a >= 0 && n > 0
    ensures Dec.QuoInt(a, n) >= 0 && a - n <= Dec.QuoInt(a, n) * n <= a
  {
    Dec.DivBounds(a, n);
    Dec.DivAntitone(a, n, n);
  }

  /** Two factors that are each a little short make a product that is a little short. */
  lemma ShortProduct(a: int, a': int, da: int, b: int, b': int, db: int)
    requires 0 <= a' <= a && 0 <= b' <= b && a' >= a - da && b' >= b - db && da >= 0 && db >= 0
    ensures a' * b' <= a * b && a' * b' >= a * b - a * db - da * b
  {
    Dec.MulLe(a', a, b');
    Dec.MulLe2(a, b', b);
    Dec.MulLe(a - da, a', b');
    Dec.MulLe2(a, b - db, b');
    Dec.MulLe2(da, b', b);
    assert (a - da) * b' == a * b' - da * b';
    assert a * (b - db) == a * b - a * db;
  }

  lemma CoinsWithin(reward: int, share: int)
    requires reward >= 0 && share >= 0
    ensures 2 * Dec.ONE * Dec.ONE * Coins(reward, share) <= 2 * (reward * share) + Dec.ONE
    ensures 2 * Dec.ONE * Dec.ONE * Coins(reward, share) >= 2 * (reward * share) - Dec.ONE - 2 * Dec.ONE * Dec.ONE
  {
    hide Dec.Mul;
    Dec.MulBounds(reward, share);
    Dec.DivBounds(Dec.Mul(reward, share), Dec.ONE);
  }

  /** The exact pro-rata amount is `part * weight / (window * sum)` of the balance's listings. */
  lemma ScaledShare(held: int, part: int, window: int, weight: int, sum: int, ratio: int, share: int)
    requires held >= 0 && part >= 0 && window > 0 && 0 <= weight && sum > 0 && ratio >= 0 && share >= 0
    requires part * Dec.ONE - window <= ratio * window <= part * Dec.ONE
    requires weight * Dec.ONE - sum <= share * sum <= weight * Dec.ONE
    ensures var exact, got := held * (part * weight), (held * ratio) * share * (window * sum);
            && got <= exact * (Dec.ONE * Dec.ONE)
            && got >= exact * (Dec.ONE * Dec.ONE) - held * (part * sum + window * weight) * Dec.ONE
  {
    var a, b := ratio * window, share * sum;
    Dec.MulLe(0, ratio, window);
    Dec.MulLe(0, share, sum);
    ShortProduct(part * Dec.ONE, a, window, weight * Dec.ONE, b, sum);
    var low := part * Dec.ONE * (weight * Dec.ONE) - part * Dec.ONE * sum - window * (weight * Dec.ONE);
    Dec.MulLe2(held, a * b, part * Dec.ONE * (weight * Dec.ONE));
    Dec.MulLe2(held, low, a * b);
    Regroup(held, ratio, share, window, sum);
    ScaledHigh(held, part, weight);
    ScaledLow(held, part, window, weight, sum);
  }

  lemma Regroup(held: int, ratio: int, share: int, window: int, sum: int)
    ensures (held * ratio) * share * (window * sum) == held * ((ratio * window) * (share * sum))
  {
    var rs, ws := ratio * share, window * sum;
    assert (held * ratio) * share == held * rs;
    assert (ratio * window) * (share * sum) == rs * ws;
  }

  lemma ScaledHigh(held: int, part: int, weight: int)
    ensures held * (part * Dec.ONE * (weight * Dec.ONE)) == held * (part * weight) * (Dec.ONE * Dec.ONE)
  {
    assert part * Dec.ONE * (weight * Dec.ONE) == (part * weight) * (Dec.ONE * Dec.ONE);
  }

  lemma ScaledLow(held: int, part: int, window: int, weight: int, sum: int)
    ensures held * (part * Dec.ONE * (weight * Dec.ONE) - part * Dec.ONE * sum - window * (weight * Dec.ONE)) ==
            held * (part * weight) * (Dec.ONE * Dec.ONE) - held * (part * sum + window * weight) * Dec.ONE
  {
    var x, y := part * Dec.ONE * (weight * Dec.ONE), (part * sum + window * weight) * Dec.ONE;
    assert part * Dec.ONE * sum + window * (weight * Dec.ONE) == y;
    ScaledHigh(held, part, weight);
    assert held * (x - y) == held * x - held * y;
    assert held * y == held * (part * sum + window * weight) * Dec.ONE;
  }

  /** Dividing the fixed-point scale out of both bounds. */
  lemma Unscaled(coins: int, got: int, due: int, slack: int, unit: int)
    requires 2 * Dec.ONE * Dec.ONE * coins <= 2 * got + Dec.ONE * unit
    requires 2 * Dec.ONE * Dec.ONE * coins >= 2 * got - (Dec.ONE + 2 * Dec.ONE * Dec.ONE) * unit
    requires due * (Dec.ONE * Dec.ONE) - slack * Dec.ONE <= got <= due * (Dec.ONE * Dec.ONE) && unit >= 0
    ensures 2 * Dec.ONE * coins <= 2 * Dec.ONE * due + unit
    ensures Dec.ONE * coins >= Dec.ONE * due - slack - (Dec.ONE + 1) * unit
  {
  }

  lemma TimesUnit(coins: int, got: int, unit: int)
    requires unit >= 0 && 2 * Dec.ONE * Dec.ONE * coins <= 2 * got + Dec.ONE
    requires 2 * Dec.ONE * Dec.ONE * coins >= 2 * got - Dec.ONE - 2 * Dec.ONE * Dec.ONE
    ensures 2 * Dec.ONE * Dec.ONE * (coins * unit) <= 2 * (got * unit) + Dec.ONE * unit
    ensures 2 * Dec.ONE * Dec.ONE * (coins * unit) >= 2 * (got * unit) - (Dec.ONE + 2 * Dec.ONE * Dec.ONE) * unit
  {
    var all := 2 * Dec.ONE * Dec.ONE;
    Dec.MulLe(all * coins, 2 * got + Dec.ONE, unit);
    Dec.MulLe(2 * got - Dec.ONE - all, all * coins, unit);
    assert (all * coins) * unit == all * (coins * unit);
    assert (2 * got + Dec.ONE) * unit == 2 * (got * unit) + Dec.ONE * unit;
    assert (2 * got - Dec.ONE - all) * unit == 2 * (got * unit) - (Dec.ONE + all) * unit;
  }

  /** `coins` is within one coin, and the rounding of ratio, share and product, of `held * part * weight / unit`. */
  ghost predicate ProRata(coins: int, held: int, part: int, window: int, weight: int, sum: int) {
    var due, unit := held * (part * weight), window * sum;
    && 2 * Dec.ONE * (coins * unit) <= 2 * Dec.ONE * due + unit
    && Dec.ONE * (coins * unit) >= Dec.ONE * due - held * (part * sum + window * weight) - (Dec.ONE + 1) * unit
  }

  lemma Settled(held: int, part: int, window: int, weight: int, sum: int)
    requires held >= 0 && part >= 0 && window > 0 && weight >= 0 && sum > 0
    ensures ProRata(Coins(held * Ratio(part, window), Share(weight, sum)), held, part, window, weight, sum)
  {
    hide Coins;
    var ratio, share := Ratio(part, window), Share(weight, sum);
    Truncates(part * Dec.ONE, window);
    Truncates(weight * Dec.ONE, sum);
    ScaledShare(held, part, window, weight, sum, ratio, share);
    Dec.MulLe(0, held, ratio);
    CoinsWithin(held * ratio, share);
    Dec.MulLe2(window, 0, sum);
    var coins, unit, got := Coins(held * ratio, share), window * sum, held * ratio * share;
    TimesUnit(coins, got, unit);
    Unscaled(coins * unit, got * unit, held * (part * weight), held * (part * sum + window * weight), unit);
  }

  lemma PaidProRata(i: Input, x: string, d: string)
    requires Valid(i) && WeightSum(i) != 0 && x in i.winners
    ensures WeightSum(i) > 0 && Paid(i, x, d) >= 0
    ensures ProRata(Paid(i, x, d), Counted(i, d) * Held(i, d), i.votePeriod, i.window,
                    i.winners[x].weight, WeightSum(i))
  {
    hide Coins, Share, Ratio, PeriodPart, ProRata;
    var ratio, held := Ratio(i.votePeriod, i.window), Counted(i, d) * Held(i, d);
    GroupShares(i, {});
    PeriodPartExact(Held(i, d), ratio);
    assert Counted(i, d) * (Held(i, d) * ratio) == held * ratio;
    Settled(held, i.votePeriod, i.window, i.winners[x].weight, WeightSum(i));
    Truncates(i.votePeriod * Dec.ONE, i.window) by { assert i.votePeriod * Dec.ONE >= 0; }
    NonNegative(i, d, x);
  }

  lemma NonNegative(i: Input, d: string, x: string)
    requires Valid(i) && WeightSum(i) > 0 && x in i.winners
    ensures Paid(i, x, d) >= 0
  {
    hide Coins, PeriodPart;
    var ratio := Ratio(i.votePeriod, i.window);
    PeriodPartExact(Held(i, d), ratio);
    Truncates(i.votePeriod * Dec.ONE, i.window);
    Dec.MulLe(0, Held(i, d), ratio);
    Dec.MulLe(0, Counted(i, d), Held(i, d) * ratio);
    ShareBound(i.winners[x].weight, WeightSum(i));
    CoinsBound(PeriodReward(i, d), Share(i.winners[x].weight, WeightSum(i)));
  }

  /** Every winner whose validator is known is allocated what is paid for it, and nobody else anything. */
  lemma AllocatedIs(i: Input, x: string, d: string)
    requires i.window > 0 && WeightSum(i) != 0 && RewardOutcome(i).Ok?
    ensures Allocated(RewardOutcome(i).value, x, d) ==
            if x in Receivers(i) && d in RewardDenoms(i.targets) then Paid(i, x, d) else 0
  {
    hide Paid, WeightSum, Affordable;
    assert AllZero(CoinsOf(i, x)) ==> forall e :: e in RewardDenoms(i.targets) ==> CoinsOf(i, x)[e] == 0;
  }

  /**
   * A winner with weight `w` of a total `S` is allocated `Counted * Held * votePeriod * w / (window * S)` of a denom
   * to within one coin and the rounding; a winner whose validator is gone, and anybody else, gets nothing.
   */
  lemma RewardIsProRata(i: Input, x: string, d: string)
    requires Valid(i) && RewardOutcome(i).Ok?
    ensures var coins := Allocated(RewardOutcome(i).value, x, d);
            if x in i.winners && i.winners[x].recipient in i.known && TotalWeight(i) != 0 then
              && coins >= 0
              && ProRata(coins, Counted(i, d) * Held(i, d), i.votePeriod, i.window, i.winners[x].weight, TotalWeight(i))
            else
              coins == 0
  {
    hide Paid, ProRata, RewardOutcome;
    SameWeight(i);
    if WeightSum(i) != 0 {
      AllocatedIs(i, x, d);
      if x in Receivers(i) {
        PaidProRata(i, x, d);
        if d !in RewardDenoms(i.targets) {
          NothingHeld(i.votePeriod, i.window, i.winners[x].weight, TotalWeight(i));
        }
      }
    } else {
      NobodyPaid(i, x, d);
    }
  }

  lemma NobodyPaid(i: Input, x: string, d: string)
    requires i.window > 0 && WeightSum(i) == 0
    ensures RewardOutcome(i) == Ok(Payout(i.pool, map[])) && Allocated(RewardOutcome(i).value, x, d) == 0
  {
  }

  lemma NothingHeld(part: int, window: int, weight: int, sum: int)
    requires window > 0 && sum > 0
    ensures ProRata(0, 0, part, window, weight, sum)
  {
    Dec.MulLe2(window, 0, sum);
    assert 0 * (part * weight) == 0 && 0 * (part * sum + window * weight) == 0;
  }

  // ---------- all winners together ----------

  ghost function AllocatedOf(p: Payout, d: string): string -> int {
    (x: string) => Allocated(p, x, d)
  }

  /** What all winners together are allocated of a denom. */
  ghost function AllAllocated(p: Payout, d: string): int {
    SumSet(p.allocations.Keys, AllocatedOf(p, d))
  }

  lemma AllAllocatedIs(i: Input, d: string)
    requires i.window > 0 && WeightSum(i) != 0 && RewardOutcome(i).Ok? && d in RewardDenoms(i.targets)
    ensures AllAllocated(RewardOutcome(i).value, d) == TotalPaid(i, d)
  {
    hide Paid, WeightSum;
    var p := RewardOutcome(i).value;
    forall x ensures x in p.allocations ==> x in Receivers(i) {
    }
    forall x | x in Receivers(i)
      ensures PaidIn(i, d)(x) == if x in p.allocations.Keys then AllocatedOf(p, d)(x) else 0
    {
      AllocatedIs(i, x, d);
    }
    KnownSum(Receivers(i), p.allocations.Keys, AllocatedOf(p, d), PaidIn(i, d));
  }

  lemma PoolLeft(i: Input, d: string)
    requires i.window > 0 && WeightSum(i) != 0 && RewardOutcome(i).Ok?
    ensures Balance(RewardOutcome(i).value.pool, d) ==
            if d in i.pool then i.pool[d] - (if d in RewardDenoms(i.targets) then TotalPaid(i, d) else 0) else 0
  {
    hide TotalPaid, Allocations, WeightSum, Affordable;
  }

  /** In every denom, what stays in the account and what is allocated add up to what was there. */
  lemma RewardsConserve(i: Input, d: string)
    requires Valid(i) && RewardOutcome(i).Ok?
    ensures Balance(RewardOutcome(i).value.pool, d) + AllAllocated(RewardOutcome(i).value, d) == Held(i, d)
  {
    hide TotalPaid, Paid, RewardOutcome;
    var p := RewardOutcome(i).value;
    if WeightSum(i) == 0 {
      NobodyPaid(i, "", d);
    } else {
      PoolLeft(i, d);
      if d in RewardDenoms(i.targets) {
        AllAllocatedIs(i, d);
        if d !in i.pool {
          NothingToPay(i, d);
        }
      } else {
        forall x | x in p.allocations.Keys ensures AllocatedOf(p, d)(x) == 0 {
          AllocatedIs(i, x, d);
        }
        SumSetConstant(p.allocations.Keys, AllocatedOf(p, d), 0);
      }
    }
  }

  lemma NothingToPay(i: Input, d: string)
    requires Valid(i) && WeightSum(i) != 0 && Held(i, d) == 0
    ensures TotalPaid(i, d) == 0
  {
    hide Paid;
    forall x | x in Receivers(i) ensures PaidIn(i, d)(x) == 0 {
      PaidOfNothing(i, x, d);
    }
    SumSetConstant(Receivers(i), PaidIn(i, d), 0);
  }

  lemma PaidOfNothing(i: Input, x: string, d: string)
    requires Valid(i) && WeightSum(i) != 0 && Held(i, d) == 0 && x in i.winners
    ensures Paid(i, x, d) == 0
  {
    hide Share, Ratio;
    PeriodPartExact(0, Ratio(i.votePeriod, i.window));
    Dec.ChopExact(0);
  }

  /** The lower half of `ProRata` for a whole group of `n` winners. */
  ghost predicate AtLeast(coins: int, held: int, part: int, window: int, weight: int, sum: int, n: int) {
    var due, unit := held * (part * weight), window * sum;
    Dec.ONE * (coins * unit) >=
      Dec.ONE * due - held * (n * (part * sum) + window * weight) - n * ((Dec.ONE + 1) * unit)
  }

  lemma AtLeastOne(coins: int, held: int, part: int, window: int, weight: int, sum: int)
    requires ProRata(coins, held, part, window, weight, sum)
    ensures AtLeast(coins, held, part, window, weight, sum, 1)
  {
  }

  lemma AtLeastAdds(c: int, c': int, held: int, part: int, window: int, w: int, w': int, sum: int, n: int, n': int)
    requires AtLeast(c, held, part, window, w, sum, n) && AtLeast(c', held, part, window, w', sum, n')
    ensures AtLeast(c + c', held, part, window, w + w', sum, n + n')
  {
    var unit, each := window * sum, (Dec.ONE + 1) * (window * sum);
    assert (c + c') * unit == c * unit + c' * unit;
    assert (n + n') * each == n * each + n' * each;
    DueAdds(held, part, w, w');
    SlackAdds(held, part * sum, window, w, w', n, n');
  }

  lemma DueAdds(held: int, part: int, w: int, w': int)
    ensures held * (part * (w + w')) == held * (part * w) + held * (part * w')
  {
    assert part * (w + w') == part * w + part * w';
  }

  lemma SlackAdds(held: int, ps: int, window: int, w: int, w': int, n: int, n': int)
    ensures held * ((n + n') * ps + window * (w + w')) == held * (n * ps + window * w) + held * (n' * ps + window * w')
  {
    assert (n + n') * ps == n * ps + n' * ps;
    assert window * (w + w') == window * w + window * w';
    DueAdds(held, 1, n * ps + window * w, n' * ps + window * w');
  }

  lemma {:induction false} GroupAtLeast(i: Input, group: set<string>, d: string)
    requires Valid(i) && WeightSum(i) != 0 && group <= i.winners.Keys
    ensures AtLeast(SumSet(group, PaidIn(i, d)), Counted(i, d) * Held(i, d), i.votePeriod, i.window,
                    SumSet(group, Weight(i.winners)), WeightSum(i), |group|)
  {
    hide Paid, ProRata, AtLeast, Counted, Held;
    var held := Counted(i, d) * Held(i, d);
    if group == {} {
      AtLeastNone(held, i.votePeriod, i.window, WeightSum(i));
    } else {
      var x := Pick(group);
      GroupAtLeast(i, group - {x}, d);
      SumSetRemove(group, x, PaidIn(i, d));
      SumSetRemove(group, x, Weight(i.winners));
      PaidProRata(i, x, d);
      AtLeastOne(Paid(i, x, d), held, i.votePeriod, i.window, i.winners[x].weight, WeightSum(i));
      AtLeastAdds(Paid(i, x, d), SumSet(group - {x}, PaidIn(i, d)), held, i.votePeriod, i.window,
                  i.winners[x].weight, SumSet(group - {x}, Weight(i.winners)), WeightSum(i), 1, |group - {x}|);
      assert |group - {x}| == |group| - 1;
    }
  }

  lemma AtLeastNone(held: int, part: int, window: int, sum: int)
    ensures AtLeast(0, held, part, window, 0, sum, 0)
  {
    assert part * 0 == 0 && 0 * (part * sum) == 0 && window * 0 == 0 && 0 * (window * sum) == 0;
  }

  /** The weight sum divides out once the whole group is there. */
  lemma WholeGroup(coins: int, held: int, part: int, window: int, sum: int, n: int)
    requires sum > 0 && AtLeast(coins, held, part, window, sum, sum, n)
    ensures Dec.ONE * (coins * window) >= Dec.ONE * (held * part) - held * (n * part + window) -
                                          n * ((Dec.ONE + 1) * window)
  {
    var left := Dec.ONE * (coins * window);
    var right := Dec.ONE * (held * part) - held * (n * part + window) - n * ((Dec.ONE + 1) * window);
    assert Dec.ONE * (coins * (window * sum)) == left * sum by {
      assert coins * (window * sum) == (coins * window) * sum;
    }
    RightTimesSum(held, part, window, sum, n);
    if left < right {
      Dec.MulLe(left + 1, right, sum);
    }
  }

  lemma RightTimesSum(held: int, part: int, window: int, sum: int, n: int)
    ensures Dec.ONE * (held * (part * sum)) - held * (n * (part * sum) + window * sum) -
            n * ((Dec.ONE + 1) * (window * sum)) ==
            (Dec.ONE * (held * part) - held * (n * part + window) - n * ((Dec.ONE + 1) * window)) * sum
  {
    var a, b, c := held * part, held * (n * part + window), n * ((Dec.ONE + 1) * window);
    assert held * (part * sum) == a * sum;
    assert held * (n * (part * sum) + window * sum) == b * sum by {
      assert n * (part * sum) + window * sum == (n * part + window) * sum;
    }
    assert n * ((Dec.ONE + 1) * (window * sum)) == c * sum by {
      assert (Dec.ONE + 1) * (window * sum) == ((Dec.ONE + 1) * window) * sum;
    }
    assert (Dec.ONE * a - b - c) * sum == Dec.ONE * (a * sum) - b * sum - c * sum;
  }

  /**
   * If every winner's validator is known, the account gives away the period's part of each reward
   * balance but for one coin per winner and the rounding.
   */
  lemma RewardsGivenOut(i: Input, d: string)
    requires Valid(i) && RewardOutcome(i).Ok? && TotalWeight(i) != 0 && d in {ULUNA} + i.targets.Keys
    requires forall x :: x in i.winners ==> i.winners[x].recipient in i.known
    ensures var coins, held, n := AllAllocated(RewardOutcome(i).value, d), Counted(i, d) * Held(i, d), |i.winners|;
            Dec.ONE * (coins * i.window) >=
              Dec.ONE * (held * i.votePeriod) - held * (n * i.votePeriod + i.window) - n * ((Dec.ONE + 1) * i.window)
  {
    hide Paid, RewardOutcome, AtLeast, Counted, Held;
    SameWeight(i);
    AllAllocatedIs(i, d);
    assert Receivers(i) == i.winners.Keys;
    GroupShares(i, {});
    GroupAtLeast(i, i.winners.Keys, d);
    WholeGroup(TotalPaid(i, d), Counted(i, d) * Held(i, d), i.votePeriod, i.window, TotalWeight(i), |i.winners|);
  }
}
