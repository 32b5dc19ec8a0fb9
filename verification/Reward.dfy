/**
 * Distribution of the oracle account to ballot winners (x/oracle/keeper/reward.go), pro rata to the
 * weight of their claims, with the rounding of the fixed-point code.
 */
module Reward {
  import opened Orders
  import opened Outcome
  import opened Tally
  import opened Denoms
  import Dec

  datatype Input = Input(
    votePeriod: int,
    window: int,
    targets: map<string, int>,
    winners: map<string, Claim>,
    pool: map<string, int>,
    known: set<string>)

  datatype Payout = Payout(pool: map<string, int>, allocations: map<string, map<string, int>>)

  ghost predicate Valid(i: Input) {
    && i.votePeriod >= 0 && i.window > 0
    && (forall x :: x in i.winners ==> i.winners[x].weight >= 0)
    && (forall d :: d in i.pool ==> i.pool[d] >= 0)
  }

  // ---------- the order-free meaning ----------

  function Balance(pool: map<string, int>, d: string): int {
    if d in pool then pool[d] else 0
  }

  function RewardDenoms(targets: map<string, int>): set<string> {
    {ULUNA} + targets.Keys
  }

  /** How often a denom is listed: uluna comes first, then every vote target. */
  function Listings(targets: map<string, int>, d: string): int {
    (if d == ULUNA then 1 else 0) + (if d in targets then 1 else 0)
  }

  function Ratio(votePeriod: int, window: int): int
    requires window > 0
  {
    Dec.QuoInt(votePeriod * Dec.ONE, window)
  }

  function PeriodPart(amount: int, ratio: int): int {
    Dec.Mul(amount * Dec.ONE, ratio)
  }

  function PeriodReward(i: Input, d: string): int
    requires i.window > 0
  {
    Listings(i.targets, d) * PeriodPart(Balance(i.pool, d), Ratio(i.votePeriod, i.window))
  }

  function WeightOf(winners: map<string, Claim>): string -> int {
    (x: string) => if x in winners then winners[x].weight else 0
  }

  ghost function WeightSum(i: Input): int {
    SumSet(i.winners.Keys, WeightOf(i.winners))
  }

  function Share(weight: int, sum: int): int
    requires sum != 0
  {
    Dec.QuoInt(weight * Dec.ONE, sum)
  }

  /** Whole coins of one denom for one winner. */
  function Coins(periodReward: int, share: int): int {
    Dec.TruncateInt(Dec.Mul(periodReward, share))
  }

  ghost function Paid(i: Input, x: string, d: string): int
    requires i.window > 0 && WeightSum(i) != 0
  {
    Coins(PeriodReward(i, d), Share(WeightOf(i.winners)(x), WeightSum(i)))
  }

  /** Winners whose validator still exists. */
  ghost function Receivers(i: Input): set<string> {
    set x | x in i.winners && i.winners[x].recipient in i.known
  }

  ghost function PaidIn(i: Input, d: string): string -> int
    requires i.window > 0 && WeightSum(i) != 0
  {
    (x: string) => Paid(i, x, d)
  }

  ghost function TotalPaid(i: Input, d: string): int
    requires i.window > 0 && WeightSum(i) != 0
  {
    SumSet(Receivers(i), PaidIn(i, d))
  }

  ghost predicate Affordable(i: Input)
    requires i.window > 0 && WeightSum(i) != 0
  {
    forall d :: d in RewardDenoms(i.targets) ==> TotalPaid(i, d) <= Balance(i.pool, d)
  }

  ghost function RewardOutcome(i: Input): Halting<Payout>
    requires i.window > 0
  {
    if WeightSum(i) == 0 then Ok(Payout(i.pool, map[]))
    else if !Affordable(i) then Err(InsufficientRewards)
    else Ok(Payout(
      map d | d in i.pool :: i.pool[d] - (if d in RewardDenoms(i.targets) then TotalPaid(i, d) else 0),
      Allocations(i, i.winners.Keys)))
  }

  ghost function CoinsOf(i: Input, x: string): map<string, int>
    requires i.window > 0 && WeightSum(i) != 0
  {
    map d | d in RewardDenoms(i.targets) :: Paid(i, x, d)
  }

  /** What the winners in `done` are allocated; a winner without coins gets no entry. */
  ghost function Allocations(i: Input, done: set<string>): map<string, map<string, int>>
    requires i.window > 0 && WeightSum(i) != 0
  {
    map x | x in done && x in Receivers(i) && !AllZero(CoinsOf(i, x)) :: CoinsOf(i, x)
  }

  predicate AllZero(coins: map<string, int>) {
    forall d :: d in coins ==> coins[d] == 0
  }

  // ---------- what is paid never exceeds what is there ----------

  lemma PeriodPartExact(amount: int, ratio: int)
    ensures PeriodPart(amount, ratio) == amount * ratio
  {
    assert amount * Dec.ONE * ratio == (amount * ratio) * Dec.ONE;
    Dec.ChopExact(amount * ratio);
  }

  lemma CoinsBound(reward: int, share: int)
    requires reward >= 0 && share >= 0
    ensures Coins(reward, share) >= 0
    ensures 2 * Dec.ONE * Dec.ONE * Coins(reward, share) <= 2 * reward * share + Dec.ONE
  {
    hide Dec.Mul;
    Dec.MulBounds(reward, share);
    Dec.DivBounds(Dec.Mul(reward, share), Dec.ONE);
  }

  lemma ShareBound(weight: int, sum: int)
    requires weight >= 0 && sum > 0
    ensures 0 <= Share(weight, sum) && Share(weight, sum) * sum <= weight * Dec.ONE
  {
    Dec.DivBounds(weight * Dec.ONE, sum);
    Dec.DivAntitone(weight * Dec.ONE, sum, sum);
  }

  /** The sum of truncated shares of any group is at most one. */
  lemma {:induction false} SharesBound(group: set<string>, winners: map<string, Claim>, sum: int, share: string -> int)
    requires sum > 0 && group <= winners.Keys && forall x :: x in winners ==> winners[x].weight >= 0
    requires forall x :: x in group ==> share(x) == Share(winners[x].weight, sum)
    ensures 0 <= SumSet(group, share)
    ensures SumSet(group, share) * sum <= Dec.ONE * SumSet(group, WeightOf(winners))
  {
    hide Share;
    if group != {} {
      var x := Pick(group);
      SharesBound(group - {x}, winners, sum, share);
      SumSetRemove(group, x, share);
      SumSetRemove(group, x, WeightOf(winners));
      ShareBound(winners[x].weight, sum);
      assert (share(x) + SumSet(group - {x}, share)) * sum == share(x) * sum + SumSet(group - {x}, share) * sum;
    }
  }

  lemma {:induction false} CoinsSum(group: set<string>, reward: int, share: string -> int, paid: string -> int)
    requires reward >= 0
    requires forall x :: x in group ==> share(x) >= 0 && paid(x) == Coins(reward, share(x))
    ensures 0 <= SumSet(group, paid)
    ensures 2 * Dec.ONE * Dec.ONE * SumSet(group, paid) <= 2 * reward * SumSet(group, share) + |group| * Dec.ONE
  {
    hide Coins;
    if group != {} {
      var x := Pick(group);
      CoinsSum(group - {x}, reward, share, paid);
      SumSetRemove(group, x, share);
      SumSetRemove(group, x, paid);
      CoinsBound(reward, share(x));
      assert |group - {x}| == |group| - 1;
      assert 2 * reward * (share(x) + SumSet(group - {x}, share)) ==
          2 * reward * share(x) + 2 * reward * SumSet(group - {x}, share);
    }
  }

  function ShareIn(i: Input, sum: int): string -> int
    requires sum != 0
  {
    (x: string) => Share(WeightOf(i.winners)(x), sum)
  }

  lemma GroupShares(i: Input, group: set<string>)
    requires Valid(i) && WeightSum(i) != 0 && group <= i.winners.Keys
    ensures WeightSum(i) > 0 && 0 <= SumSet(group, ShareIn(i, WeightSum(i))) <= Dec.ONE
  {
    hide Share;
    var sum := WeightSum(i);
    var shares := SumSet(group, ShareIn(i, sum));
    SumSetSubset(group, i.winners.Keys, WeightOf(i.winners));
    SharesBound(group, i.winners, sum, ShareIn(i, sum));
    if shares > Dec.ONE {
      Dec.MulLe(Dec.ONE + 1, shares, sum);
    }
  }

  /**
   * In each denom the whole payout fits the account, although every share is rounded half to even
   * before it is truncated, as long as a denom is not paid out more than once over.
   */
  lemma PayoutFits(i: Input, d: string)
    requires Valid(i) && WeightSum(i) != 0 && |i.winners| < 2 * Dec.ONE
    requires Listings(i.targets, d) * Ratio(i.votePeriod, i.window) <= Dec.ONE
    ensures 0 <= TotalPaid(i, d) <= Balance(i.pool, d)
  {
    hide Share, Coins, PeriodPart, Ratio, Listings;
    var sum, group, reward := WeightSum(i), Receivers(i), PeriodReward(i, d);
    var shares, balance := SumSet(group, ShareIn(i, sum)), Balance(i.pool, d);
    GroupShares(i, group);
    forall x | x in group ensures ShareIn(i, sum)(x) >= 0 {
      ShareBound(i.winners[x].weight, sum);
    }
    RewardBound(i, d);
    CoinsSum(group, reward, ShareIn(i, sum), PaidIn(i, d));
    ReceiverCount(i);
    Dec.MulLe2(reward, shares, Dec.ONE);
    Settle(TotalPaid(i, d), balance, reward, shares, |group|);
  }

  lemma RewardBound(i: Input, d: string)
    requires Valid(i) && Listings(i.targets, d) * Ratio(i.votePeriod, i.window) <= Dec.ONE
    ensures 0 <= PeriodReward(i, d) <= Balance(i.pool, d) * Dec.ONE
  {
    var times, ratio, balance := Listings(i.targets, d), Ratio(i.votePeriod, i.window), Balance(i.pool, d);
    PeriodPartExact(balance, ratio);
    Dec.DivAntitone(i.votePeriod * Dec.ONE, i.window, i.window);
    ProductBound(times, balance, ratio);
  }

  lemma ProductBound(times: int, balance: int, ratio: int)
    requires times >= 0 && balance >= 0 && ratio >= 0 && times * ratio <= Dec.ONE
    ensures 0 <= times * (balance * ratio) <= balance * Dec.ONE
  {
    assert times * (balance * ratio) == (times * ratio) * balance;
    Dec.MulLe(times * ratio, Dec.ONE, balance);
    Dec.MulLe2(times, 0, ratio);
    Dec.MulLe(0, times * ratio, balance);
  }

  lemma ReceiverCount(i: Input)
    ensures |Receivers(i)| <= |i.winners|
  {
    SumSetSubset(Receivers(i), i.winners.Keys, x => 1);
    SumSetConstant(Receivers(i), x => 1, 1);
    SumSetConstant(i.winners.Keys, x => 1, 1);
  }

  lemma Settle(paid: int, balance: int, reward: int, shares: int, n: int)
    requires reward * shares <= reward * Dec.ONE && reward <= balance * Dec.ONE && n < 2 * Dec.ONE
    requires 2 * Dec.ONE * Dec.ONE * paid <= 2 * reward * shares + n * Dec.ONE
    ensures paid <= balance
  {
    assert 2 * reward * shares == 2 * (reward * shares);
  }

  /** With vote period at most the window and uluna not a target, the transfer cannot fail. */
  lemma RewardsNeverFail(i: Input)
    requires Valid(i) && |i.winners| < 2 * Dec.ONE
    requires i.votePeriod <= i.window && ULUNA !in i.targets
    ensures RewardOutcome(i).Ok?
  {
    hide Ratio, RewardOutcome;
    var ratio := Ratio(i.votePeriod, i.window);
    RatioAtMostOne(i.votePeriod, i.window);
    forall d | d in RewardDenoms(i.targets) ensures Listings(i.targets, d) * ratio <= Dec.ONE {
      assert Listings(i.targets, d) == 1;
    }
    RewardsFit(i);
  }

  lemma RatioAtMostOne(votePeriod: int, window: int)
    requires 0 <= votePeriod <= window && window > 0
    ensures 0 <= Ratio(votePeriod, window) <= Dec.ONE
  {
    Dec.DivMonotone(votePeriod * Dec.ONE, window * Dec.ONE, window);
    Dec.DivAntitone(votePeriod * Dec.ONE, window, window);
    assert window * Dec.ONE == Dec.ONE * window;
    Dec.DivExact(Dec.ONE, window);
  }

  /** No denom is listed for more than its whole balance per period. */
  ghost predicate SafeSchedule(votePeriod: int, window: int, targets: map<string, int>)
    requires window > 0
  {
    forall d :: d in RewardDenoms(targets) ==> Listings(targets, d) * Ratio(votePeriod, window) <= Dec.ONE
  }

  lemma RewardsFit(i: Input)
    requires Valid(i) && |i.winners| < 2 * Dec.ONE && SafeSchedule(i.votePeriod, i.window, i.targets)
    ensures RewardOutcome(i).Ok?
  {
    hide TotalPaid, Listings, Ratio;
    if WeightSum(i) != 0 {
      forall d | d in RewardDenoms(i.targets)
        ensures TotalPaid(i, d) <= Balance(i.pool, d)
      {
        PayoutFits(i, d);
      }
    }
  }

  /** One sole winner of an account of 10^18 coins is promised more than there is. */
  ghost function Overdraft(votePeriod: int, window: int, targets: map<string, int>, d: string): Input {
    Input(votePeriod, window, targets, map["val" := Claim(1, 1, 1, "val")], map[d := Dec.ONE], {"val"})
  }

  lemma OverdraftFails(votePeriod: int, window: int, targets: map<string, int>, d: string)
    requires votePeriod >= 0 && window > 0 && d in RewardDenoms(targets)
    requires Listings(targets, d) * Ratio(votePeriod, window) > Dec.ONE
    ensures Valid(Overdraft(votePeriod, window, targets, d))
    ensures RewardOutcome(Overdraft(votePeriod, window, targets, d)) == Err(InsufficientRewards)
  {
    hide Ratio, Listings, PeriodPart, Share, Coins;
    var i := Overdraft(votePeriod, window, targets, d);
    SoleWinner(i);
    assert Receivers(i) == {"val"};
    SumSetRemove({"val"}, "val", PaidIn(i, d));
    assert {"val"} - {"val"} == {};
    var times, ratio := Listings(targets, d), Ratio(votePeriod, window);
    PeriodPartExact(Dec.ONE, ratio);
    assert PeriodReward(i, d) == (times * ratio) * Dec.ONE by {
      assert times * (Dec.ONE * ratio) == (times * ratio) * Dec.ONE;
    }
    WholeCoins(times * ratio);
    assert TotalPaid(i, d) == times * ratio;
  }

  lemma SoleWinner(i: Input)
    requires i.winners == map["val" := Claim(1, 1, 1, "val")]
    ensures WeightSum(i) == 1 && Share(1, 1) == Dec.ONE
  {
    assert i.winners.Keys == {"val"};
    SumSetRemove({"val"}, "val", WeightOf(i.winners));
    assert {"val"} - {"val"} == {};
  }

  lemma WholeCoins(k: int)
    requires k >= 0
    ensures Coins(k * Dec.ONE, Dec.ONE) == k
  {
    Dec.ChopExact(k * Dec.ONE);
    Dec.DivExact(k, Dec.ONE);
  }

  /**
   * The exact condition on the parameters: the transfer succeeds for every account, every set of
   * winners and every claim weight if and only if the schedule is safe. A window shorter than the
   * vote period, or uluna as a vote target with a ratio above one half, is not.
   */
  lemma RewardsSafeIff(votePeriod: int, window: int, targets: map<string, int>)
    requires votePeriod >= 0 && window > 0
    ensures SafeSchedule(votePeriod, window, targets) <==>
            forall i: Input :: Valid(i) && |i.winners| < 2 * Dec.ONE &&
                               i.votePeriod == votePeriod && i.window == window && i.targets == targets ==>
              RewardOutcome(i).Ok?
  {
    hide RewardOutcome, Listings, Ratio;
    if SafeSchedule(votePeriod, window, targets) {
      forall i: Input | Valid(i) && |i.winners| < 2 * Dec.ONE &&
                        i.votePeriod == votePeriod && i.window == window && i.targets == targets
        ensures RewardOutcome(i).Ok?
      {
        RewardsFit(i);
      }
    } else {
      var d :| d in RewardDenoms(targets) && Listings(targets, d) * Ratio(votePeriod, window) > Dec.ONE;
      OverdraftFails(votePeriod, window, targets, d);
      var i := Overdraft(votePeriod, window, targets, d);
      assert |i.winners| == 1;
      assert !RewardOutcome(i).Ok?;
    }
  }

  // ---------- the loops compute it for every order ----------

  method SumWeights(winners: map<string, Claim>, order: seq<string>) returns (sum: int)
    requires IsOrderOf(order, winners.Keys)
    ensures sum == SumSet(winners.Keys, WeightOf(winners))
  {
    sum := 0;
    for j := 0 to |order|
      invariant sum == SumBy(order[..j], WeightOf(winners))
    {
      assert order[j] in order;
      SumByTake(order, j, WeightOf(winners));
      sum := sum + winners[order[j]].weight;
    }
    assert order[..|order|] == order;
    SumOfOrder(order, winners.Keys, WeightOf(winners));
  }

  /** What the listings of a denom contribute, one part each. */
  function Accrued(d: string, denoms: seq<string>, part: int): int {
    if denoms == [] then 0
    else Accrued(d, denoms[..|denoms| - 1], part) + (if denoms[|denoms| - 1] == d then part else 0)
  }

  lemma {:induction false} AccruedOnce(d: string, denoms: seq<string>, part: int)
    requires Distinct(denoms)
    ensures Accrued(d, [ULUNA] + denoms, part) == (if d == ULUNA then part else 0) + (if d in denoms then part else 0)
  {
    var all := [ULUNA] + denoms;
    var n := |denoms|;
    if n == 0 {
      assert all[..0] == [];
    } else {
      assert all[..n] == [ULUNA] + denoms[..n - 1];
      AccruedOnce(d, denoms[..n - 1], part);
      assert denoms == denoms[..n - 1] + [denoms[n - 1]];
    }
  }

  ghost predicate AccruedUpTo(i: Input, denoms: seq<string>, ratio: int, rewards: map<string, int>) {
    && rewards.Keys == RewardDenoms(i.targets)
    && forall d :: d in rewards ==> rewards[d] == Accrued(d, denoms, PeriodPart(Balance(i.pool, d), ratio))
  }

  lemma AccruedNone(i: Input, ratio: int, rewards: map<string, int>)
    requires rewards == map d | d in RewardDenoms(i.targets) :: 0
    ensures AccruedUpTo(i, [], ratio, rewards)
  {
  }

  lemma AccruedNext(i: Input, denoms: seq<string>, j: nat, ratio: int, rewards: map<string, int>)
    requires j < |denoms| && denoms[j] in rewards && AccruedUpTo(i, denoms[..j], ratio, rewards)
    ensures var amount := Balance(i.pool, denoms[j]);
            AccruedUpTo(i, denoms[..j + 1], ratio,
                        if amount != 0 then rewards[denoms[j] := rewards[denoms[j]] +
                            PeriodPart(amount, ratio)] else rewards)
  {
    hide PeriodPart;
    assert denoms[..j + 1][..j] == denoms[..j];
    PeriodPartExact(Balance(i.pool, denoms[j]), ratio);
  }

  /** Lists uluna and the targets, adding up what each listing contributes. */
  method PeriodRewards(i: Input, order: seq<string>, ratio: int) returns (rewards: map<string, int>)
    requires Valid(i) && ratio == Ratio(i.votePeriod, i.window) && IsOrderOf(order, i.targets.Keys)
    ensures rewards.Keys == RewardDenoms(i.targets)
    ensures forall d :: d in rewards ==> rewards[d] == PeriodReward(i, d)
  {
    hide PeriodPart, Ratio, PeriodReward, Accrued, Balance;
    var denoms := [ULUNA] + order;
    assert forall d :: d in denoms <==> d in RewardDenoms(i.targets);
    rewards := map d | d in RewardDenoms(i.targets) :: 0;
    AccruedNone(i, ratio, rewards);
    for j := 0 to |denoms|
      invariant AccruedUpTo(i, denoms[..j], ratio, rewards)
    {
      var denom := denoms[j];
      assert denom in denoms;
      AccruedNext(i, denoms, j, ratio, rewards);
      var amount := Balance(i.pool, denom);
      if amount != 0 {
        rewards := rewards[denom := rewards[denom] + PeriodPart(amount, ratio)];
      }
    }
    assert denoms[..|denoms|] == denoms;
    forall d | d in rewards ensures rewards[d] == PeriodReward(i, d) {
      AccruedTotal(i, order, d);
    }
  }

  lemma AccruedTotal(i: Input, order: seq<string>, d: string)
    requires i.window > 0 && IsOrderOf(order, i.targets.Keys)
    ensures Accrued(d, [ULUNA] + order, PeriodPart(Balance(i.pool, d), Ratio(i.votePeriod, i.window))) ==
        PeriodReward(i, d)
  {
    hide PeriodPart, Ratio, Accrued;
    AccruedOnce(d, order, PeriodPart(Balance(i.pool, d), Ratio(i.votePeriod, i.window)));
  }

  ghost function PaidIfKnown(i: Input, d: string): string -> int
    requires i.window > 0 && WeightSum(i) != 0
  {
    (x: string) => if x in Receivers(i) then Paid(i, x, d) else 0
  }

  lemma {:induction false} KnownSum(s: set<string>, keep: set<string>, f: string -> int, g: string -> int)
    requires keep <= s && forall x :: x in s ==> g(x) == if x in keep then f(x) else 0
    ensures SumSet(s, g) == SumSet(keep, f)
  {
    if s != {} {
      var x := Pick(s);
      SumSetRemove(s, x, g);
      if x in keep {
        SumSetRemove(keep, x, f);
      }
      assert keep - {x} <= s - {x};
      KnownSum(s - {x}, keep - {x}, f, g);
      if x !in keep {
        assert keep - {x} == keep;
      }
    }
  }

  lemma TotalOfOrder(i: Input, order: seq<string>, d: string)
    requires i.window > 0 && WeightSum(i) != 0 && IsOrderOf(order, i.winners.Keys)
    ensures SumBy(order, PaidIfKnown(i, d)) == TotalPaid(i, d)
  {
    hide Paid;
    SumOfOrder(order, i.winners.Keys, PaidIfKnown(i, d));
    KnownSum(i.winners.Keys, Receivers(i), PaidIn(i, d), PaidIfKnown(i, d));
  }

  function AddCoins(a: map<string, int>, b: map<string, int>): map<string, int> {
    map d | d in a :: a[d] + Balance(b, d)
  }

  lemma CoinsForWinner(i: Input, x: string, rewards: map<string, int>, share: int)
    requires i.window > 0 && WeightSum(i) != 0 && x in i.winners
    requires rewards.Keys == RewardDenoms(i.targets) && forall d :: d in rewards ==> rewards[d] == PeriodReward(i, d)
    requires share == Share(i.winners[x].weight, WeightSum(i))
    ensures (map d | d in rewards :: Coins(rewards[d], share)) == CoinsOf(i, x)
  {
    hide Coins, Share, PeriodReward, WeightSum;
  }

  ghost predicate Running(i: Input, prefix: seq<string>, distributed: map<string, int>)
    requires i.window > 0 && WeightSum(i) != 0
  {
    && distributed.Keys == RewardDenoms(i.targets)
    && forall d :: d in distributed ==> distributed[d] == SumBy(prefix, PaidIfKnown(i, d))
  }

  lemma RunningNext(i: Input, order: seq<string>, j: nat, distributed: map<string, int>)
    requires i.window > 0 && WeightSum(i) != 0 && j < |order|
    requires order[j] in i.winners && Running(i, order[..j], distributed)
    ensures var coins := CoinsOf(i, order[j]);
            Running(i, order[..j + 1],
                    if order[j] in Receivers(i) && !AllZero(coins) then AddCoins(distributed, coins) else distributed)
  {
    hide Paid, WeightSum;
    var x := order[j];
    var coins := CoinsOf(i, x);
    forall d | d in distributed
      ensures SumBy(order[..j + 1], PaidIfKnown(i, d)) ==
              distributed[d] + (if x in Receivers(i) then coins[d] else 0)
    {
      SumByTake(order, j, PaidIfKnown(i, d));
    }
  }

  lemma AllocationsNext(i: Input, done: set<string>, x: string)
    requires i.window > 0 && WeightSum(i) != 0 && x !in done
    ensures Allocations(i, done + {x}) ==
            if x in Receivers(i) && !AllZero(CoinsOf(i, x)) then Allocations(i, done)[x := CoinsOf(i, x)]
            else Allocations(i, done)
  {
    hide CoinsOf, WeightSum;
  }

  /** One pass over the winners: what each receives and the running total per denom. */
  method DoleOut(i: Input, sum: int, rewards: map<string, int>, order: seq<string>)
    returns (distributed: map<string, int>, allocations: map<string, map<string, int>>)
    requires Valid(i) && sum == WeightSum(i) && sum != 0 && IsOrderOf(order, i.winners.Keys)
    requires rewards.Keys == RewardDenoms(i.targets) && forall d :: d in rewards ==> rewards[d] == PeriodReward(i, d)
    ensures distributed.Keys == RewardDenoms(i.targets)
    ensures forall d :: d in distributed ==> distributed[d] == TotalPaid(i, d)
    ensures allocations == Allocations(i, i.winners.Keys)
  {
    hide CoinsOf, Coins, Share, PeriodReward, WeightSum, Allocations, AllZero, TotalPaid, PaidIfKnown;
    distributed := map d | d in RewardDenoms(i.targets) :: 0;
    allocations := map[];
    ghost var done: set<string> := {};
    NoAllocations(i);
    for j := 0 to |order|
      invariant forall x :: x in done <==> x in order[..j]
      invariant Running(i, order[..j], distributed)
      invariant allocations == Allocations(i, done)
    {
      var x := order[j];
      Fresh(order, j);
      var share := Share(i.winners[x].weight, sum);
      var coins := map d | d in rewards :: Coins(rewards[d], share);
      CoinsForWinner(i, x, rewards, share);
      RunningNext(i, order, j, distributed);
      AllocationsNext(i, done, x);
      if i.winners[x].recipient in i.known && !AllZero(coins) {
        allocations := allocations[x := coins];
        distributed := AddCoins(distributed, coins);
      }
      done := done + {x};
    }
    assert order[..|order|] == order;
    assert done == i.winners.Keys;
    forall d | d in distributed ensures distributed[d] == TotalPaid(i, d) {
      TotalOfOrder(i, order, d);
    }
  }

  lemma NoAllocations(i: Input)
    requires i.window > 0 && WeightSum(i) != 0
    ensures Allocations(i, {}) == map[]
  {
  }

  /** The order of targets and of winners, visited twice, does not change any amount. */
  method RewardBallotWinners(i: Input, denomOrder: seq<string>, sumOrder: seq<string>, payOrder: seq<string>)
    returns (out: Halting<Payout>)
    requires Valid(i)
    requires IsOrderOf(denomOrder, i.targets.Keys)
    requires IsOrderOf(sumOrder, i.winners.Keys) && IsOrderOf(payOrder, i.winners.Keys)
    ensures out == RewardOutcome(i)
  {
    hide TotalPaid, PeriodReward, Allocations, IsOrderOf;
    var sum := SumWeights(i.winners, sumOrder);
    if sum == 0 {
      return Ok(Payout(i.pool, map[]));
    }
    var ratio := Ratio(i.votePeriod, i.window);
    var rewards := PeriodRewards(i, denomOrder, ratio);
    var distributed, allocations := DoleOut(i, sum, rewards, payOrder);
    if exists d :: d in distributed && distributed[d] > Balance(i.pool, d) {
      assert !Affordable(i);
      return Err(InsufficientRewards);
    }
    assert Affordable(i);
    var left := map d | d in i.pool :: i.pool[d] - Balance(distributed, d);
    assert left == map d | d in i.pool :: i.pool[d] - (if d in RewardDenoms(i.targets) then TotalPaid(i, d) else 0);
    out := Ok(Payout(left, allocations));
  }
}
