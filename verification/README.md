# A Dafny model of the Terra oracle, market and genesis exporter

The model covers four parts of the repository.

- **The oracle** (`x/oracle`). Validators commit to exchange rates with a hash in one vote period and reveal them in
  the next. At the end of a period the revealed votes are sorted into ballots, a reference denom is chosen, every
  ballot is turned into cross rates, weighted medians become exchange rates, winners are credited, misses counted,
  rewards paid, ballots cleared, the whitelist applied and, at the end of a slash window, validators slashed.
- **The market** (`x/market`). Swaps are priced against two virtual pools, the pool delta is moved, coins are burned,
  minted and sent, and the delta decays every block.
- **The wire format** of the swap query (`x/market/types/query.pb.go`): generated writer and parser.
- **The exporter** (`app/export`): balance snapshots, their merge and blacklists, the fixed chain of liquid staking
  resolvers, and the worker pool that reads aperture positions.

Code that changes fields or loops is modelled by classes and methods (`OracleKeeper.Keeper`, `MarketKeeper.Keeper`,
`SnapshotMap.SnapshotMap`, the codec over a byte array), each proved against a specification function; the laws are
then lemmas about those functions. Go ranges over maps in an arbitrary order, so every such loop takes an arbitrary
order and its contract names a result that does not depend on it.

`sdk.Dec` values are integers scaled by 10^18 with the rounding of the SDK (`Dec.dfy`). Hashing, parsing of rates,
the square root of the standard deviation and the contract queries are parameters. Staking data and module parameters
enter with every block.

The specification functions are tied to what they are for by laws on raw inputs that do not name them: stored rates
follow the prices of validators (`RateLaws`), wins follow band and deviation (`WinLaws`), payouts are pro rata
(`RewardLaws`), swaps pay what the constant product gives (`PriceLaws`), every exported LUNA is traced to its source
(`LunaLaws`), messages are accepted exactly from whoever may send them (`CommitReveal`), a period stores and pays exactly
what it should (`PeriodLaws`), and the parser refuses all that is ill-formed (`WireLaws`).

## What the proofs found

- A period's end halts the chain, by a division by zero, exactly when for some passing ballot other than the reference
  somebody voted without a usable quotient, and quotients that round to zero have half of the power shared with the
  reference, rounded down (`HaltsExactlyWhen`). A run from empty stores ends that way (`SplitRunHalts`). For a given
  validator set and threshold no votes with comparable prices can do it, in any run, if and only if any two quorums
  share power of at least two, or are everybody (`QuorumSafeInRunsIff`).
- With a safe reward schedule and a slash window of at least one period, an end of block panics in exactly two more
  ways, overflow and panics inside other modules aside (`EndBlockHaltsIff`): a whitelist update has a name of one letter without bank
  metadata, which the parameter check allows (`ShortRunHalts`), or a window closes on a validator that staking no longer
  knows and that missed too much (`GoneRunHalts`). With a shorter slash window, which the parameter checks allow too,
  the slash check can divide by zero (`SlashDividesIff`).
- Reward payouts always fit the reward pool if and only if no denom is listed so often that its period share exceeds
  the pool: a vote target named `uluna` is counted twice (`RewardsSafeIff`, `OverdraftFails`).
- A miss counter exceeds the number of vote periods per slash window in some run if and only if the vote period does
  not divide the slash window (`NeverWrapsIff`). The excess is at most one, and the wrap-around of the unsigned
  subtraction is undone by the cast, so the verdict is still exact (`WrapIsHarmless`, `SlashVerdict`).
- After a period the vote targets are exactly the whitelist, unless some target failed while the others already were
  the whitelist (`TargetLaws.ExactlyWhitelistIff`). A run from empty stores keeps a target that left the whitelist
  (`StaleTarget`). A whitelist that repeats a name, which the parameter check allows, makes the test for changes inexact
  (`UpdateRequiredIff`).
- In exact arithmetic the Terra pool never empties (`ExactPool.After`). With 18 digits some swap
  empties a pool at its base level, however large that is, if and only if the minimum spread is below one
  (`PoolSafeIff`), and a tiny one can go below zero (`PoolCanGoNegative`).
- `x/market/keeper/keeper.go:89` says that replenishing cannot make the delta zero. It does if and only if the recovery
  period is one block (`VanishesIff`, `DecaysToZeroIff`).
- Lido reward maps are computed and then dropped (`app/export/lido/lido.go:159-204`); the stage leaves only its
  blacklist and the divisions it can fail on. Without nil balances the whole chain of resolvers succeeds if and only if
  the bond total is not zero and no held token has a supply of zero (`ResolveAll`).
- The aperture workers cannot get stuck if and only if the open items fit the result channel (`StuckIff`). Their
  schedule can change the snapshot if and only if some holder has both a set and an unset balance among its first open
  positions, as many as there are workers (`ScheduleFreeIff`); two positions are enough (`MixedPoolDiffers`).

## Model

| member | source | states |
|---|---|---|
| Ballot.SortBallot | x/oracle/types/ballot.go:165-178 | The sorted ballot is ordered by rate and is a permutation of the votes |
| Ballot.TotalPower | x/oracle/types/ballot.go:88-95 | Adds up the power of all votes |
| Ballot.WeightedMedianWithAssertion | x/oracle/types/ballot.go:117-135 | Panics exactly on an unsorted ballot; otherwise returns the weighted median, defined without reference to the order of the votes |
| Ballot.MedianUnique | x/oracle/types/ballot.go:117-135 | A ballot has at most one weighted median |
| Ballot.MedianExists | x/oracle/types/ballot.go:117-135 | Every ballot of non-negative powers has a weighted median |
| Ballot.MedianPermutation | x/oracle/types/ballot.go:117-135 | The median does not depend on the order of the votes |
| Ballot.MedianIsLeast | x/oracle/types/ballot.go:117-135 | No lower rate gathers half of the power |
| Ballot.MedianHasPower | x/oracle/types/ballot.go:117-135 | Some vote with positive power carries the median rate |
| Ballot.MedianSplitsPower | x/oracle/types/ballot.go:117-135 | Less than half of the power lies below the median and at most half, rounded up, above it |
| Ballot.MedianIgnoresAbstain | x/oracle/types/ballot.go:117-135 | Adding any number of votes without power leaves the median unchanged |
| Ballot.ToMap | x/oracle/types/ballot.go:37-46 | Collects the positive rates by voter |
| Ballot.RateMapPermutation | x/oracle/types/ballot.go:37-46 | With one vote per voter the map does not depend on the order of the votes |
| Ballot.ToCrossRateWithSort | x/oracle/types/ballot.go:68-85 | The result is sorted and a permutation of the cross votes: quotient and power where the voter priced both, zero otherwise |
| Ballot.CrossKeepsShape | x/oracle/types/ballot.go:68-85 | Cross ballots keep one vote per voter and non-negative powers |
| Tally.StandardDeviation | x/oracle/types/ballot.go:138-162 | Zero for an empty ballot, otherwise the root of the mean squared distance from the median |
| Tally.AwardWinners | x/oracle/tally.go:23-42 | The loop credits exactly the votes within the spread around the median, and abstentions |
| Tally.AwardedAt | x/oracle/tally.go:23-42 | Every claim gains the sum of its winning power and the number of its wins, whatever the order of the votes |
| Tally.TallyBallot | x/oracle/tally.go:14-45 | Median, spread and awards of one ballot; panics exactly on an unsorted one |
| Tally.BallotIsPassing | x/oracle/tally.go:48-51 | Returns the power and whether it is not zero and reaches the threshold |
| Tally.PickReferenceTerra | x/oracle/tally.go:56-93 | For every iteration order: the passing ballot of greatest power, smallest name on a tie; failing ballots and targets without a passing ballot are removed, exactly those |
| Tally.ReferenceUnique | x/oracle/tally.go:56-93 | The choice is independent of the iteration order: at most one denom qualifies |
| Tally.ReferenceExists | x/oracle/tally.go:56-93 | Whenever a ballot passes there is a reference |
| Orders.LexLessIff | x/oracle/tally.go:84-88 | One name comes before another exactly if it is a proper prefix of it or smaller where they first differ |
| VoteRound.TallyDenom | x/oracle/abci.go:78-91 | One iteration takes the claims after the denoms done so far to the claims after one more |
| VoteRound.OriginalForm | x/oracle/abci.go:93-96 | Division by the median panics exactly for a zero median of a non-reference denom |
| VoteRound.TallyLoop | x/oracle/abci.go:75-100 | For every iteration order the loop ends with the same rates and claims, or halts exactly when some denom has a zero median |
| VoteRound.TallyVotes | x/oracle/abci.go:60-101 | The whole round equals an outcome defined without any order |
| RoundLaws.OutcomeIgnoresBallotOrder | x/oracle/abci.go:60-101 | Permuting the votes inside ballots changes neither rates, claims, targets nor a halt |
| RoundLaws.ClaimsStayBounded | x/oracle/tally.go:23-42 | A validator wins at most as often as there are surviving targets and gains at most its power per win; powers and recipients are unchanged |
| RoundLaws.SomebodyWins | x/oracle/tally.go:23-42 | A cross ballot with power always rewards some validator |
| RateLaws.RatedDenoms | x/oracle/abci.go:65-100 | Exactly the passing ballots give a rate, and the reference gets the median of its own votes |
| RateLaws.RateTimesMedian | x/oracle/abci.go:93-96 | The stored rate of a denom times its cross median is the stored rate of the reference, within one cross median |
| RateLaws.RateFollowsPrices | x/oracle/abci.go:78-96 | With shared power of two, some validator priced both, and the two stored rates are in the ratio of its two prices, within the rounding of two quotients |
| RateLaws.UnanimousMedian | x/oracle/types/ballot.go:117-135 | If all who name a price name the same, it is the median |
| RateLaws.UnanimousRates | x/oracle/abci.go:60-101 | If everybody names the same two prices, these are the stored rates, the reference exactly and the other up to rounding |
| WinLaws.CloseIff | x/oracle/tally.go:23-36 | A vote wins exactly if it abstains or is no further from the median than half the band of it or than the deviation of the ballot |
| WinLaws.WinnersAre | x/oracle/tally.go:14-45 | A round adds to every claim one win per denom won and the validator's power per denom won and priced, and nothing else |
| WinLaws.NobodyWins | x/oracle/abci.go:60-101 | Without a passing ballot there are no rates and no claim changes |
| Quorum.CrossPower | x/oracle/types/ballot.go:68-85 | The power of a cross ballot is the power of the validators that priced both denoms |
| Quorum.CrossKeepsQuorum | x/oracle/types/ballot.go:68-85 | Two passing ballots share at least twice the threshold less the total power |
| Quorum.CrossMedianIsPriced | x/oracle/types/ballot.go:68-85 | A cross median with power is the quotient of two rates of one voter |
| Quorum.NegligibleIff | x/oracle/types/ballot.go:68-85 | A cross rate rounds to zero exactly for a stated ratio of the two prices |
| Quorum.VanishingPower | x/oracle/types/ballot.go:68-85 | The power of cross votes at zero is the power of the validators whose quotients vanish |
| Quorum.ZeroCrossMedianIff | x/oracle/types/ballot.go:117-135 | The median after crossing is zero if and only if the votes before crossing make the denom unpriceable |
| Quorum.HaltsExactlyWhen | x/oracle/abci.go:91-96 | The round panics if and only if a passing non-reference ballot is unpriceable, a condition on the votes before crossing |
| Quorum.DisjointPricersHalt | x/oracle/abci.go:91-96 | A passing ballot priced by nobody who priced the reference halts the chain |
| Quorum.QuorumPreventsHalt | x/oracle/abci.go:91-96 | In one round, a threshold that forces shared power of two rules a halt out; QuorumSafeIff has the exact condition |
| QuorumSafety.UnpriceableIff | x/oracle/types/ballot.go:68-85 | With comparable prices a denom is unpriceable exactly if shared power is at most one and somebody is left out |
| QuorumSafety.QuorumSafeIff | x/oracle/abci.go:60-101 | For a validator set and threshold no stored votes with comparable prices halt the round if and only if any two quorums share power of two or are everybody |
| QuorumRuns.SplitIsReachable | x/oracle/keeper/msg_server.go:23-129 | Any split of prices of two denoms among validators is reached by a run from empty stores |
| QuorumRuns.QuorumSafeInRunsIff | x/oracle/abci.go:60-101 | The same over runs: no period that ends with this block divides by zero in any run with comparable prices if and only if the quorums are safe |
| QuorumSafety.LargeQuorumsAreSafe | x/oracle/abci.go:60-101 | Thresholds above half of the power by one unit meet that condition |
| Reward.SumWeights | x/oracle/keeper/reward.go:38-42 | Adds the weights of all winners, in any order |
| Reward.PeriodRewards | x/oracle/keeper/reward.go:49-65 | For every order of the targets each reward denom accrues its share of the pool, once per listing |
| Reward.DoleOut | x/oracle/keeper/reward.go:67-80 | For every order of the winners the allocations are each winner's share and the running total is their sum |
| Reward.RewardBallotWinners | x/oracle/keeper/reward.go:15-88 | The payout or the panic is independent of all three iteration orders |
| Reward.PayoutFits | x/oracle/keeper/reward.go:67-86 | The payouts of a denom never exceed its pool balance, although each product with a share is rounded half to even before it is truncated |
| Reward.RewardsNeverFail | x/oracle/keeper/reward.go:82-86 | With a vote period no longer than the window and no target named uluna the transfer never fails |
| Reward.OverdraftFails | x/oracle/keeper/reward.go:82-86 | A denom listed too often overdraws a concrete pool |
| Reward.RewardsSafeIff | x/oracle/keeper/reward.go:15-88 | Payouts succeed on every pool and set of winners if and only if the schedule is safe |
| RewardLaws.RewardIsProRata | x/oracle/keeper/reward.go:49-80 | A known winner is allocated balance times listings times vote period times weight over window times weight sum, within one coin and stated rounding on both sides; everybody else nothing |
| RewardLaws.RewardsConserve | x/oracle/keeper/reward.go:67-86 | In every denom what is allocated and what is left add up to what the account held |
| RewardLaws.RewardsGivenOut | x/oracle/keeper/reward.go:49-86 | If all winners are known the account gives away the period's part of each balance but for a coin per winner and stated rounding |
| Organize.InCollected | x/oracle/keeper/ballot.go:19-45 | A ballot has a vote exactly for each tuple of a validator with a claim, without power if the rate is not positive |
| Organize.CollectedIsProper | x/oracle/keeper/ballot.go:19-47 | Ballots have one vote per voter, voters with claims, powers between zero and the claim |
| Organize.AppendVotes | x/oracle/keeper/ballot.go:24-40 | Appends the tuples of one vote to the ballots of their denoms, in order |
| Organize.OrganizeBallotByDenom | x/oracle/keeper/ballot.go:15-56 | Every ballot is sorted and a permutation of the collected votes; a denom has a ballot exactly if somebody with a claim voted on it |
| Whitelist.UpdateRequiredIff | x/oracle/keeper/ballot.go:79-91 | The two tests detect exactly the targets that differ from the whitelist if and only if the names of the whitelist are distinct |
| Whitelist.WhitelistedAreTargets | x/oracle/keeper/ballot.go:92-118 | Applying a whitelist to any targets within the stored taxes makes every listed denom a target, repeated names included |
| TargetLaws.WhitelistedAreTargets | x/oracle/abci.go:128-129 | At the end of every period every whitelisted denom is a target with its tax |
| Whitelist.ExactlyWhitelistIff | x/oracle/keeper/ballot.go:77-118 | With distinct names the targets become exactly the whitelist if and only if an update was due or no target was lost in the tally |
| TargetLaws.ExactlyWhitelistIff | x/oracle/abci.go:128-129 | At the end of a period the targets are the whitelist if and only if not both some target's ballot failed and the others already were the whitelist |
| TargetLaws.StaleTarget | x/oracle/keeper/ballot.go:79-91 | A concrete run after which a denom that left the whitelist is still a target |
| Whitelist.RepeatedNamesUpdate | x/oracle/keeper/ballot.go:79-97 | With a repeated name, surviving targets within the whitelist are rewritten to exactly the whitelist |
| Whitelist.LastTaxCounts | x/oracle/keeper/ballot.go:93-97 | Of a name that is listed more than once the last tax is stored |
| Slash.PeriodsPerWindowIs | x/oracle/keeper/slash.go:12-17 | Decimal division and truncation give the integer quotient |
| Slash.WrapIsHarmless | x/oracle/keeper/slash.go:25-27 | The unsigned subtraction and signed cast give the true difference even when the counter exceeds the periods by one |
| Slash.VerdictIsExact | x/oracle/keeper/slash.go:24-30 | The truncated decimal comparison agrees with the exact rational one |
| OracleStore.RoundIsProper | x/oracle/abci.go:21-58 | The round built from a valid store has well formed ballots and fresh claims |
| OracleKeeper.Keeper.constructor | x/oracle/keeper/keeper.go:35-60 | A new keeper has no votes, prevotes, rates, delegations or misses |
| OracleKeeper.Keeper.ValidateFeeder | x/oracle/keeper/keeper.go:352-366 | Rejects a feeder that is neither the validator nor its delegate, and a validator that is not bonded |
| OracleKeeper.Keeper.AggregateExchangeRatePrevote | x/oracle/keeper/msg_server.go:23-62 | Stores the hash with the current block, replacing an earlier one, or changes nothing |
| OracleKeeper.Keeper.AggregateExchangeRateVote | x/oracle/keeper/msg_server.go:64-129 | Accepts exactly a reveal one period after its prevote whose denoms are targets and whose hash matches, consuming the prevote; otherwise changes nothing |
| OracleKeeper.Keeper.DelegateFeedConsent | x/oracle/keeper/msg_server.go:131-166 | Replaces the feeder of a known validator, or changes nothing |
| OracleKeeper.Keeper.BuildClaims | x/oracle/abci.go:30-40 | One empty claim for each of the first bonded validators, up to the maximum |
| OracleKeeper.Keeper.CountMissing | x/oracle/abci.go:105-114 | For every order one miss is added to exactly the validators below the number of targets |
| OracleKeeper.Keeper.ClearBallots | x/oracle/keeper/ballot.go:59-74 | Drops all votes and exactly the prevotes older than a vote period |
| OracleKeeper.Keeper.IsUpdateRequired | x/oracle/keeper/ballot.go:79-91 | Tells whether the whitelist differs from the targets |
| OracleKeeper.Keeper.SetTarget | x/oracle/keeper/ballot.go:95-115 | Sets one tax and registers metadata, or panics exactly for a new name of at most one letter |
| OracleKeeper.Keeper.SetTargets | x/oracle/keeper/ballot.go:93-116 | Rewrites all taxes and registers all names, or panics exactly if some listed name is new and too short |
| OracleKeeper.Keeper.ApplyWhitelist | x/oracle/keeper/ballot.go:77-118 | When an update is due, rewrites taxes and metadata to the whitelist, or panics on a new name too short for metadata |
| OracleKeeper.Keeper.SlashAndResetMissCounters | x/oracle/keeper/slash.go:8-49 | For every order slashes exactly the active validators below the threshold and clears all counters; panics on an unknown one below it, or on any counter if the window has no period |
| OracleKeeper.Keeper.TallyStored | x/oracle/abci.go:42-101 | Organizing and tallying the stored votes equals the order-free outcome of the stored round |
| OracleKeeper.Keeper.Settle | x/oracle/abci.go:103-129 | Misses, rewards, clearing and whitelist take a tallied store to the specified one, or panic when specified |
| OracleKeeper.Keeper.TallyPeriod | x/oracle/abci.go:19-130 | The end of a vote period takes the store to the specified one, or panics exactly when specified |
| OracleKeeper.Keeper.EndBlocker | x/oracle/abci.go:15-139 | The end of a block, for all iteration orders, equals one order-free transition |
| OracleKeeper.PeriodKeepsValid | x/oracle/abci.go:19-130 | The end of a period keeps the store valid: pools non-negative, no unnamed target, one rate per denom in each vote |
| PeriodLaws.ClaimsAre | x/oracle/abci.go:30-40 | Exactly the first bonded validators, as many as the maximum, have a claim, with their power and nothing won |
| PeriodLaws.BallotsAre | x/oracle/keeper/ballot.go:15-56 | The ballots of a period hold exactly one vote per stored rate of a validator with a claim, with its power if the rate is positive and none otherwise |
| PeriodLaws.ThresholdIs | x/oracle/tally.go:60-62 | The votes needed are the threshold's share of the bonded power, to the nearest vote |
| PeriodLaws.ReferenceLeads | x/oracle/tally.go:75-90 | No ballot that counts has more power than the reference, and one of equal power has a later name |
| PeriodLaws.RatesAndTargets | x/oracle/tally.go:64-83 | A denom gets a rate exactly if it is a target and its ballot has power and reaches the threshold, and is dropped from the targets exactly if it was voted on without |
| PeriodLaws.PeriodStores | x/oracle/abci.go:47-101 | A period replaces all rates by those of its round, clears the votes and leaves feeders and height alone |
| PeriodLaws.PeriodPays | x/oracle/abci.go:116-123 | A period pays every known claim pro rata to the weight won in its round, out of uluna and the surviving targets, and nobody else |
| PeriodLaws.PeriodConserves | x/oracle/abci.go:116-123 | What a period pays and what it leaves in the account add up to what was there |
| PeriodLaws.PrevoteKeptIff | x/oracle/keeper/ballot.go:59-67 | A commitment outlives the end of a period exactly if at most a vote period of blocks has passed since it was made |
| PeriodLaws.WhitelistApplied | x/oracle/keeper/ballot.go:77-118 | If an update is due the targets become the listed names with their last taxes, all with metadata; otherwise nothing changes |
| PeriodLaws.WhitelistPanicsIff | x/oracle/keeper/ballot.go:100-113 | After a tally and payout that succeed, a period panics exactly if an update is due and lists a name of less than two letters without metadata |
| PeriodLaws.QuietBlock | x/oracle/abci.go:19-136 | Inside a period an end of block changes nothing but, when a window closes, the miss counters |
| PeriodLaws.LoudBlock | x/oracle/abci.go:19-136 | At the end of a period it does what the period does and, when a window closes, clears the counters |
| OracleRuns.StoresStayValid | x/oracle/abci.go:15-139 | Every store of every run is valid |
| OracleRuns.EndBlockFrame | x/oracle/abci.go:125-130 | An end of block changes votes and prevotes only at the last block of a period, and only by clearing |
| OracleRuns.FeederIs | x/oracle/keeper/msg_server.go:131-166 | On every reachable store the delegate of a validator is the one it last named, or had at the start, or itself |
| OracleRuns.FeederErrorIff | x/oracle/keeper/keeper.go:352-366 | In every run the feeder check passes exactly for a bonded validator and a message sent by it or by the delegate it last named |
| OracleRuns.AcceptedIsAuthorized | x/oracle/keeper/keeper.go:352-366 | Every accepted commitment or reveal is for a bonded validator and was sent by it or by the delegate it last named |
| OracleRuns.PrevoteOrigin | x/oracle/keeper/msg_server.go:23-62 | Every stored prevote is the last commitment accepted for its validator, sent with authority at its submit block |
| OracleRuns.PrevoteAge | x/oracle/keeper/ballot.go:59-67 | A stored prevote was made at most two periods before the current one, and never in the future |
| OracleRuns.LagIsOne | x/oracle/keeper/msg_server.go:88-91 | On every reachable store the unsigned period test is equivalent to being in the period after the prevote |
| OracleRuns.VoteOrigin | x/oracle/keeper/msg_server.go:64-129 | Every stored vote was committed in one period and revealed in the next, with a matching hash and nothing accepted in between, both with authority |
| OracleRuns.RevealConsumes | x/oracle/keeper/msg_server.go:111-113 | For the rest of the period after a reveal, any prevote of that validator is a new one of the same period |
| OracleRuns.RevealsOncePerPeriod | x/oracle/keeper/msg_server.go:64-129 | No validator reveals twice in one vote period, in any run |
| CommitReveal.CommitIsAcceptedIff | x/oracle/keeper/msg_server.go:23-62 | In every run a commitment is accepted if and only if it is authorized and its hash decodes |
| CommitReveal.DelegateIsAcceptedIff | x/oracle/keeper/msg_server.go:131-166 | In every run a delegation is accepted if and only if staking knows the validator |
| CommitReveal.RevealIsAcceptedIff | x/oracle/keeper/msg_server.go:64-129 | In every run a reveal is accepted if and only if it is authorized, parses, names targets only, and hashes to the last commitment for the validator, made in the period before |
| CommitReveal.RevealSurvives | x/oracle/keeper/msg_server.go:111-113 | What was revealed stays unchanged to the end of the period |
| CommitReveal.StoredVotesIff | x/oracle/keeper/msg_server.go:64-129 | The votes a tally meets are exactly the reveals accepted in its period |
| OracleRuns.CommitmentSurvives | x/oracle/keeper/ballot.go:59-66 | An untouched commitment is still there, unchanged, through the whole period in which it may be revealed |
| OracleRuns.ClearedIsUnrevealable | x/oracle/keeper/ballot.go:59-66 | Clearing removes only prevotes that no later block could accept |
| OracleRuns.KeptWhileRevealable | x/oracle/keeper/ballot.go:59-66 | A prevote that may be revealed in the next block is kept |
| OracleRuns.VotesAreOnTargets | x/oracle/keeper/msg_server.go:98-103 | In every run every stored vote is on a current target |
| OracleRuns.BallotsAreOnTargets | x/oracle/keeper/ballot.go:15-56 | In every run every ballot is on a vote target |
| MissCounters.MissExactlyWhenBelow | x/oracle/abci.go:105-114 | A period adds one miss exactly to the validators with a claim that did not win every surviving target |
| MissCounters.MissBound | x/oracle/abci.go:105-136 | In every run a counter is at most the number of periods that ended since its window began |
| MissCounters.CheckBound | x/oracle/keeper/slash.go:22-27 | When a window closes a counter exceeds the periods per window by at most one, and by none if the period divides the window |
| MissCounters.SlashVerdict | x/oracle/keeper/slash.go:24-30 | In every run a validator is below the threshold exactly when its exact share of valid periods is |
| MissCounters.SlashedExactly | x/oracle/keeper/slash.go:22-48 | In every run an end of block slashes exactly the bonded and unjailed validators with a counter that leaves their exact share of valid periods below the minimum, and only when a window closes |
| MissCounters.SilentOverflow | x/oracle/keeper/slash.go:25-27 | If the period does not divide the window, a validator that never votes exceeds the periods per window in a concrete run |
| MissCounters.SlashDividesIff | x/oracle/keeper/slash.go:24-27 | Some run makes the slash check divide by zero if and only if the window is shorter than a vote period |
| MissCounters.NeverWrapsIff | x/oracle/keeper/slash.go:12-27 | No run makes the unsigned subtraction wrap if and only if the vote period divides the slash window |
| Halt.FaultsAfterTally | x/oracle/abci.go:15-139 | On every reachable store the faults of an end of block, with the missing validator stated on the counters as the check reads them |
| Halt.EndBlockHaltsIff | x/oracle/abci.go:15-139 | On every reachable store, with a safe reward schedule, a window of at least a period and no overflow of decimals: division by zero exactly if a period ends on split votes, a short name exactly if it ends on a due update with one, a missing validator exactly if a window closes on an unknown one whose stored counter is too high, and no other panic of the oracle's own code |
| Halt.ShortRunHalts | x/oracle/keeper/ballot.go:100-113 | A run halts at the end of a period whose whitelist has a new name of one letter |
| Halt.GoneRunHalts | x/oracle/keeper/slash.go:29-32 | A run halts when a window closes on a validator that left after missing a period |
| Halt.SplitRunHalts | x/oracle/abci.go:91-96 | A run of two validators, from empty stores, halts at the end of its second period |
| Swap.LunaPoolCovers | x/market/keeper/swap.go:99-120 | The Luna pool rounds so that adding to it never prices out more than the Terra pool |
| Swap.SpreadWithinBounds | x/market/keeper/swap.go:96-132 | With a positive pool the spread is defined, at least the minimum and at most one |
| Swap.PricedIsPositive | x/market/keeper/swap.go:52-69 | A swap that is priced has a positive price and a positive base amount |
| Swap.NetIsNonNegative | x/market/keeper/swap.go:52-132 | With a positive pool the fee is between zero and the price, so what is paid is not negative |
| PriceLaws.ConversionIsWorth | x/market/keeper/swap.go:137-158 | A conversion gives the amount times the ask rate over the offer rate, within stated rounding on both sides; uluna has rate one |
| PriceLaws.ConversionSucceeds | x/market/keeper/swap.go:137-158 | It succeeds for any amount whose worth is above the rounding, between denoms with a rate |
| PriceLaws.SpreadIsCharged | x/market/keeper/swap.go:96-132 | In both directions the spread is at least the minimum and at least what the constant product keeps of the offer, and if above the minimum no more than that, within stated rounding |
| PriceLaws.DueIsShare | x/market/keeper/swap.go:99-120 | In both directions what the constant product gives is to the ask pool as the offer is to the offer pool with the offer in it, and the Luna pool is the square of the base pool over the Terra pool, within stated rounding and without any division |
| PriceLaws.GrossIsWorth | x/market/keeper/swap.go:59-69 | Before the spread a swap is worth its offer at the oracle rates, through usdr |
| PriceLaws.NetIs | x/market/keeper/msg_server.go:71-80 | What is left after a spread is the amount times one less the spread, to half a unit of the last digit |
| PriceLaws.LunaSwapPaysDue | x/market/keeper/swap.go:96-132 | In both directions a swap with uluna pays at most the ask pool less the constant product over the offer pool with the offer in it, as a part of the offer, and no less unless the minimum is charged |
| PriceLaws.TerraSwapPaysHigherTax | x/market/keeper/swap.go:71-94 | Between Terra denoms the spread is the higher of the two taxes, and exactly that part of the amount is kept |
| PriceLaws.SwapIsPricedIff | x/market/keeper/swap.go:52-132 | A swap is priced exactly if the denoms differ, both conversions succeed, and its taxes are known or its pools can be divided by |
| PriceLaws.DeltaMovesByValue | x/market/keeper/swap.go:15-46 | Terra offered raises the delta by its worth in usdr, Terra paid lowers it by its worth, and nothing else moves it |
| PriceLaws.BlockTakesPart | x/market/keeper/keeper.go:82-93 | A block takes the part of the delta given by the recovery period, less at most one unit of the last digit, with its sign |
| PriceLaws.CoinsOfSwap | x/market/keeper/msg_server.go:101-134 | Receiver and oracle account get the whole coins of the net and of the gross amount |
| PriceLaws.QuoteIs | x/market/keeper/swap.go:161-185 | A quote of more than 100 bits is refused; any other is the whole coins of what is left after the spread, if that is priced and not negative |
| Pool.PoolFloor | x/market/keeper/swap.go:15-46 | A swap of LUNA into SDR leaves the Terra pool within rounding of the level the constant product asks for |
| Pool.PoolFloorInto | x/market/keeper/swap.go:15-46 | A swap of LUNA into any other denom does so too, within the rounding of the conversion there and back |
| Pool.PoolStaysPositive | x/market/keeper/swap.go:15-46 | A single swap keeps the pool positive when that level exceeds the rounding; PoolSafeIff has the exact condition on the parameters |
| PoolSafety.PoolIsEmptied | x/market/keeper/swap.go:15-46 | For every base pool and every minimum spread below one, a swap at rate one takes exactly the whole pool |
| PoolSafety.PoolSafeIff | x/market/keeper/swap.go:15-132 | Every swap of any denoms, at all rates and from every positive pool, leaves the pool positive if and only if the minimum spread is one |
| Pool.PoolCanGoNegative | x/market/keeper/swap.go:15-46 | A concrete swap takes a tiny pool even below zero |
| Pool.ReplenishShrinks | x/market/keeper/keeper.go:82-93 | Replenishing never changes the sign of the delta nor enlarges it, shrinks it when it is at least the period, and never makes it zero for periods of two or more |
| Pool.VanishesIff | x/market/keeper/keeper.go:88-90 | A delta vanishes in one block if and only if the recovery period is one |
| Pool.DecaysToZeroIff | x/market/keeper/keeper.go:88-90 | And after any positive number of blocks if and only if it is one |
| Pool.DecayBound | x/market/keeper/keeper.go:82-93 | Over any number of blocks the delta decays geometrically up to a constant |
| Pool.DecayKeepsSign | x/market/keeper/keeper.go:82-93 | Over any number of blocks the delta keeps its sign and never grows |
| ExactPool.LunaSwapIsPositive | x/market/keeper/swap.go:15-132 | In exact arithmetic a swap of LUNA keeps the Terra pool positive, whatever the amount and the rates |
| ExactPool.NextIsPositive | x/market/keeper/swap.go:15-132 | So does every swap and every replenishment |
| ExactPool.After | x/market/keeper/swap.go:15-46 | After every sequence of swaps and blocks the Terra pool is positive |
| Bank.SendMoves | x/market/keeper/msg_server.go:88-93 | A transfer moves an amount between two accounts and changes no other balance and no supply |
| Bank.BurnDestroys | x/market/keeper/msg_server.go:95-99 | A burn lowers one balance and the supply by the same amount |
| Bank.MintCreates | x/market/keeper/msg_server.go:114-118 | A mint raises one balance and the supply by the same amount |
| MarketKeeper.Keeper.constructor | x/market/keeper/keeper.go:62-72 | A new keeper has a zero delta |
| MarketKeeper.Keeper.ReplenishPools | x/market/keeper/keeper.go:82-93 | Changes only the delta, by one step of decay |
| MarketKeeper.Keeper.ApplySwapToPool | x/market/keeper/swap.go:15-46 | Moves the delta by the base value of what enters or leaves the Terra side, or leaves it alone on an error |
| MarketKeeper.Keeper.TakeOffer | x/market/keeper/msg_server.go:88-99 | Takes the offer from the trader and the supply exactly when the balance suffices |
| MarketKeeper.Keeper.PayOut | x/market/keeper/msg_server.go:114-134 | Mints coin and fee, pays the receiver and the oracle account, and leaves every other balance alone |
| MarketKeeper.Keeper.HandleSwapRequest | x/market/keeper/msg_server.go:61-155 | On success the whole bank is accounted for: offer gone from trader and supply, price split into coin and fee, delta moved; on failure the error is the first that applies, in the order of the handler, with a negative coin found only after the offer was burned |
| MarketKeeper.Keeper.DeliverSwap | x/market/keeper/msg_server.go:25-33 | A swap either happens as a whole or leaves delta and bank untouched; supply equals the sum of balances throughout |
| MarketKeeper.OfferTaken | x/market/keeper/msg_server.go:88-99 | Sending to the module and burning there is taking from the trader and the supply |
| MarketKeeper.CoinsPaidOut | x/market/keeper/msg_server.go:114-134 | Minting, paying and charging compose to two credits and a larger supply |
| MarketKeeper.WholeCoins | x/market/keeper/msg_server.go:101-114 | Coin and fee add up to the price rounded down: truncation loses nothing but the last fraction |
| MarketKeeper.QuoteAgrees | x/market/keeper/swap.go:161-185 | The quote, which skips fees that round to nothing, equals the coin the handler pays; under the limit it exists exactly if the swap is priced and what is left is not negative |
| MarketKeeper.QuoteIsExecutedIff | x/market/keeper/msg_server.go:61-155 | Under the limit a swap succeeds exactly if it is quoted, the pool can be updated, the trader has the funds and the coin is not a forbidden zero |
| Wire.SovIsLength | x/market/types/query.pb.go:748-750 | The bit-length formula is the number of bytes of the varint, for all values |
| Wire.VarintRoundTrip | x/market/types/query.pb.go:669-679 | Reading a written varint, with any bytes after it, gives the value and its length |
| SwapQuery.SkipsField | x/market/types/query.pb.go:1217-1294 | Skipping consumes exactly one record of any wire type, groups nested to any depth included |
| SwapQuery.ParsesRecords | x/market/types/query.pb.go:754-867 | Any sequence of well formed records parses to the last value of each known field, ignoring the unknown ones |
| SwapQuery.RoundTrip | x/market/types/query.pb.go:487-522 | A marshalled request followed by any unknown fields parses back to the request |
| SwapQuery.MarshalledIs | x/market/types/query.pb.go:502-522 | The message is its non-empty fields, each as tag, length and bytes |
| WireLaws.VarintIs | x/market/types/query.pb.go:760-773 | Any bytes up to the tenth, the first without a high bit being the last, read as their groups of seven bits modulo 2^64, canonical or not |
| WireLaws.VarintFails | x/market/types/query.pb.go:760-773 | Ten bytes with the high bit are an overflow, and fewer that end the input are too short |
| WireLaws.RefusesEndGroup | x/market/types/query.pb.go:774-778 | After any records, the end of a group is refused |
| WireLaws.RefusesFieldZero | x/market/types/query.pb.go:779-781 | So is field number zero |
| WireLaws.RefusesWrongType | x/market/types/query.pb.go:782-817 | So is a known field that is not bytes |
| WireLaws.RefusesUnknownType | x/market/types/query.pb.go:1283-1284 | So is a field to skip of a wire type that does not exist |
| WireLaws.RefusesNegativeLength | x/market/types/query.pb.go:802-805 | So is a length of 2^63 or more, of a known field or of one to skip |
| WireLaws.RefusesTruncated | x/market/types/query.pb.go:754-867 | Input that ends inside a record, at any byte and inside groups of any depth, is refused as too short |
| SwapQueryCodec.EncodeVarint | x/market/types/query.pb.go:669-679 | Writes the varint just before the offset and leaves every other byte alone |
| SwapQueryCodec.PutRecord | x/market/types/query.pb.go:506-520 | Writes one record backwards, ending at a position, and leaves every other byte alone |
| SwapQueryCodec.MarshalToSizedBuffer | x/market/types/query.pb.go:502-522 | Fills the end of the buffer with the message and leaves the front alone |
| SwapQueryCodec.Size | x/market/types/query.pb.go:680-695 | The computed size is the length of the message |
| SwapQueryCodec.Marshal | x/market/types/query.pb.go:487-495 | The bytes are exactly the message: no slack, no overrun |
| SwapQueryCodec.DecodeVarint | x/market/types/query.pb.go:760-773 | The loop reads a 64-bit varint or reports overflow or end of input, on all bytes |
| SwapQueryCodec.SkipQuery | x/market/types/query.pb.go:1217-1294 | The loop with its depth counter equals the recursive skip, on all bytes |
| SwapQueryCodec.ReadString | x/market/types/query.pb.go:787-814 | Reads a length and that many bytes, with the error for a negative or overflowing length or a short input |
| SwapQueryCodec.Unmarshal | x/market/types/query.pb.go:754-867 | The loop equals the recursive parser on all bytes, errors included |
| SnapshotMap.SnapshotMap.constructor | app/export/util/types.go:32-33 | A new snapshot is empty |
| SnapshotMap.SnapshotMap.AppendOrAddBalance | app/export/util/types.go:44-58 | Adds to the first entry of the denom or appends; a nil balance is appended; no other address changes |
| SnapshotMap.SnapshotMap.SumOfDenom | app/export/util/types.go:81-91 | For every order the sum over all addresses and entries of the denom |
| SnapshotMap.SnapshotMap.Add | app/export/util/types.go:93-100 | Appends one entry per address, in any order |
| SnapshotMap.SnapshotMap.ApplyBlackList | app/export/util/types.go:132-147 | Succeeds exactly if no listed entry is nil, and then zeroes exactly the listed pairs, in any order |
| SnapshotMap.SnapshotMap.MergeSnapshots | app/export/util/types.go:32-42 | For every order of addresses each address gets its entries of all snapshots absorbed in order; the arguments are unchanged |
| Snapshot.MergePreservesTotals | app/export/util/types.go:32-42 | The total of every denom in the merge is the sum of its totals in the parts |
| Snapshot.MergeCollapses | app/export/util/types.go:32-58 | Without nil balances the merge has at most one entry per address and denom |
| Snapshot.MergeKeepsSafe | app/export/util/types.go:32-58 | If a blacklist can be applied to every part it can be applied to the merge |
| Snapshot.BlacklistCommutesWithMerge | app/export/util/types.go:132-147 | Blacklisting the parts and merging gives the blacklisted merge |
| Snapshot.PurgedHolding | app/export/util/types.go:132-147 | Listed pairs hold nothing, all others what they held |
| Resolve.AtRateLoss | app/export/lido/lido.go:229-235 | Converting at a rate loses less than one unit |
| Resolve.RewriteLoss | app/export/nexus/contract_export_nexus.go:136-145 | Rewriting a list of entries loses less than one unit per entry and leaves none of the old denom |
| Resolve.TotalLoss | app/export/steak/contract_export_steak.go:109-118 | Over a whole snapshot the new denom gains the converted total less under one unit per converted entry |
| Pipeline.RewriteDenom | app/export/stader/contract_export_stader_lunax.go:101-110 | For every order of addresses all entries of the denom are converted; panics exactly if one of them is nil |
| Pipeline.ResolveToBLuna | app/export/nexus/contract_export_nexus.go:127-148 | nLUNA becomes bLUNA at the ratio |
| Pipeline.ExportBSTLunaHolders | app/export/lido/lido.go:28-55 | Holders of stLUNA and bLUNA are added, the blacklist applied after each |
| Pipeline.ResolveLidoLuna | app/export/lido/lido.go:57-91 | bLUNA and stLUNA become LUNA and the unbonding LUNA is added, with the hub blacklisted; without unbonding data both are skipped |
| Pipeline.SwapPLunaToCLuna | app/export/prism/prism.go:169-180 | Every pLUNA entry becomes a cLUNA entry with the same balance, nil included |
| Pipeline.ResolvePrism | app/export/prism/prism.go:143-167 | pLUNA becomes cLUNA and cLUNA LUNA, the blacklist applied before and after the swap |
| LidoRewards.BondIsHolding | app/export/lido/lido.go:102-119 | Without nil balances the bond of an address is its holding, for exactly the addresses with an entry |
| LidoRewards.GatherBonds | app/export/lido/lido.go:99-119 | For every order the bonds of a denom, or a panic exactly if nil is added to something |
| LidoRewards.ShareOut | app/export/lido/lido.go:159-173 | For every order the rewards of each holder, or a panic exactly if a holder has a nil bond or the supply is zero |
| LidoRewards.ExportLidoRewards | app/export/lido/lido.go:93-205 | Leaves the blacklisted snapshot; fails exactly if the blacklist meets nil, a bond cannot be added up or a divisor is zero |
| LidoRewards.DividesIff | app/export/contract_export.go:163-168 | The divisors needed by the reward stage, in terms of the snapshot that enters the chain |
| LidoRewards.ResolveAll | app/export/contract_export.go:163-180 | The chain of stages yields the specified snapshot; without nil balances it succeeds if and only if the divisors of the reward stage are not zero |
| Pipeline.NoDerivativeLeft | app/export/contract_export.go:163-180 | No nLUNA, bLUNA, stLUNA, pLUNA, cLUNA, Steak or LunaX is left, in whatever snapshot the chain began with |
| Pipeline.BystandersUntouched | app/export/contract_export.go:163-180 | Every address keeps its holding of every other denom, unless that pair is blacklisted |
| LunaLaws.HoldersAre | app/export/lido/lido.go:28-55 | In every denom each address holds what it held and, of stLUNA and bLUNA, the tokens held for it, and nothing of a blacklisted pair |
| LunaLaws.ExportedLuna | app/export/contract_export.go:163-180 | The exported LUNA of every address is exactly the sum, over its own entries, the tokens held for it and its unbonding tokens, of what each comes to through its own conversions, pairs blacklisted on the way left out |
| LunaLaws.ExportedIsDue | app/export/contract_export.go:163-180 | Every address is exported at most the exact worth of all that counts for it, and less by at most a stated toll per amount |
| LunaLaws.HubKeepsOnly | app/export/lido/lido.go:57-91 | With unbonding data the lido hub is left with nothing but what its own cLUNA, pLUNA, Steak and LunaX come to |
| LunaLaws.BannedAddsNothing | app/export/contract_export.go:158-180 | A blacklisted holding adds nothing to the export of its address, whatever its size; nLUNA because the blacklist is applied just before the chain |
| Value.AppliedValue | app/export/contract_export.go:163-177 | At any prices that agree with its rate, a rewrite does not raise the value of a snapshot |
| Value.PurgedValue | app/export/util/types.go:132-147 | At any prices a blacklist does not raise the value of a snapshot without debts |
| Value.AddedValue | app/export/util/types.go:93-100 | Adding holders raises the value by exactly what they hold |
| Value.CollapsedValue | app/export/contract_export.go:179-180 | The final merge keeps the value at all prices |
| Value.ExportCreatesNothing | app/export/contract_export.go:163-180 | At all prices that agree with the exchange rates, the whole chain raises the value of a snapshot by no more than the holders it adds |
| Value.ExportCreatesNoLuna | app/export/contract_export.go:163-180 | The LUNA exported is at most the LUNA, derivatives and added holders at their exact rates, whatever the blacklist |
| Floor.AppliedScore | app/export/contract_export.go:163-177 | A rewrite does not lower the score of a snapshot: worth less what truncation may take |
| Floor.PurgedScore | app/export/util/types.go:132-147 | Nor does a blacklist, whose pairs are scored as worthless |
| Floor.CollapsedScore | app/export/contract_export.go:179-180 | Nor does the final merge, which only saves tolls |
| Floor.ExportKeepsScore | app/export/contract_export.go:163-180 | The whole chain ends with at least the score it began with and was given |
| Floor.ExportKeepsLuna | app/export/contract_export.go:163-180 | The LUNA exported is at least the exact value of all that is not blacklisted, unbonding tokens included, less a unit per conversion of each entry, nLUNA being converted twice |
| Aperture.SchedulesConserve | app/export/aperture/contract_export_aperture_vaults.go:111-145 | Under every schedule items sent, pending and not yet asked for are together the open items, as a multiset |
| Aperture.FinishedHasAll | app/export/aperture/contract_export_aperture_vaults.go:66-73 | When all workers are done exactly the open items have been sent |
| Aperture.SchedulesAreBounded | app/export/aperture/contract_export_aperture_vaults.go:111-119 | Every schedule is finite: the moves made and the moves left always add up to the same number |
| Aperture.SmallAnswersFit | app/export/aperture/contract_export_aperture_vaults.go:126-138 | With at most one item per position all items fit the channel |
| Aperture.WorkerCanMove | app/export/aperture/contract_export_aperture_vaults.go:66-72 | If all items fit then no worker ever waits to send |
| Aperture.StuckIff | app/export/aperture/contract_export_aperture_vaults.go:60-73 | Some schedule gets stuck if and only if the open items do not fit the channel |
| Aperture.NeverFinishes | app/export/aperture/contract_export_aperture_vaults.go:60-73 | If they do not fit then no schedule finishes |
| Aperture.BuildSnapshot | app/export/aperture/contract_export_aperture_vaults.go:74-93 | Reading the channel absorbs each holder's balances in order of arrival and lists the contracts |
| Aperture.SnapshotIgnoresSchedule | app/export/aperture/contract_export_aperture_vaults.go:60-95 | Two complete runs, however scheduled, give the same snapshot and blacklist the same contracts if no holder has both set and unset balances |
| Aperture.OrderFreeIff | app/export/aperture/contract_export_aperture_vaults.go:75-93 | The reading loop alone gives the same snapshot for every order of the channel if and only if no holder has both |
| ApertureOrder.EntriesAre | app/export/aperture/contract_export_aperture_vaults.go:75-93 | A holder's entries are determined by its sum, its number of unset balances and whether the first to arrive is set |
| ApertureOrder.FirstIsEarly | app/export/aperture/contract_export_aperture_vaults.go:60-73 | Under every schedule the first item of a holder to arrive is among its first open positions, as many as there are workers |
| ApertureOrder.EarlyIsFirst | app/export/aperture/contract_export_aperture_vaults.go:60-73 | Each of these is first in some complete schedule |
| ApertureOrder.ScheduleFreeIff | app/export/aperture/contract_export_aperture_vaults.go:60-95 | With at most one item per position, all complete schedules build the same snapshot if and only if for every holder these are all set or all unset |
| ApertureOrder.MixedPoolDiffers | app/export/aperture/contract_export_aperture_vaults.go:60-95 | A pool of two positions whose snapshot depends on the schedule |
| ApertureLaws.ResultsSum | app/export/aperture/contract_export_aperture_vaults.go:60-73 | For every complete schedule, whatever is summed over the results is summed over the answers about open positions |
| ApertureLaws.SentAsOften | app/export/aperture/contract_export_aperture_vaults.go:136-140 | An item is sent as often as it is answered if its position is open, and else never |
| ApertureLaws.HolderIsCredited | app/export/aperture/contract_export_aperture_vaults.go:74-93 | For every complete schedule a holder is credited the sum over its open positions: aUST before the attack, UST after it, and nothing in any other denom |

## Left out

- RewardsNeverFail: assumes fewer than 2 * 10^18 winners, the number at which half a unit of rounding per winner could add up to a coin.
- QuorumSafeIff: ranges over votes in which no validator names two prices more than a factor of 10^18 apart, since their quotient may round to zero; HaltsExactlyWhen covers those too.
- EndBlockHaltsIff: assumes a safe reward schedule, fewer than 2 * 10^18 validators, between one and 10^18 vote periods per window, that staking knows the bonded validators it lists, that decimals do not overflow, and that the bank, staking and distribution modules do not panic themselves, as the bank does when asked for the balance of a name that is no coin denom; RewardsSafeIff and SlashDividesIff are about the first and third.
- PoolStaysPositive: is a sufficient condition for one swap into SDR; PoolSafeIff is exact over all swaps, and PoolFloorInto bounds swaps into other denoms.
- VerdictIsExact: assumes at most 10^18 vote periods per window, the precision of the quotient.
- ScheduleFreeIff: is about positions that answer with at most one item, which is what is asked for; SnapshotIgnoresSchedule and StuckIff cover any answers.
- RoundTrip: assumes messages shorter than 2^63 bytes, the range of Go's slice indices.
- ResolveLidoLuna: tests for bLUNA and stLUNA in two passes instead of one; the two denoms differ and neither rewrite produces the other.
- ApplyWhitelist: counts letters where the source counts bytes.
- HandleSwapRequest: leaves its partial effects behind on an error, as the handler does; DeliverSwap models the transaction that discards them.
- Overflow of `sdk.Dec`, `sdk.Int` and `int64` counters is not modelled, nor are negative consensus powers.
- The legacy branches before the softfork heights (`ToCrossRate`, `WeightedMedian`, `RewardBallotWinnersLegacy`).
- Events, telemetry, gas, logging, the contents of the bank metadata, blocked addresses, and the amounts slashed by the staking module.
- Contract queries of the exporter and errors they return, on which ResolveAll and the aperture workers stop; the UST rewards of lido, which are divided like the LUNA ones and dropped too.
- Snapshot helpers without state (`FilterByDenom`, `PickDenomIntoBalanceMap`, `ExportToBalances`), the final audit and the other exporters, which would add members of the kinds already modelled.
- The other generated messages of the wire format, which repeat the same record forms.
- Treasury, ante handlers, wasm bindings, genesis import and command line.
