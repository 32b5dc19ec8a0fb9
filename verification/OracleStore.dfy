/**
 * The oracle's stored state and what each message and each end of block does to it
 * (x/oracle/keeper/msg_server.go, x/oracle/keeper/ballot.go, x/oracle/abci.go), as functions of
 * the state that mention no visiting order.
 */
module OracleStore {
  import opened Orders
  import opened Outcome
  import opened Ballot
  import opened Tally
  import opened VoteRound
  import opened Organize
  import Dec
  import Reward
  import Slash
  import W = Whitelist
  import Words

  /** The vote hash, its hex decoding and the parser of rate strings are parameters. */
  datatype Protocol = Protocol(
    votePeriod: nat,
    slashWindow: nat,
    decode: string -> Option<string>,
    hash: (string, string, string) -> string,
    parse: string -> Option<seq<Tuple>>)

  ghost predicate ValidProtocol(p: Protocol) {
    && 0 < p.votePeriod && 0 < p.slashWindow
    && forall s :: p.parse(s).Some? ==> DistinctDenoms(p.parse(s).value)
  }

  datatype Prevote = Prevote(hash: string, submitBlock: nat)

  datatype Store = Store(
    height: nat,
    rates: map<string, int>,
    taxes: map<string, int>,
    misses: map<string, nat>,
    prevotes: map<string, Prevote>,
    votes: map<string, seq<Tuple>>,
    feeders: map<string, string>,
    pool: map<string, int>,
    metadata: set<string>)

  ghost predicate ValidStore(s: Store) {
    && "" !in s.taxes
    && (forall v :: v in s.votes ==> DistinctDenoms(s.votes[v]))
    && (forall d :: d in s.pool ==> s.pool[d] >= 0)
  }

  // ---------- messages ----------

  datatype TxError =
    | NoVotingPermission
    | NoValidatorFound
    | InvalidHash
    | NoAggregatePrevote
    | RevealPeriodMissMatch
    | InvalidCoins
    | UnknownDenom
    | VerificationFailed

  datatype TxResult = Accepted(store: Store) | Rejected(error: TxError)

  function Delegate(s: Store, val: string): string {
    if val in s.feeders then s.feeders[val] else val
  }

  function FeederError(s: Store, feeder: string, val: string, bonded: set<string>): Option<TxError> {
    if feeder != val && Delegate(s, val) != feeder then Some(NoVotingPermission)
    else if val !in bonded then Some(NoValidatorFound)
    else None
  }

  function PrevoteTx(p: Protocol, s: Store, feeder: string, val: string, hash: string, bonded: set<string>): TxResult {
    var fault := FeederError(s, feeder, val, bonded);
    if fault.Some? then Rejected(fault.value)
    else if p.decode(hash).None? then Rejected(InvalidHash)
    else Accepted(s.(prevotes := s.prevotes[val := Prevote(p.decode(hash).value, s.height)]))
  }

  /** Periods between commit and reveal, subtracted as unsigned words. */
  function RevealLag(p: Protocol, height: nat, submitBlock: nat): int
    requires p.votePeriod > 0
  {
    Words.AsUint64(height / p.votePeriod - submitBlock / p.votePeriod)
  }

  function VoteTx(p: Protocol, s: Store, feeder: string, val: string, salt: string, rates: string,
                  bonded: set<string>): TxResult
    requires p.votePeriod > 0
  {
    var fault := FeederError(s, feeder, val, bonded);
    if fault.Some? then Rejected(fault.value)
    else if val !in s.prevotes then Rejected(NoAggregatePrevote)
    else if RevealLag(p, s.height, s.prevotes[val].submitBlock) != 1 then Rejected(RevealPeriodMissMatch)
    else if p.parse(rates).None? then Rejected(InvalidCoins)
    else if exists t :: t in p.parse(rates).value && t.denom !in s.taxes then Rejected(UnknownDenom)
    else if s.prevotes[val].hash != p.hash(salt, rates, val) then Rejected(VerificationFailed)
    else Accepted(s.(votes := s.votes[val := p.parse(rates).value], prevotes := s.prevotes - {val}))
  }

  function DelegateTx(s: Store, operator: string, delegate: string, known: set<string>): TxResult {
    if operator !in known then Rejected(NoValidatorFound)
    else Accepted(s.(feeders := s.feeders[operator := delegate]))
  }

  // ---------- end of block ----------

  datatype Validator = Validator(address: string, power: nat, bonded: bool)

  /** What staking and the parameters say at the end of one block. */
  datatype Block = Block(
    validators: seq<Validator>,
    maxValidators: nat,
    totalPower: nat,
    voteThreshold: int,
    band: int,
    rewardWindow: int,
    whitelist: seq<W.Target>,
    minValid: int,
    known: set<string>,
    active: set<string>,
    root: int -> nat)

  ghost predicate ValidBlock(b: Block) {
    && b.rewardWindow > 0
    && forall t :: t in b.whitelist ==> t.name != ""
  }

  predicate PeriodLast(height: nat, period: nat)
    requires period > 0
  {
    (height + 1) % period == 0
  }

  /** A fresh claim for each bonded validator, in order of power, up to the maximum. */
  function ClaimsOf(validators: seq<Validator>, room: nat, claims: map<string, Claim>): map<string, Claim> {
    if validators == [] || room == 0 then claims
    else
      var v := validators[0];
      if v.bonded then ClaimsOf(validators[1..], room - 1, claims[v.address := Claim(v.power, 0, 0, v.address)])
      else ClaimsOf(validators[1..], room, claims)
  }

  ghost predicate FreshClaims(claims: map<string, Claim>) {
    forall x :: x in claims ==>
      claims[x].power >= 0 && claims[x].weight == 0 && claims[x].winCount == 0 && claims[x].recipient == x
  }

  lemma {:induction false} ClaimsAreFresh(validators: seq<Validator>, room: nat, claims: map<string, Claim>)
    requires FreshClaims(claims)
    ensures FreshClaims(ClaimsOf(validators, room, claims))
  {
    if validators != [] && room != 0 {
      var v := validators[0];
      if v.bonded {
        ClaimsAreFresh(validators[1..], room - 1, claims[v.address := Claim(v.power, 0, 0, v.address)]);
      } else {
        ClaimsAreFresh(validators[1..], room, claims);
      }
    }
  }

  ghost function BlockClaims(b: Block): map<string, Claim> {
    ClaimsOf(b.validators, b.maxValidators, map[])
  }

  lemma {:induction false} OrderExists(keys: set<string>)
    ensures exists order: seq<string> :: IsOrderOf(order, keys)
  {
    if keys == {} {
      var empty: seq<string> := [];
      assert IsOrderOf(empty, keys);
    } else {
      var x := Pick(keys);
      OrderExists(keys - {x});
      var rest: seq<string> :| IsOrderOf(rest, keys - {x});
      assert IsOrderOf(rest + [x], keys);
    }
  }

  ghost function SomeOrder(keys: set<string>): (order: seq<string>)
    ensures IsOrderOf(order, keys)
  {
    OrderExists(keys);
    var order :| IsOrderOf(order, keys);
    order
  }

  ghost function HeardDenoms(votes: map<string, seq<Tuple>>, claims: map<string, Claim>): set<string> {
    set v, t | v in votes && v in claims && t in votes[v] :: t.denom
  }

  ghost function Organized(votes: map<string, seq<Tuple>>, claims: map<string, Claim>): map<string, seq<Vote>> {
    map d | d in HeardDenoms(votes, claims) :: Collected(SomeOrder(votes.Keys), votes, claims, d)
  }

  function ThresholdVotes(b: Block): int {
    Dec.RoundInt(b.voteThreshold * b.totalPower)
  }

  ghost function RoundOf(s: Store, b: Block): Round {
    Round(BlockClaims(b), s.taxes, Organized(s.votes, BlockClaims(b)), ThresholdVotes(b), b.band, b.root)
  }

  function MissesOf(misses: map<string, nat>, x: string): nat {
    if x in misses then misses[x] else 0
  }

  /** Validators that did not win every surviving target. */
  ghost function Missed(claims: map<string, Claim>, targets: nat): set<string> {
    set x | x in claims && claims[x].winCount != targets
  }

  ghost function CountMisses(misses: map<string, nat>, missed: set<string>): map<string, nat> {
    map x | x in misses.Keys + missed :: MissesOf(misses, x) + (if x in missed then 1 else 0)
  }

  ghost function KeptPrevotes(p: Protocol, s: Store): map<string, Prevote> {
    map v | v in s.prevotes && s.height <= s.prevotes[v].submitBlock + p.votePeriod :: s.prevotes[v]
  }

  ghost function RewardInput(p: Protocol, s: Store, b: Block, t: Tallied): Reward.Input {
    Reward.Input(p.votePeriod, b.rewardWindow, t.targets, t.claims, s.pool, b.known)
  }

  datatype Ended = Ended(store: Store, allocations: map<string, map<string, int>>, slashed: set<string>)

  ghost function Settled(p: Protocol, s: Store, b: Block, t: Tallied, pool: map<string, int>): Store {
    s.(rates := t.rates,
       misses := CountMisses(s.misses, Missed(t.claims, |t.targets|)),
       pool := pool,
       prevotes := KeptPrevotes(p, s),
       votes := map[],
       taxes := W.NewTaxes(s.taxes, t.targets, b.whitelist),
       metadata := W.NewMetadata(s.metadata, t.targets, b.whitelist))
  }

  /** The last block of a vote period tallies, counts misses, pays, clears and updates targets. */
  ghost function PeriodOutcome(p: Protocol, s: Store, b: Block): Halting<Ended>
    requires b.rewardWindow > 0
  {
    match TallyOutcome(RoundOf(s, b))
    case Err(fault) => Err(fault)
    case Ok(t) =>
      match Reward.RewardOutcome(RewardInput(p, s, b, t))
      case Err(fault) => Err(fault)
      case Ok(payout) =>
        if W.Unregistrable(s.metadata, t.targets, b.whitelist) then Err(ShortDenom)
        else Ok(Ended(Settled(p, s, b, t, payout.pool), payout.allocations, {}))
  }

  /** Number of vote periods in a slash window; none if the window is shorter than a period. */
  function Periods(p: Protocol): (n: nat)
    requires 0 < p.votePeriod
    ensures n == p.slashWindow / p.votePeriod && (n == 0 <==> p.slashWindow < p.votePeriod)
  {
    Slash.PeriodsPerWindowIs(p.slashWindow, p.votePeriod);
    Dec.DivBounds(p.slashWindow, p.votePeriod);
    Slash.PeriodsPerWindow(p.slashWindow, p.votePeriod)
  }

  ghost function TallyIfDue(p: Protocol, s: Store, b: Block): Halting<Ended>
    requires 0 < p.votePeriod && b.rewardWindow > 0
  {
    if PeriodLast(s.height, p.votePeriod) then PeriodOutcome(p, s, b) else Ok(Ended(s, map[], {}))
  }

  ghost function EndBlockOutcome(p: Protocol, s: Store, b: Block): Halting<Ended>
    requires 0 < p.votePeriod && 0 < p.slashWindow && b.rewardWindow > 0
  {
    var tallied := TallyIfDue(p, s, b);
    if tallied.Err? || !PeriodLast(s.height, p.slashWindow) then tallied
    else
      var periods := Periods(p);
      match Slash.SlashOutcome(tallied.value.store.misses, periods, b.minValid, b.known, b.active)
      case Err(fault) => Err(fault)
      case Ok(slashed) => Ok(tallied.value.(store := tallied.value.store.(misses := map[]), slashed := slashed))
  }

  // ---------- organized rounds are proper ----------

  lemma HeardDenomsIff(votes: map<string, seq<Tuple>>, claims: map<string, Claim>, d: string)
    ensures d in HeardDenoms(votes, claims) <==> exists v :: Heard(votes, claims, v, d)
  {
    if v :| Heard(votes, claims, v, d) {
      var t :| t in votes[v] && t.denom == d;
      assert v in votes && v in claims && t in votes[v];
    }
    if d in HeardDenoms(votes, claims) {
      var v, t :| v in votes && v in claims && t in votes[v] && t.denom == d;
      assert Heard(votes, claims, v, d);
    }
  }

  lemma RoundIsProper(s: Store, b: Block)
    requires ValidStore(s)
    ensures Proper(RoundOf(s, b)) && FreshClaims(RoundOf(s, b).claims)
  {
    var claims := BlockClaims(b);
    ClaimsAreFresh(b.validators, b.maxValidators, map[]);
    forall d | d in Organized(s.votes, claims)
      ensures ProperBallot(Organized(s.votes, claims)[d], claims)
    {
      CollectedIsProper(SomeOrder(s.votes.Keys), s.votes, claims, d);
    }
  }
}
