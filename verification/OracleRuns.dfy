/**
 * Whole runs of the oracle: any sequence of messages and ends of blocks from empty stores, with a
 * fixed vote period. Commit and reveal, clearing of ballots, vote targets and miss counters.
 */
module OracleRuns {
  import opened Outcome
  import opened VoteRound
  import opened Organize
  import opened OracleStore
  import opened OracleKeeper
  import Dec
  import Reward
  import Slash
  import W = Whitelist
  import Words

  datatype Action =
    | TxPrevote(feeder: string, val: string, hash: string, bonded: set<string>)
    | TxVote(feeder: string, val: string, salt: string, rates: string, bonded: set<string>)
    | TxDelegate(operator: string, delegate: string, known: set<string>)
    | EndBlock(block: Block)

  /** A panic in the end blocker halts the chain for good. */
  datatype Chain = Running(store: Store) | Halted(fault: Fault)

  datatype Run = Run(protocol: Protocol, start: Store, actions: seq<Action>)

  ghost predicate ValidRun(r: Run) {
    && ValidProtocol(r.protocol)
    && ValidStore(r.start)
    && r.start.prevotes == map[] && r.start.votes == map[] && r.start.misses == map[]
    && forall a :: a in r.actions && a.EndBlock? ==> ValidBlock(a.block)
  }

  function ApplyTx(p: Protocol, s: Store, a: Action): TxResult
    requires p.votePeriod > 0 && !a.EndBlock?
  {
    match a
    case TxPrevote(feeder, val, hash, bonded) => PrevoteTx(p, s, feeder, val, hash, bonded)
    case TxVote(feeder, val, salt, rates, bonded) => VoteTx(p, s, feeder, val, salt, rates, bonded)
    case TxDelegate(operator, delegate, known) => DelegateTx(s, operator, delegate, known)
  }

  /** A rejected message leaves no trace; an ended block starts the next one. */
  ghost function Step(p: Protocol, s: Store, a: Action): Chain
    requires 0 < p.votePeriod && 0 < p.slashWindow && (a.EndBlock? ==> a.block.rewardWindow > 0)
  {
    if a.EndBlock? then
      match EndBlockOutcome(p, s, a.block)
      case Err(fault) => Halted(fault)
      case Ok(e) => Running(e.store.(height := s.height + 1))
    else
      match ApplyTx(p, s, a)
      case Rejected(_) => Running(s)
      case Accepted(s') => Running(s')
  }

  /** The chain after the first `k` actions of a run. */
  ghost function At(r: Run, k: nat): Chain
    requires ValidRun(r) && k <= |r.actions|
  {
    if k == 0 then Running(r.start)
    else
      var c := At(r, k - 1);
      assert r.actions[k - 1] in r.actions;
      if c.Halted? then c else Step(r.protocol, c.store, r.actions[k - 1])
  }

  ghost predicate Accepts(r: Run, k: nat)
    requires ValidRun(r) && k < |r.actions|
  {
    && At(r, k).Running?
    && !r.actions[k].EndBlock?
    && ApplyTx(r.protocol, At(r, k).store, r.actions[k]).Accepted?
  }

  ghost function PeriodAt(r: Run, k: nat): int
    requires ValidRun(r) && k <= |r.actions| && At(r, k).Running?
  {
    At(r, k).store.height / r.protocol.votePeriod
  }

  // ---------- what one step can change ----------

  lemma PeriodFrame(p: Protocol, s: Store, b: Block)
    requires ValidBlock(b) && PeriodOutcome(p, s, b).Ok?
    ensures var t := PeriodOutcome(p, s, b).value.store;
            t.height == s.height && t.feeders == s.feeders && t.votes == map[] && t.prevotes == KeptPrevotes(p, s)
  {
    hide TallyOutcome, Reward.RewardOutcome, RoundOf, W.NewTaxes, CountMisses, KeptPrevotes;
  }

  /** The parts of the state that an end of block may touch, and how. */
  lemma EndBlockFrame(p: Protocol, s: Store, b: Block)
    requires ValidProtocol(p) && ValidBlock(b) && EndBlockOutcome(p, s, b).Ok?
    ensures var t := EndBlockOutcome(p, s, b).value.store;
            && t.height == s.height && t.feeders == s.feeders
            && (PeriodLast(s.height, p.votePeriod) ==> t.votes == map[] && t.prevotes == KeptPrevotes(p, s))
            && (!PeriodLast(s.height, p.votePeriod) ==>
                  t.votes == s.votes && t.prevotes == s.prevotes && t.taxes == s.taxes)
  {
    hide PeriodOutcome, EndBlockOutcome, KeptPrevotes, PeriodLast;
    CheckKeeps(p, s, b);
    if PeriodLast(s.height, p.votePeriod) {
      PeriodFrame(p, s, b);
    }
  }

  /** The slash check touches the counters only. */
  lemma CheckKeeps(p: Protocol, s: Store, b: Block)
    requires ValidProtocol(p) && ValidBlock(b) && EndBlockOutcome(p, s, b).Ok?
    ensures TallyIfDue(p, s, b).Ok?
    ensures var t := EndBlockOutcome(p, s, b).value.store; t == TallyIfDue(p, s, b).value.store.(misses := t.misses)
  {
    hide TallyIfDue, Slash.SlashOutcome, PeriodLast, Periods, DistinctDenoms;
  }

  lemma EndBlockKeepsValid(p: Protocol, s: Store, b: Block)
    requires ValidStore(s) && ValidProtocol(p) && ValidBlock(b) && EndBlockOutcome(p, s, b).Ok?
    ensures ValidStore(EndBlockOutcome(p, s, b).value.store)
  {
    hide PeriodOutcome, Slash.SlashOutcome;
    if PeriodLast(s.height, p.votePeriod) {
      PeriodKeepsValid(p, s, b);
    }
  }

  lemma {:induction false} StoresStayValid(r: Run, k: nat)
    requires ValidRun(r) && k <= |r.actions| && At(r, k).Running?
    ensures ValidStore(At(r, k).store)
  {
    hide EndBlockOutcome, ApplyTx, ValidStore;
    if k > 0 {
      StoresStayValid(r, k - 1);
      var a, s := r.actions[k - 1], At(r, k - 1).store;
      assert a in r.actions;
      if a.EndBlock? {
        EndBlockKeepsValid(r.protocol, s, a.block);
        HeightIsFree(EndBlockOutcome(r.protocol, s, a.block).value.store, s.height + 1);
      } else {
        TxKeepsValid(r.protocol, s, a);
      }
    }
  }

  lemma HeightIsFree(s: Store, height: nat)
    ensures ValidStore(s.(height := height)) <==> ValidStore(s)
  {
  }

  lemma TxKeepsValid(p: Protocol, s: Store, a: Action)
    requires ValidProtocol(p) && ValidStore(s) && !a.EndBlock?
    ensures ApplyTx(p, s, a).Accepted? ==> ValidStore(ApplyTx(p, s, a).store)
  {
    hide FeederError, RevealLag;
  }

  /** A running chain was running one action earlier, and that action led here. */
  lemma StepAt(r: Run, k: nat) returns (s: Store, a: Action)
    requires ValidRun(r) && 0 < k <= |r.actions| && At(r, k).Running?
    ensures ValidProtocol(r.protocol)
    ensures At(r, k - 1) == Running(s) && a == r.actions[k - 1] && (a.EndBlock? ==> ValidBlock(a.block))
    ensures At(r, k) == Step(r.protocol, s, a)
    ensures At(r, k).store.height == s.height + (if a.EndBlock? then 1 else 0)
  {
    hide EndBlockOutcome;
    s, a := At(r, k - 1).store, r.actions[k - 1];
    assert a in r.actions;
  }

  lemma {:induction false} RunningBefore(r: Run, j: nat, k: nat)
    requires ValidRun(r) && j <= k <= |r.actions| && At(r, k).Running?
    ensures At(r, j).Running? && At(r, j).store.height <= At(r, k).store.height
    ensures PeriodAt(r, j) <= PeriodAt(r, k)
    decreases k
  {
    hide At, Step;
    if j < k {
      var s, a := StepAt(r, k);
      RunningBefore(r, j, k - 1);
    }
    Dec.DivMonotone(At(r, j).store.height, At(r, k).store.height, r.protocol.votePeriod);
  }

  lemma NextPeriod(height: nat, period: nat)
    requires period > 0
    ensures (height + 1) / period == height / period + (if PeriodLast(height, period) then 1 else 0)
  {
    Dec.DivBounds(height, period);
    var q := height / period;
    if height + 1 < q * period + period {
      Dec.DivUnique(height + 1, period, q, height + 1 - q * period);
    } else {
      assert height + 1 == (q + 1) * period;
      Dec.DivUnique(height + 1, period, q + 1, 0);
    }
  }

  // ---------- who may act for a validator ----------

  /** The delegate `v` last named before action `k`, or had at the start; a validator starts as its own. */
  ghost function FeederAt(r: Run, k: nat, v: string): string
    requires k <= |r.actions|
  {
    if k == 0 then if v in r.start.feeders then r.start.feeders[v] else v
    else
      var a := r.actions[k - 1];
      if a.TxDelegate? && a.operator == v && v in a.known then a.delegate else FeederAt(r, k - 1, v)
  }

  /** Action `k` is about a bonded validator and was sent by it or by its delegate at the time. */
  ghost predicate Authorized(r: Run, k: nat) {
    && k < |r.actions| && (r.actions[k].TxPrevote? || r.actions[k].TxVote?)
    && r.actions[k].val in r.actions[k].bonded
    && (r.actions[k].feeder == r.actions[k].val || r.actions[k].feeder == FeederAt(r, k, r.actions[k].val))
  }

  lemma TxKeepsFeeders(p: Protocol, s: Store, a: Action, v: string)
    requires p.votePeriod > 0 && !a.EndBlock?
    ensures ApplyTx(p, s, a).Accepted? ==>
              Delegate(ApplyTx(p, s, a).store, v) ==
                if a.TxDelegate? && a.operator == v && v in a.known then a.delegate else Delegate(s, v)
    ensures ApplyTx(p, s, a).Rejected? ==> !(a.TxDelegate? && a.operator == v && v in a.known)
  {
    hide FeederError, RevealLag;
  }

  lemma {:induction false} FeederIs(r: Run, k: nat, v: string)
    requires ValidRun(r) && k <= |r.actions| && At(r, k).Running?
    ensures Delegate(At(r, k).store, v) == FeederAt(r, k, v)
  {
    hide EndBlockOutcome, ApplyTx;
    if k > 0 {
      var s, a := StepAt(r, k);
      FeederIs(r, k - 1, v);
      if a.EndBlock? {
        EndBlockFrame(r.protocol, s, a.block);
      } else {
        TxKeepsFeeders(r.protocol, s, a, v);
      }
    }
  }

  lemma FeederErrorIff(r: Run, k: nat)
    requires ValidRun(r) && k < |r.actions| && At(r, k).Running? && (r.actions[k].TxPrevote? || r.actions[k].TxVote?)
    ensures var a := r.actions[k];
            FeederError(At(r, k).store, a.feeder, a.val, a.bonded).None? <==> Authorized(r, k)
  {
    hide At, ValidRun;
    FeederIs(r, k, r.actions[k].val);
  }

  /** Whatever is accepted for a validator was sent by it, or by the delegate it last named, while it was bonded. */
  lemma AcceptedIsAuthorized(r: Run, k: nat)
    requires ValidRun(r) && k < |r.actions| && Accepts(r, k) && !r.actions[k].TxDelegate?
    ensures Authorized(r, k)
  {
    hide At, ValidRun, FeederError, RevealLag;
    FeederErrorIff(r, k);
  }

  // ---------- commit and reveal ----------

  /** Action `i` stored the prevote that committed validator `v` to `hash`. */
  ghost predicate Commits(r: Run, i: nat, v: string, hash: string)
    requires ValidRun(r)
  {
    && i < |r.actions| && Accepts(r, i)
    && r.actions[i].TxPrevote? && r.actions[i].val == v && r.protocol.decode(r.actions[i].hash) == Some(hash)
  }

  /** Action `j` revealed the rates of validator `v` with a salt that hashes to `hash`. */
  ghost predicate Reveals(r: Run, j: nat, v: string, hash: string, tuples: seq<Tuple>)
    requires ValidRun(r)
  {
    && j < |r.actions| && Accepts(r, j)
    && r.actions[j].TxVote? && r.actions[j].val == v
    && r.protocol.parse(r.actions[j].rates) == Some(tuples)
    && r.protocol.hash(r.actions[j].salt, r.actions[j].rates, v) == hash
  }

  /** Since action `i` no message for `v` was accepted up to action `k`. */
  ghost predicate Untouched(r: Run, i: nat, k: nat, v: string)
    requires ValidRun(r) && k <= |r.actions|
  {
    forall m :: i < m < k ==> !(Accepts(r, m) && TouchesPrevote(r.actions[m], v))
  }

  /** Every stored prevote is its validator's last commitment, made with authority at the height it carries. */
  lemma {:induction false} PrevoteOrigin(r: Run, k: nat, v: string) returns (i: nat)
    requires ValidRun(r) && k <= |r.actions| && At(r, k).Running? && v in At(r, k).store.prevotes
    ensures i < k && Commits(r, i, v, At(r, k).store.prevotes[v].hash) && Authorized(r, i) && Untouched(r, i, k, v)
    ensures At(r, i).store.height == At(r, k).store.prevotes[v].submitBlock
  {
    hide EndBlockOutcome, FeederError, Authorized, FeederAt;
    assert k > 0;
    var a, s := r.actions[k - 1], At(r, k - 1).store;
    assert a in r.actions;
    if Accepts(r, k - 1) && a.TxPrevote? && a.val == v {
      i := k - 1;
      AcceptedIsAuthorized(r, i);
    } else {
      if a.EndBlock? {
        EndBlockFrame(r.protocol, s, a.block);
      }
      i := PrevoteOrigin(r, k - 1, v);
      assert !(Accepts(r, k - 1) && TouchesPrevote(a, v));
    }
  }

  /** A stored prevote is from the current period or one of the two before it. */
  lemma {:induction false} PrevoteAge(r: Run, k: nat, v: string)
    requires ValidRun(r) && k <= |r.actions| && At(r, k).Running? && v in At(r, k).store.prevotes
    ensures var submitted := At(r, k).store.prevotes[v].submitBlock;
            && submitted <= At(r, k).store.height
            && submitted / r.protocol.votePeriod <= PeriodAt(r, k) <= submitted / r.protocol.votePeriod + 2
  {
    hide EndBlockOutcome;
    assert k > 0;
    var p, a, s := r.protocol, r.actions[k - 1], At(r, k - 1).store;
    assert a in r.actions;
    if Accepts(r, k - 1) && a.TxPrevote? && a.val == v {
    } else if a.EndBlock? {
      EndBlockFrame(p, s, a.block);
      PrevoteAge(r, k - 1, v);
      AgeNext(p, s.height, s.prevotes[v].submitBlock);
    } else {
      PrevoteAge(r, k - 1, v);
    }
  }

  lemma AgeNext(p: Protocol, height: nat, submitted: nat)
    requires p.votePeriod > 0 && submitted <= height
    requires height / p.votePeriod <= submitted / p.votePeriod + 2
    requires PeriodLast(height, p.votePeriod) ==> height <= submitted + p.votePeriod
    ensures submitted / p.votePeriod <= (height + 1) / p.votePeriod <= submitted / p.votePeriod + 2
  {
    NextPeriod(height, p.votePeriod);
    Dec.DivMonotone(submitted, height, p.votePeriod);
    if PeriodLast(height, p.votePeriod) {
      ShiftPeriod(submitted, p.votePeriod);
      Dec.DivMonotone(height, submitted + p.votePeriod, p.votePeriod);
    }
  }

  lemma ShiftPeriod(x: nat, period: nat)
    requires period > 0
    ensures (x + period) / period == x / period + 1
  {
    Dec.DivBounds(x, period);
    Dec.DivUnique(x + period, period, x / period + 1, x - (x / period) * period);
  }

  lemma SmallLag(lag: int)
    requires 0 <= lag <= 2
    ensures Words.AsUint64(lag) == 1 <==> lag == 1
  {
  }

  /** The reveal test, made on unsigned words, really compares with the previous period. */
  lemma LagIsOne(r: Run, k: nat, v: string)
    requires ValidRun(r) && k <= |r.actions| && At(r, k).Running? && v in At(r, k).store.prevotes
    ensures var s := At(r, k).store;
            RevealLag(r.protocol, s.height, s.prevotes[v].submitBlock) == 1 <==>
            PeriodAt(r, k) == s.prevotes[v].submitBlock / r.protocol.votePeriod + 1
  {
    hide At;
    PrevoteAge(r, k, v);
    SmallLag(PeriodAt(r, k) - At(r, k).store.prevotes[v].submitBlock / r.protocol.votePeriod);
  }

  /**
   * Every vote that is stored, hence every vote that is tallied, was revealed with authority in the current
   * period and matches the hash last committed, with authority, for the same validator in the period before.
   */
  lemma {:induction false} VoteOrigin(r: Run, k: nat, v: string) returns (i: nat, j: nat, hash: string)
    requires ValidRun(r) && k <= |r.actions| && At(r, k).Running? && v in At(r, k).store.votes
    ensures i < j < k
    ensures Commits(r, i, v, hash) && Reveals(r, j, v, hash, At(r, k).store.votes[v])
    ensures Authorized(r, i) && Authorized(r, j) && Untouched(r, i, j, v)
    ensures PeriodAt(r, j) == PeriodAt(r, k) && PeriodAt(r, i) + 1 == PeriodAt(r, j)
  {
    hide EndBlockOutcome, At, ValidRun, FeederError, RevealLag, DistinctDenoms, Authorized, FeederAt, Untouched;
    NoVotesAtStart(r, k, v);
    var s, a := StepAt(r, k);
    if Accepts(r, k - 1) && a.TxVote? && a.val == v {
      i := PrevoteOrigin(r, k - 1, v);
      j, hash := k - 1, s.prevotes[v].hash;
      LagIsOne(r, k - 1, v);
      AcceptedIsAuthorized(r, j);
    } else {
      if a.EndBlock? {
        EndBlockFrame(r.protocol, s, a.block);
        NextPeriod(s.height, r.protocol.votePeriod);
      }
      i, j, hash := VoteOrigin(r, k - 1, v);
    }
  }

  lemma NoVotesAtStart(r: Run, k: nat, v: string)
    requires ValidRun(r) && k <= |r.actions| && At(r, k).Running? && v in At(r, k).store.votes
    ensures k > 0
  {
  }

  /** Messages of others, and rejected ones, leave a validator's prevote alone. */
  lemma TxFrame(p: Protocol, s: Store, a: Action, v: string)
    requires p.votePeriod > 0 && !a.EndBlock?
    requires !(TouchesPrevote(a, v) && ApplyTx(p, s, a).Accepted?)
    ensures ApplyTx(p, s, a).Accepted? ==>
              var t := ApplyTx(p, s, a).store;
              && (v in t.prevotes <==> v in s.prevotes) && (v in s.prevotes ==> t.prevotes[v] == s.prevotes[v])
              && t.height == s.height
  {
    hide FeederError, RevealLag;
  }

  /** After a reveal, any prevote of that validator within the period is a new commitment. */
  lemma {:induction false} RevealConsumes(r: Run, j: nat, k: nat, v: string)
    requires ValidRun(r) && j < k <= |r.actions| && At(r, k).Running?
    requires Accepts(r, j) && r.actions[j].TxVote? && r.actions[j].val == v
    requires PeriodAt(r, k) == PeriodAt(r, j)
    ensures v in At(r, k).store.prevotes ==>
              At(r, k).store.prevotes[v].submitBlock / r.protocol.votePeriod == PeriodAt(r, k)
    decreases k
  {
    hide At, EndBlockOutcome, ValidRun, FeederError, RevealLag;
    var s, a := StepAt(r, k);
    if j < k - 1 {
      RunningBefore(r, j, k - 1);
      RunningBefore(r, k - 1, k);
      RevealConsumes(r, j, k - 1, v);
      if a.EndBlock? {
        EndBlockFrame(r.protocol, s, a.block);
      } else if !TouchesPrevote(a, v) {
        TxFrame(r.protocol, s, a, v);
      }
    }
  }

  /** No validator reveals twice in one vote period. */
  lemma RevealsOncePerPeriod(r: Run, j: nat, k: nat, v: string)
    requires ValidRun(r) && j < k < |r.actions|
    requires Accepts(r, j) && r.actions[j].TxVote? && r.actions[j].val == v
    requires Accepts(r, k) && r.actions[k].TxVote? && r.actions[k].val == v
    ensures PeriodAt(r, j) < PeriodAt(r, k)
  {
    hide At, ValidRun;
    RunningBefore(r, j, k);
    if PeriodAt(r, j) == PeriodAt(r, k) {
      RevealConsumes(r, j, k, v);
      LagIsOne(r, k, v);
    }
  }

  /**
   * A commitment is never lost: through the period after it was made it stays in the store, unless
   * the validator itself committed or revealed again.
   */
  lemma {:induction false} CommitmentSurvives(r: Run, i: nat, k: nat, v: string, hash: string)
    requires ValidRun(r) && i < k <= |r.actions| && At(r, k).Running? && Commits(r, i, v, hash)
    requires Untouched(r, i, k, v)
    requires PeriodAt(r, k) <= PeriodAt(r, i) + 1
    ensures v in At(r, k).store.prevotes
    ensures At(r, k).store.prevotes[v] == Prevote(hash, At(r, i).store.height)
    decreases k
  {
    hide At, EndBlockOutcome, ValidRun, FeederError, RevealLag;
    var s, a := StepAt(r, k);
    if i < k - 1 {
      RunningBefore(r, k - 1, k);
      CommitmentSurvives(r, i, k - 1, v, hash);
      assert !(Accepts(r, k - 1) && TouchesPrevote(r.actions[k - 1], v));
      if a.EndBlock? {
        EndBlockFrame(r.protocol, s, a.block);
        if PeriodLast(s.height, r.protocol.votePeriod) {
          KeptWhileRevealable(r.protocol, s, v);
        }
      } else {
        TxFrame(r.protocol, s, a, v);
      }
    }
  }

  predicate TouchesPrevote(a: Action, v: string) {
    (a.TxPrevote? || a.TxVote?) && a.val == v
  }

  /** A prevote cleared at the end of a period can no longer be revealed at any later height. */
  lemma ClearedIsUnrevealable(p: Protocol, s: Store, v: string, later: nat)
    requires p.votePeriod > 0 && PeriodLast(s.height, p.votePeriod)
    requires v in s.prevotes && v !in KeptPrevotes(p, s) && later > s.height
    ensures later / p.votePeriod - s.prevotes[v].submitBlock / p.votePeriod >= 2
  {
    var submitted := s.prevotes[v].submitBlock;
    NextPeriod(s.height, p.votePeriod);
    Dec.DivMonotone(s.height + 1, later, p.votePeriod);
    LastOfPeriod(s.height, submitted, p.votePeriod);
  }

  /** Before the last block of period q, shifted back one period, only periods below q remain. */
  lemma LastOfPeriod(height: nat, submitted: nat, period: nat)
    requires period > 0 && PeriodLast(height, period) && height > submitted + period
    ensures submitted / period + 2 <= (height + 1) / period
  {
    Dec.DivMonotone(submitted + period, height, period);
    ShiftPeriod(submitted, period);
    NextPeriod(height, period);
  }

  /** A prevote whose next period has not passed survives the clearing. */
  lemma KeptWhileRevealable(p: Protocol, s: Store, v: string)
    requires p.votePeriod > 0 && v in s.prevotes && PeriodLast(s.height, p.votePeriod)
    requires (s.height + 1) / p.votePeriod <= s.prevotes[v].submitBlock / p.votePeriod + 1
    ensures v in KeptPrevotes(p, s)
  {
    if s.height > s.prevotes[v].submitBlock + p.votePeriod {
      LastOfPeriod(s.height, s.prevotes[v].submitBlock, p.votePeriod);
    }
  }

  // ---------- vote targets ----------

  /** In every run each denom in a stored vote is a current vote target. */
  lemma {:induction false} VotesAreOnTargets(r: Run, k: nat, v: string, t: Tuple)
    requires ValidRun(r) && k <= |r.actions| && At(r, k).Running?
    requires v in At(r, k).store.votes && t in At(r, k).store.votes[v]
    ensures t.denom in At(r, k).store.taxes
  {
    hide EndBlockOutcome;
    assert k > 0;
    var a, s := r.actions[k - 1], At(r, k - 1).store;
    assert a in r.actions;
    if Accepts(r, k - 1) && a.TxVote? && a.val == v {
    } else {
      if a.EndBlock? {
        EndBlockFrame(r.protocol, s, a.block);
      }
      VotesAreOnTargets(r, k - 1, v, t);
    }
  }

  /** So the tally never meets a ballot for a denom that is not a target. */
  lemma BallotsAreOnTargets(r: Run, k: nat, b: Block, d: string)
    requires ValidRun(r) && k <= |r.actions| && At(r, k).Running?
    requires d in RoundOf(At(r, k).store, b).ballots
    ensures d in RoundOf(At(r, k).store, b).targets
  {
    var s := At(r, k).store;
    var v, t :| v in s.votes && v in BlockClaims(b) && t in s.votes[v] && t.denom == d;
    VotesAreOnTargets(r, k, v, t);
  }
}
