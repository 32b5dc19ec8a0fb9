/**
 * Miss counters over whole runs: how they grow, how large they can be when a slash window closes,
 * and when the unsigned subtraction of the slash check can wrap around.
 */
module MissCounters {
  import opened Outcome
  import opened Tally
  import opened VoteRound
  import opened RoundLaws
  import opened Orders
  import opened Organize
  import opened OracleStore
  import opened OracleKeeper
  import opened OracleRuns
  import Dec
  import Reward
  import Slash
  import W = Whitelist

  /** Tallies so far in the slash window that contains `height`, not counting this block's. */
  function Tallies(p: Protocol, height: nat): int
    requires 0 < p.votePeriod && 0 < p.slashWindow
  {
    height / p.votePeriod - (height - height % p.slashWindow) / p.votePeriod
  }

  /** The counters the slash check of a block looks at. */
  ghost function MissesAtCheck(p: Protocol, s: Store, b: Block): map<string, nat>
    requires 0 < p.votePeriod && b.rewardWindow > 0 && TallyIfDue(p, s, b).Ok?
  {
    TallyIfDue(p, s, b).value.store.misses
  }

  /** A period adds one miss, exactly to the validators that won fewer ballots than there are targets. */
  lemma MissExactlyWhenBelow(p: Protocol, s: Store, b: Block, x: string)
    requires ValidStore(s) && ValidProtocol(p) && ValidBlock(b) && PeriodOutcome(p, s, b).Ok?
    ensures var t := TallyOutcome(RoundOf(s, b)).value;
            MissesOf(PeriodOutcome(p, s, b).value.store.misses, x) == MissesOf(s.misses, x) +
              (if x in t.claims && t.claims[x].winCount < |t.targets| then 1 else 0)
  {
    hide TallyOutcome, RoundOf, Reward.RewardOutcome, W.NewTaxes;
    var r := RoundOf(s, b);
    var t := TallyOutcome(r).value;
    RoundIsProper(s, b);
    TalliedKeys(r);
    if x in t.claims {
      ClaimsStayBounded(r, x);
    }
  }

  lemma TallyAddsAtMostOne(p: Protocol, s: Store, b: Block, x: string)
    requires ValidStore(s) && ValidProtocol(p) && ValidBlock(b) && TallyIfDue(p, s, b).Ok?
    ensures MissesOf(MissesAtCheck(p, s, b), x) <=
            MissesOf(s.misses, x) + (if PeriodLast(s.height, p.votePeriod) then 1 else 0)
  {
    hide PeriodOutcome;
    if PeriodLast(s.height, p.votePeriod) {
      MissExactlyWhenBelow(p, s, b, x);
    }
  }

  /** An end of block forgets all counters when the window closes and keeps them otherwise. */
  lemma CountersAfterBlock(p: Protocol, s: Store, b: Block)
    requires ValidProtocol(p) && ValidBlock(b) && EndBlockOutcome(p, s, b).Ok?
    ensures TallyIfDue(p, s, b).Ok?
    ensures EndBlockOutcome(p, s, b).value.store.misses ==
            if PeriodLast(s.height, p.slashWindow) then map[] else MissesAtCheck(p, s, b)
  {
    hide TallyIfDue, Slash.SlashOutcome;
  }

  // ---------- counting tallies ----------

  lemma WindowStart(height: nat, window: nat)
    requires window > 0
    ensures var start := height - height % window;
            && start >= 0 && start % window == 0
            && (PeriodLast(height, window) ==> height + 1 == start + window && (height + 1) % window == 0)
            && (!PeriodLast(height, window) ==> (height + 1) - (height + 1) % window == start)
  {
    var q, rest := height / window, height % window;
    Dec.DivBounds(height, window);
    Dec.DivUnique(height - rest, window, q, 0);
    if rest + 1 < window {
      Dec.DivUnique(height + 1, window, q, rest + 1);
    } else {
      assert height + 1 == (q + 1) * window;
      Dec.DivUnique(height + 1, window, q + 1, 0);
    }
  }

  lemma TalliesNext(p: Protocol, height: nat)
    requires 0 < p.votePeriod && 0 < p.slashWindow
    ensures 0 <= Tallies(p, height)
    ensures var due := if PeriodLast(height, p.votePeriod) then 1 else 0;
            && (PeriodLast(height, p.slashWindow) ==> Tallies(p, height + 1) == 0)
            && (!PeriodLast(height, p.slashWindow) ==> Tallies(p, height + 1) == Tallies(p, height) + due)
  {
    WindowStart(height, p.slashWindow);
    NextPeriod(height, p.votePeriod);
    Dec.DivMonotone(height - height % p.slashWindow, height, p.votePeriod);
  }

  /** In every run a counter is at most the number of tallies since its window opened. */
  lemma {:induction false} MissBound(r: Run, k: nat, x: string)
    requires ValidRun(r) && k <= |r.actions| && At(r, k).Running?
    ensures MissesOf(At(r, k).store.misses, x) <= Tallies(r.protocol, At(r, k).store.height)
  {
    hide Tallies, TallyIfDue, EndBlockOutcome, PrevoteTx, VoteTx;
    var p := r.protocol;
    if k == 0 {
      TalliesNext(p, r.start.height);
    } else {
      var s, a := StepAt(r, k);
      MissBound(r, k - 1, x);
      if a.EndBlock? {
        StoresStayValid(r, k - 1);
        EndBlockFrame(p, s, a.block);
        CountersAfterBlock(p, s, a.block);
        TallyAddsAtMostOne(p, s, a.block, x);
        TalliesNext(p, s.height);
      } else {
        TxKeepsMisses(p, s, a);
      }
    }
  }

  lemma TxKeepsMisses(p: Protocol, s: Store, a: Action)
    requires p.votePeriod > 0 && !a.EndBlock?
    ensures ApplyTx(p, s, a).Accepted? ==> ApplyTx(p, s, a).store.misses == s.misses
  {
  }

  /** A window of `length` blocks holds at most one tally more than the whole periods in it. */
  lemma TalliesInWindow(start: nat, length: nat, period: nat)
    requires period > 0
    ensures (start + length) / period - start / period <= length / period + 1
    ensures length % period == 0 ==> (start + length) / period - start / period == length / period
  {
    Dec.DivBounds(start, period);
    Dec.DivBounds(length, period);
    var q, q', rest := start / period, length / period, start - (start / period) * period + length % period;
    assert start + length == (q + q') * period + rest;
    if rest < period {
      Dec.DivUnique(start + length, period, q + q', rest);
    } else {
      assert (q + q' + 1) * period == (q + q') * period + period;
      Dec.DivUnique(start + length, period, q + q' + 1, rest - period);
    }
  }

  /**
   * When a window closes, every counter is at most the number of vote periods in the window if the
   * period divides the window, and exceeds it by at most one otherwise.
   */
  lemma CheckBound(r: Run, k: nat, b: Block, x: string)
    requires ValidRun(r) && k <= |r.actions| && At(r, k).Running? && ValidBlock(b)
    requires PeriodLast(At(r, k).store.height, r.protocol.slashWindow)
    requires TallyIfDue(r.protocol, At(r, k).store, b).Ok?
    ensures var m := MissesOf(MissesAtCheck(r.protocol, At(r, k).store, b), x);
            && m <= Periods(r.protocol) + 1
            && (r.protocol.slashWindow % r.protocol.votePeriod == 0 ==> m <= Periods(r.protocol))
  {
    hide At, TallyIfDue, Periods;
    var p, s := r.protocol, At(r, k).store;
    StoresStayValid(r, k);
    MissBound(r, k, x);
    TallyAddsAtMostOne(p, s, b, x);
    WindowStart(s.height, p.slashWindow);
    NextPeriod(s.height, p.votePeriod);
    TalliesInWindow(s.height - s.height % p.slashWindow, p.slashWindow, p.votePeriod);
  }

  /** Whatever the parameters, a validator is judged by its exact ratio of missed periods. */
  lemma SlashVerdict(r: Run, k: nat, b: Block, x: string)
    requires ValidRun(r) && k <= |r.actions| && At(r, k).Running? && ValidBlock(b)
    requires PeriodLast(At(r, k).store.height, r.protocol.slashWindow)
    requires TallyIfDue(r.protocol, At(r, k).store, b).Ok?
    requires 0 < Periods(r.protocol) <= Dec.ONE && b.minValid >= 0
    ensures var n := Periods(r.protocol);
            var m := MissesOf(MissesAtCheck(r.protocol, At(r, k).store, b), x);
            Slash.BelowThreshold(n, m, b.minValid) <==> (n - m) * Dec.ONE < b.minValid * n
  {
    hide At, TallyIfDue, Periods, Slash.BelowThreshold;
    CheckBound(r, k, b, x);
    Slash.VerdictIsExact(Periods(r.protocol), MissesOf(MissesAtCheck(r.protocol, At(r, k).store, b), x), b.minValid);
  }

  lemma SlashedByOutcome(p: Protocol, s: Store, b: Block)
    requires ValidProtocol(p) && ValidBlock(b) && EndBlockOutcome(p, s, b).Ok?
    ensures TallyIfDue(p, s, b).Ok?
    ensures var slashed, misses := EndBlockOutcome(p, s, b).value.slashed, MissesAtCheck(p, s, b);
            if !PeriodLast(s.height, p.slashWindow) then slashed == {}
            else if Periods(p) == 0 then slashed == {} && misses == map[]
            else slashed == Slash.Below(misses, Periods(p), b.minValid) * b.active
  {
    hide PeriodOutcome, PeriodLast, Slash.Below, Periods;
    NobodyBeforeCheck(p, s, b);
  }

  lemma NobodyBeforeCheck(p: Protocol, s: Store, b: Block)
    requires 0 < p.votePeriod && b.rewardWindow > 0 && TallyIfDue(p, s, b).Ok?
    ensures TallyIfDue(p, s, b).value.slashed == {}
  {
    hide TallyOutcome, Reward.RewardOutcome, RoundOf, W.Unregistrable, OracleStore.Settled;
  }

  /**
   * Over runs, an end of block slashes exactly the active validators whose counter, when a window closes, leaves
   * them below the least ratio of periods voted in.
   */
  lemma SlashedExactly(r: Run, k: nat, b: Block, x: string)
    requires ValidRun(r) && k <= |r.actions| && At(r, k).Running? && ValidBlock(b)
    requires EndBlockOutcome(r.protocol, At(r, k).store, b).Ok?
    requires Periods(r.protocol) <= Dec.ONE && b.minValid >= 0
    ensures TallyIfDue(r.protocol, At(r, k).store, b).Ok?
    ensures var s, n := At(r, k).store, r.protocol.slashWindow / r.protocol.votePeriod;
            var misses := MissesAtCheck(r.protocol, s, b);
            x in EndBlockOutcome(r.protocol, s, b).value.slashed <==>
            && (s.height + 1) % r.protocol.slashWindow == 0
            && x in misses && (n - misses[x]) * Dec.ONE < b.minValid * n
            && x in b.active
  {
    hide At, TallyIfDue, EndBlockOutcome, Slash.BelowThreshold;
    var s := At(r, k).store;
    SlashedByOutcome(r.protocol, s, b);
    if PeriodLast(s.height, r.protocol.slashWindow) && Periods(r.protocol) > 0 {
      SlashVerdict(r, k, b, x);
    }
  }

  // ---------- the divisibility condition is exact ----------

  /** No slash check of any run meets a counter above the number of periods in the window. */
  ghost predicate NeverWraps(p: Protocol)
    requires ValidProtocol(p)
  {
    forall r: Run, k: nat, b: Block, x: string ::
      r.protocol == p && WindowCloses(r, k, b) ==> MissesOf(MissesAtCheck(p, At(r, k).store, b), x) <= Periods(p)
  }

  ghost predicate WindowCloses(r: Run, k: nat, b: Block) {
    && ValidRun(r) && k <= |r.actions| && At(r, k).Running? && ValidBlock(b)
    && PeriodLast(At(r, k).store.height, r.protocol.slashWindow)
    && TallyIfDue(r.protocol, At(r, k).store, b).Ok?
  }

  ghost function SilentBlock(): Block {
    Block([Validator("val", 1, true)], 1, 1, 0, 0, 1, [W.Target("ukrw", 0)], 0, {"val"}, {}, (x: int) => 0)
  }

  ghost function SilentCounter(t: nat): map<string, nat> {
    if t == 0 then map[] else map["val" := t]
  }

  ghost function SilentStore(height: nat, t: nat): Store {
    Store(height, map[], map["ukrw" := 0], SilentCounter(t), map[], map[], map[], map[], {})
  }

  /** One validator, one target, and nobody ever votes. */
  ghost function SilentRun(p: Protocol, n: nat): Run {
    Run(p, SilentStore(0, 0), seq(n, i => EndBlock(SilentBlock())))
  }

  lemma SilentTally(height: nat, t: nat)
    ensures var claims := map["val" := Claim(1, 0, 0, "val")];
            TallyOutcome(RoundOf(SilentStore(height, t), SilentBlock())) == Ok(Tallied(map[], claims, map["ukrw" := 0]))
  {
    var s, b := SilentStore(height, t), SilentBlock();
    assert b.validators[1..] == [];
    assert BlockClaims(b) == map["val" := Claim(1, 0, 0, "val")];
    assert HeardDenoms(s.votes, BlockClaims(b)) == {};
    assert Passing(RoundOf(s, b)) == {};
    assert SurvivingTargets(s.taxes, map[], ThresholdVotes(b)) == s.taxes;
  }

  lemma SilentReward(p: Protocol, height: nat, t: nat)
    ensures var tallied := Tallied(map[], map["val" := Claim(1, 0, 0, "val")], map["ukrw" := 0]);
            Reward.RewardOutcome(RewardInput(p, SilentStore(height, t), SilentBlock(), tallied)) ==
                Ok(Reward.Payout(map[], map[]))
  {
    var winners := map["val" := Claim(1, 0, 0, "val")];
    assert winners.Keys == {"val"};
    SumSetConstant({"val"}, Reward.WeightOf(winners), 0);
  }

  lemma SilentMiss(t: nat)
    ensures CountMisses(SilentCounter(t), Missed(map["val" := Claim(1, 0, 0, "val")], 1)) == SilentCounter(t + 1)
  {
    assert Missed(map["val" := Claim(1, 0, 0, "val")], 1) == {"val"};
  }

  lemma SilentTaxes()
    ensures !W.UpdateRequired(map["ukrw" := 0], SilentBlock().whitelist)
  {
    assert forall t :: t in SilentBlock().whitelist ==> !W.Differs(map["ukrw" := 0], t);
  }

  lemma SilentSettled(p: Protocol, height: nat, t: nat)
    ensures var tallied := Tallied(map[], map["val" := Claim(1, 0, 0, "val")], map["ukrw" := 0]);
            Settled(p, SilentStore(height, t), SilentBlock(), tallied, map[]) == SilentStore(height, t + 1)
  {
    hide CountMisses, Missed, W.UpdateRequired, SilentCounter;
    SilentMiss(t);
    SilentTaxes();
    assert KeptPrevotes(p, SilentStore(height, t)) == map[];
  }

  lemma SilentPeriod(p: Protocol, height: nat, t: nat)
    ensures PeriodOutcome(p, SilentStore(height, t), SilentBlock()) ==
            Ok(Ended(SilentStore(height, t + 1), map[], {}))
  {
    hide TallyOutcome, RoundOf, Reward.RewardOutcome, Settled, SilentStore, W.UpdateRequired;
    SilentTally(height, t);
    SilentTaxes();
    SilentReward(p, height, t);
    SilentSettled(p, height, t);
  }

  ghost function Due(p: Protocol, height: nat): nat
    requires p.votePeriod > 0
  {
    if PeriodLast(height, p.votePeriod) then 1 else 0
  }

  /** The check divides by the number of periods as soon as there is a counter. */
  lemma SilentBlockEnds(p: Protocol, height: nat, t: nat)
    requires ValidProtocol(p)
    ensures var s, closes := SilentStore(height, t), PeriodLast(height, p.slashWindow);
            var out, count := EndBlockOutcome(p, s, SilentBlock()), t + Due(p, height);
            && TallyIfDue(p, s, SilentBlock()) == Ok(Ended(SilentStore(height, count), map[], {}))
            && (closes && Periods(p) == 0 && count > 0 ==> out == Err(DivisionByZero))
            && (!(closes && Periods(p) == 0 && count > 0) ==>
                  out.Ok? && out.value.store == SilentStore(height, if closes then 0 else count))
  {
    hide PeriodOutcome, Slash.BelowThreshold;
    SilentPeriod(p, height, t);
    var count := t + Due(p, height);
    assert count > 0 ==> "val" in SilentCounter(count);
  }

  /** With a window shorter than a period, the last block of the first window that contains a tally. */
  function FirstCheck(p: Protocol): nat
    requires ValidProtocol(p)
  {
    (p.votePeriod - 1) / p.slashWindow * p.slashWindow + p.slashWindow - 1
  }

  /** Every window that closes earlier has no tally in it. */
  lemma NoTallyBefore(p: Protocol, k: nat)
    requires ValidProtocol(p) && p.slashWindow < p.votePeriod && k < FirstCheck(p) && PeriodLast(k, p.slashWindow)
    ensures Tallies(p, k) == 0 && Due(p, k) == 0
  {
    var w, j, i := p.slashWindow, (p.votePeriod - 1) / p.slashWindow, (k + 1) / p.slashWindow;
    Dec.DivBounds(p.votePeriod - 1, w);
    Dec.DivBounds(k + 1, w);
    if i > j {
      Dec.MulLe(j + 1, i, w);
    } else {
      Dec.MulLe(i, j, w);
    }
    WindowStart(k, w);
    Dec.DivUnique(k, p.votePeriod, 0, k);
    Dec.DivUnique(k + 1, p.votePeriod, 0, k + 1);
    Dec.DivUnique(k - k % w, p.votePeriod, 0, k - k % w);
  }

  /** No slash check of the first `n` blocks divides by zero. */
  ghost predicate Quiet(p: Protocol, n: nat)
    requires ValidProtocol(p)
  {
    p.votePeriod <= p.slashWindow || n <= FirstCheck(p)
  }

  lemma {:induction false} SilentAt(p: Protocol, n: nat, k: nat)
    requires ValidProtocol(p) && k <= n && Quiet(p, n)
    ensures ValidRun(SilentRun(p, n)) && Tallies(p, k) >= 0
    ensures At(SilentRun(p, n), k) == Running(SilentStore(k, Tallies(p, k)))
  {
    hide Tallies, SilentStore, EndBlockOutcome, ValidRun;
    var r := SilentRun(p, n);
    SilentIsValid(p, n);
    TalliesNext(p, k);
    if k == 0 {
      NoTallies(p);
    } else {
      SilentAt(p, n, k - 1);
      SilentStep(p, k - 1);
      assert At(r, k) == Step(p, At(r, k - 1).store, r.actions[k - 1]);
    }
  }

  lemma SilentStep(p: Protocol, k: nat)
    requires ValidProtocol(p) && Quiet(p, k + 1)
    ensures Tallies(p, k) >= 0 && Tallies(p, k + 1) >= 0
    ensures Step(p, SilentStore(k, Tallies(p, k)), EndBlock(SilentBlock())) ==
        Running(SilentStore(k + 1, Tallies(p, k + 1)))
  {
    hide Tallies, EndBlockOutcome, SilentStore, TallyIfDue, DistinctDenoms, FirstCheck;
    TalliesNext(p, k);
    TalliesNext(p, k + 1);
    if p.slashWindow < p.votePeriod && PeriodLast(k, p.slashWindow) {
      NoTallyBefore(p, k);
    }
    SilentBlockEnds(p, k, Tallies(p, k));
    SilentHeight(k, Tallies(p, k));
    SilentHeight(k, Tallies(p, k + 1));
  }

  lemma SilentIsValid(p: Protocol, n: nat)
    requires ValidProtocol(p)
    ensures ValidRun(SilentRun(p, n))
  {
    var list := SilentBlock().whitelist;
    assert forall t :: t in list ==> t == W.Target("ukrw", 0);
  }

  lemma NoTallies(p: Protocol)
    requires 0 < p.votePeriod && 0 < p.slashWindow
    ensures Tallies(p, 0) == 0
  {
    Dec.DivUnique(0, p.slashWindow, 0, 0);
  }

  lemma SilentHeight(height: nat, t: nat)
    ensures SilentStore(height, t).height == height
    ensures SilentStore(height, t).(height := height + 1) == SilentStore(height + 1, t)
  {
  }

  lemma OneMore(m: nat, x: nat)
    requires m > 0
    ensures (m - 1) * x >= 0 && m * x == (m - 1) * x + x
  {
  }

  /** Some window holds one tally more than its whole periods when the period does not divide it. */
  lemma {:induction false} LongWindow(window: nat, period: nat, quotient: nat, m: nat) returns (j: nat)
    requires period > 0 && (m * window) / period > m * quotient
    ensures j * window >= 0 && (j * window + window) / period - (j * window) / period > quotient
  {
    if m == 0 {
      Dec.DivUnique(0, period, 0, 0);
      j := 0;
    } else {
      OneMore(m, window);
      OneMore(m, quotient);
      if (m * window) / period - ((m - 1) * window) / period > quotient {
        j := m - 1;
      } else {
        j := LongWindow(window, period, quotient, m - 1);
      }
    }
  }

  lemma FirstTallied(p: Protocol) returns (j: nat)
    requires ValidProtocol(p) && p.slashWindow < p.votePeriod
    ensures j * p.slashWindow >= 0 && j * p.slashWindow + p.slashWindow - 1 == FirstCheck(p)
    ensures (j * p.slashWindow + p.slashWindow) / p.votePeriod -
        (j * p.slashWindow) / p.votePeriod > p.slashWindow / p.votePeriod
  {
    j := (p.votePeriod - 1) / p.slashWindow;
    var start := j * p.slashWindow;
    Dec.DivBounds(p.votePeriod - 1, p.slashWindow);
    Dec.DivUnique(start, p.votePeriod, 0, start);
    Dec.DivUnique(p.slashWindow, p.votePeriod, 0, p.slashWindow);
    Dec.DivMonotone(p.votePeriod, start + p.slashWindow, p.votePeriod);
    Dec.DivUnique(p.votePeriod, p.votePeriod, 1, 0);
  }

  lemma IndivisibleWindow(p: Protocol) returns (j: nat)
    requires ValidProtocol(p) && p.slashWindow % p.votePeriod != 0
    ensures (j * p.slashWindow + p.slashWindow) / p.votePeriod -
        (j * p.slashWindow) / p.votePeriod > p.slashWindow / p.votePeriod
    ensures j * p.slashWindow >= 0 && Quiet(p, j * p.slashWindow + p.slashWindow - 1)
  {
    if p.slashWindow < p.votePeriod {
      j := FirstTallied(p);
      return;
    }
    Dec.DivExact(p.slashWindow, p.votePeriod);
    assert p.votePeriod * p.slashWindow == p.slashWindow * p.votePeriod;
    Dec.DivBounds(p.slashWindow, p.votePeriod);
    j := LongWindow(p.slashWindow, p.votePeriod, p.slashWindow / p.votePeriod, p.votePeriod);
  }

  /** The unsigned subtraction never wraps, in any run, if and only if the period divides the window. */
  lemma NeverWrapsIff(p: Protocol)
    requires ValidProtocol(p)
    ensures NeverWraps(p) <==> p.slashWindow % p.votePeriod == 0
  {
    hide At, TallyIfDue, Periods, EndBlockOutcome, ValidRun;
    if p.slashWindow % p.votePeriod == 0 {
      forall r: Run, k: nat, b: Block, x: string | r.protocol == p && WindowCloses(r, k, b)
        ensures MissesOf(MissesAtCheck(p, At(r, k).store, b), x) <= Periods(p)
      {
        CheckBound(r, k, b, x);
      }
    } else {
      var r, k := SilentOverflow(p);
      assert WindowCloses(r, k, SilentBlock());
    }
  }

  lemma SilentOverflow(p: Protocol) returns (r: Run, k: nat)
    requires ValidProtocol(p) && p.slashWindow % p.votePeriod != 0
    ensures r.protocol == p && WindowCloses(r, k, SilentBlock())
    ensures MissesOf(MissesAtCheck(p, At(r, k).store, SilentBlock()), "val") > Periods(p)
  {
    hide At, TallyIfDue, EndBlockOutcome, ValidRun, Quiet, SilentStore;
    var j := IndivisibleWindow(p);
    k := j * p.slashWindow + p.slashWindow - 1;
    r := SilentRun(p, k);
    SilentAt(p, k, k);
    ClosingCount(p, j);
    SilentCounts(p, k);
  }

  /** At the close of a window the silent counter is the number of tallies in it. */
  lemma ClosingCount(p: Protocol, j: nat)
    requires ValidProtocol(p) && j * p.slashWindow >= 0
    ensures var start := j * p.slashWindow;
            var k := start + p.slashWindow - 1;
            && PeriodLast(k, p.slashWindow) && Tallies(p, k) >= 0
            && Tallies(p, k) + Due(p, k) == (start + p.slashWindow) / p.votePeriod - start / p.votePeriod
  {
    var k := j * p.slashWindow + p.slashWindow - 1;
    TalliesNext(p, k);
    NextPeriod(k, p.votePeriod);
    assert k + 1 == (j + 1) * p.slashWindow;
    Dec.DivUnique(k + 1, p.slashWindow, j + 1, 0);
    Dec.DivUnique(k, p.slashWindow, j, p.slashWindow - 1);
  }

  lemma SilentCounts(p: Protocol, k: nat)
    requires ValidProtocol(p) && Tallies(p, k) >= 0
    ensures ValidBlock(SilentBlock()) && SilentStore(k, Tallies(p, k)).height == k
    ensures TallyIfDue(p, SilentStore(k, Tallies(p, k)), SilentBlock()).Ok?
    ensures MissesOf(MissesAtCheck(p, SilentStore(k, Tallies(p, k)), SilentBlock()), "val") == Tallies(p, k) + Due(p, k)
  {
    hide TallyIfDue, Tallies, EndBlockOutcome;
    SilentIsValid(p, 1);
    SilentBlockEnds(p, k, Tallies(p, k));
    var list := SilentBlock().whitelist;
    assert forall t :: t in list ==> t == W.Target("ukrw", 0);
  }

  // ---------- windows shorter than a period ----------

  /** In some run a slash check divides by zero. */
  ghost predicate SlashDivides(p: Protocol)
    requires ValidProtocol(p)
  {
    exists r: Run, k: nat, b: Block ::
      r.protocol == p && WindowCloses(r, k, b) && EndBlockOutcome(p, At(r, k).store, b) == Err(DivisionByZero)
  }

  /** The slash check can divide by zero if and only if the window is shorter than a vote period. */
  lemma SlashDividesIff(p: Protocol)
    requires ValidProtocol(p)
    ensures SlashDivides(p) <==> p.slashWindow < p.votePeriod
  {
    hide At, TallyIfDue, ValidRun, Quiet, SilentStore, Tallies, FirstCheck, SilentBlock;
    if p.slashWindow < p.votePeriod {
      var j := FirstTallied(p);
      var k := j * p.slashWindow + p.slashWindow - 1;
      assert Quiet(p, k) by { IsQuiet(p, k); }
      SilentAt(p, k, k);
      ClosingCount(p, j);
      SilentCounts(p, k);
      SilentBlockEnds(p, k, Tallies(p, k));
      assert WindowCloses(SilentRun(p, k), k, SilentBlock());
    }
  }

  lemma IsQuiet(p: Protocol, n: nat)
    requires ValidProtocol(p) && n <= FirstCheck(p)
    ensures Quiet(p, n)
  {
  }
}
