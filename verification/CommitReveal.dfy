/**
 * Exactly which messages are accepted in a run, and exactly which votes are there to be tallied
 * (x/oracle/keeper/msg_server.go), on the actions of the run.
 */
module CommitReveal {
  import opened Outcome
  import opened Organize
  import opened OracleStore
  import opened OracleRuns
  import Dec

  /** A commitment is accepted exactly when it is authorized and its hash can be decoded. */
  lemma CommitIsAcceptedIff(r: Run, k: nat)
    requires ValidRun(r) && k < |r.actions| && At(r, k).Running? && r.actions[k].TxPrevote?
    ensures Accepts(r, k) <==> Authorized(r, k) && r.protocol.decode(r.actions[k].hash).Some?
  {
    hide At, ValidRun, FeederError, Authorized;
    FeederErrorIff(r, k);
  }

  /** A feeder is named exactly for validators staking knows. */
  lemma DelegateIsAcceptedIff(r: Run, k: nat)
    requires ValidRun(r) && k < |r.actions| && At(r, k).Running? && r.actions[k].TxDelegate?
    ensures Accepts(r, k) <==> r.actions[k].operator in r.actions[k].known
  {
    hide At, ValidRun;
  }

  /** Action `i` is the last commitment of `v` before action `k`, and it has not been revealed. */
  ghost predicate LastCommit(r: Run, i: nat, k: nat, v: string, hash: string)
    requires ValidRun(r) && k <= |r.actions|
  {
    i < k && Commits(r, i, v, hash) && Untouched(r, i, k, v)
  }

  /** The action before `k` that committed `v` to `hash`, in the vote period before the one of `k`. */
  ghost predicate Owed(r: Run, k: nat, v: string, hash: string)
    requires ValidRun(r) && k <= |r.actions| && At(r, k).Running?
  {
    exists i :: LastCommit(r, i, k, v, hash) && PeriodAt(r, i) + 1 == PeriodAt(r, k)
  }

  lemma OwedIff(r: Run, k: nat, v: string, hash: string)
    requires ValidRun(r) && k <= |r.actions| && At(r, k).Running?
    ensures Owed(r, k, v, hash) <==>
            && v in At(r, k).store.prevotes && At(r, k).store.prevotes[v].hash == hash
            && RevealLag(r.protocol, At(r, k).store.height, At(r, k).store.prevotes[v].submitBlock) == 1
  {
    hide At, ValidRun, Untouched, RevealLag;
    if Owed(r, k, v, hash) {
      var i :| LastCommit(r, i, k, v, hash) && PeriodAt(r, i) + 1 == PeriodAt(r, k);
      CommitmentSurvives(r, i, k, v, hash);
      LagIsOne(r, k, v);
    }
    if v in At(r, k).store.prevotes && At(r, k).store.prevotes[v].hash == hash {
      var i := PrevoteOrigin(r, k, v);
      LagIsOne(r, k, v);
      assert LastCommit(r, i, k, v, hash);
    }
  }

  /**
   * A reveal is accepted exactly when it is authorized, can be parsed, is about vote targets only, and
   * hashes to what was last committed for the validator in the period before.
   */
  lemma RevealIsAcceptedIff(r: Run, k: nat)
    requires ValidRun(r) && k < |r.actions| && At(r, k).Running? && r.actions[k].TxVote?
    ensures var a := r.actions[k];
            Accepts(r, k) <==>
            && Authorized(r, k)
            && r.protocol.parse(a.rates).Some?
            && (forall t :: t in r.protocol.parse(a.rates).value ==> t.denom in At(r, k).store.taxes)
            && Owed(r, k, a.val, r.protocol.hash(a.salt, a.rates, a.val))
  {
    hide At, ValidRun, FeederError, Authorized, Owed, RevealLag;
    FeederErrorIff(r, k);
    var a := r.actions[k];
    OwedIff(r, k, a.val, r.protocol.hash(a.salt, a.rates, a.val));
  }

  lemma OtherVotesStay(p: Protocol, s: Store, a: Action, v: string)
    requires p.votePeriod > 0 && !a.EndBlock? && v in s.votes
    requires !(a.TxVote? && a.val == v && ApplyTx(p, s, a).Accepted?)
    ensures ApplyTx(p, s, a).Accepted? ==>
              v in ApplyTx(p, s, a).store.votes && ApplyTx(p, s, a).store.votes[v] == s.votes[v]
  {
    hide FeederError, RevealLag;
  }

  lemma RevealIsStored(r: Run, j: nat, v: string, hash: string, tuples: seq<Tuple>)
    requires ValidRun(r) && Reveals(r, j, v, hash, tuples)
    ensures At(r, j + 1).Running? && v in At(r, j + 1).store.votes && At(r, j + 1).store.votes[v] == tuples
  {
    hide FeederError, RevealLag, EndBlockOutcome;
  }

  /** What was revealed stays as it is to the end of the period. */
  lemma {:induction false} RevealSurvives(r: Run, j: nat, k: nat, v: string, hash: string, tuples: seq<Tuple>)
    requires ValidRun(r) && j < k <= |r.actions| && At(r, k).Running? && Reveals(r, j, v, hash, tuples)
    requires PeriodAt(r, k) == PeriodAt(r, j)
    ensures v in At(r, k).store.votes && At(r, k).store.votes[v] == tuples
    decreases k
  {
    hide At, ValidRun, EndBlockOutcome, ApplyTx;
    if j == k - 1 {
      RevealIsStored(r, j, v, hash, tuples);
    } else {
      var s, a := StepAt(r, k);
      RunningBefore(r, j, k - 1);
      RunningBefore(r, k - 1, k);
      RevealSurvives(r, j, k - 1, v, hash, tuples);
      if a.EndBlock? {
        EndBlockFrame(r.protocol, s, a.block);
        NextPeriod(s.height, r.protocol.votePeriod);
      } else if a.TxVote? && a.val == v && Accepts(r, k - 1) {
        RevealsOncePerPeriod(r, j, k - 1, v);
      } else {
        OtherVotesStay(r.protocol, s, a, v);
      }
    }
  }

  /** The votes a tally meets are exactly the accepted reveals of its period. */
  lemma StoredVotesIff(r: Run, k: nat, v: string, tuples: seq<Tuple>)
    requires ValidRun(r) && k <= |r.actions| && At(r, k).Running?
    ensures (v in At(r, k).store.votes && At(r, k).store.votes[v] == tuples) <==>
            exists j: nat, hash :: j < k && Reveals(r, j, v, hash, tuples) && PeriodAt(r, j) == PeriodAt(r, k)
  {
    hide At, ValidRun, Authorized, Untouched, Commits;
    if v in At(r, k).store.votes && At(r, k).store.votes[v] == tuples {
      var i, j, hash := VoteOrigin(r, k, v);
      assert Reveals(r, j, v, hash, tuples);
    }
    if j: nat, hash :| j < k && Reveals(r, j, v, hash, tuples) && PeriodAt(r, j) == PeriodAt(r, k) {
      RevealSurvives(r, j, k, v, hash, tuples);
    }
  }
}
