/** Slashing of validators that missed too many vote periods (x/oracle/keeper/slash.go). */
module Slash {
  import opened Outcome
  import opened Words
  import Dec

  function PeriodsPerWindow(window: int, period: int): int
    requires period > 0
  {
    Dec.TruncateInt(Dec.QuoInt(window * Dec.ONE, period))
  }

  /** The rate of periods voted in; the subtraction is unsigned and reinterpreted as signed. */
  function ValidVoteRate(periods: int, misses: nat): int
    requires periods > 0
  {
    Dec.QuoInt(AsInt64(AsUint64(periods - misses)) * Dec.ONE, periods)
  }

  predicate BelowThreshold(periods: int, misses: nat, minValid: int)
    requires periods > 0
  {
    ValidVoteRate(periods, misses) < minValid
  }

  lemma PeriodsPerWindowIs(window: int, period: int)
    requires window >= 0 && period > 0
    ensures PeriodsPerWindow(window, period) == window / period
  {
    var q, r := window / period, window % period;
    Dec.DivBounds(window, period);
    var t := window * Dec.ONE / period;
    Dec.DivAntitone(window * Dec.ONE, period, period);
    Dec.DivBounds(window * Dec.ONE, period);
    assert q * Dec.ONE * period == (q * period) * Dec.ONE;
    assert (q + 1) * Dec.ONE * period == (q * period + period) * Dec.ONE;
    if t < q * Dec.ONE {
      Dec.MulLe(t + 1, q * Dec.ONE, period);
    }
    if t >= (q + 1) * Dec.ONE {
      Dec.MulLe((q + 1) * Dec.ONE, t, period);
    }
  }

  /** Wrapping around and reading the word as signed gives the true difference. */
  lemma WrapIsHarmless(periods: int, misses: nat)
    requires 0 < periods < TWO63 && misses <= periods + 1
    ensures AsInt64(AsUint64(periods - misses)) == periods - misses
  {
  }

  /** Truncating the rate changes no verdict, even when the counter exceeds the periods by one. */
  lemma VerdictIsExact(periods: int, misses: nat, minValid: int)
    requires 0 < periods <= Dec.ONE && misses <= periods + 1 && minValid >= 0
    ensures BelowThreshold(periods, misses, minValid) <==> (periods - misses) * Dec.ONE < minValid * periods
  {
    WrapIsHarmless(periods, misses);
    var x := (periods - misses) * Dec.ONE;
    if misses <= periods {
      Dec.DivBounds(x, periods);
      var q := x / periods;
      if q < minValid {
        Dec.MulLe(q + 1, minValid, periods);
      } else {
        Dec.MulLe(minValid, q, periods);
      }
    } else {
      Dec.DivBounds(Dec.ONE, periods);
      if Dec.ONE / periods <= 0 {
        Dec.MulLe(Dec.ONE / periods, 0, periods);
      }
      Dec.MulLe2(minValid, 0, periods);
    }
  }

  // ---------- the outcome of a slash check ----------

  ghost function Below(misses: map<string, nat>, periods: int, minValid: int): set<string>
    requires periods > 0
  {
    set v | v in misses && BelowThreshold(periods, misses[v], minValid)
  }

  /**
   * A validator below the threshold that staking does not know halts the chain, and so does any counter
   * when the window has no period to divide by.
   */
  ghost function SlashOutcome(misses: map<string, nat>, periods: int, minValid: int, known: set<string>,
                              active: set<string>): Halting<set<string>>
    requires periods >= 0
  {
    if periods == 0 then if misses == map[] then Ok({}) else Err(DivisionByZero)
    else if Below(misses, periods, minValid) <= known then Ok(Below(misses, periods, minValid) * active)
    else Err(MissingValidator)
  }
}
