/**
 * The swap and decay rules of the market in exact arithmetic, where the constant-product design can
 * be judged without rounding: no run of swaps and blocks empties the virtual Terra pool.
 */
module ExactPool {
  import opened Denoms

  type Rates = map<string, real>

  datatype Event =
    | Traded(amount: real, offer: string, ask: string, rates: Rates)
    | BlockEnded(recoveryPeriod: int)

  function RateOf(rates: Rates, d: string): real {
    if d == ULUNA then 1.0 else if d in rates then rates[d] else 0.0
  }

  predicate ValidEvent(ev: Event) {
    match ev
    case Traded(amount, offer, ask, rates) =>
      amount > 0.0 && offer != ask && RateOf(rates, offer) > 0.0 && RateOf(rates, ask) > 0.0 &&
          RateOf(rates, USDR) > 0.0
    case BlockEnded(recoveryPeriod) => recoveryPeriod > 0
  }

  /** Conversion at oracle prices. */
  function Convert(rates: Rates, amount: real, from: string, to: string): real
    requires RateOf(rates, from) > 0.0
  {
    if from == to then amount else amount * RateOf(rates, to) / RateOf(rates, from)
  }

  function Ask(pool: real, terra: real, offerIsLuna: bool, base: real): real
    requires pool > 0.0 && terra > 0.0 && base > 0.0
  {
    var luna := Over(Product(pool), terra);
    if offerIsLuna then terra - Over(Product(pool), luna + base) else luna - Over(Product(pool), terra + base)
  }

  function Product(pool: real): (cp: real)
    requires pool > 0.0
    ensures cp > 0.0
  {
    Times(pool, pool)
  }

  function Times(a: real, b: real): (p: real)
    requires a > 0.0 && b > 0.0
    ensures p > 0.0
  {
    a * b
  }

  function Over(a: real, b: real): (q: real)
    requires a > 0.0 && b > 0.0
    ensures q > 0.0 && q * b == a
  {
    QuotientPositive(a, b);
    a / b
  }

  lemma ProductPositive(a: real, b: real)
    requires a > 0.0 && b > 0.0
    ensures a * b > 0.0
  {
  }

  lemma QuotientPositive(a: real, b: real)
    requires a > 0.0 && b > 0.0
    ensures a / b > 0.0 && (a / b) * b == a
  {
  }

  function Spread(pool: real, minSpread: real, terra: real, offerIsLuna: bool, base: real): real
    requires pool > 0.0 && terra > 0.0 && base > 0.0
  {
    var spread := (base - Ask(pool, terra, offerIsLuna, base)) / base;
    if spread < minSpread then minSpread else spread
  }

  function NetOf(gross: real, spread: real): real {
    gross - spread * gross
  }

  /** The Terra pool after an event. */
  function Next(pool: real, minSpread: real, terra: real, ev: Event): real
    requires pool > 0.0 && terra > 0.0 && ValidEvent(ev)
  {
    match ev
    case BlockEnded(recoveryPeriod) => pool + (terra - pool) - (terra - pool) / recoveryPeriod as real
    case Traded(amount, offer, ask, rates) =>
      if offer != ULUNA && ask != ULUNA then terra
      else
        ConvertPositive(rates, amount, offer, USDR);
        var base := Convert(rates, amount, offer, USDR);
        if offer != ULUNA then terra + base
        else
          var gross := Convert(rates, base, USDR, ask);
          terra - Convert(rates, NetOf(gross, Spread(pool, minSpread, terra, true, base)), ask, USDR)
  }

  lemma ConvertPositive(rates: Rates, amount: real, from: string, to: string)
    requires amount > 0.0 && RateOf(rates, from) > 0.0 && RateOf(rates, to) > 0.0
    ensures Convert(rates, amount, from, to) > 0.0
  {
    if from != to {
      ProductPositive(amount, RateOf(rates, to));
      QuotientPositive(amount * RateOf(rates, to), RateOf(rates, from));
    }
  }

  /** Converting the net of a conversion back gives the net of the original. */
  lemma ConvertBack(rates: Rates, amount: real, spread: real, from: string, to: string)
    requires RateOf(rates, from) > 0.0 && RateOf(rates, to) > 0.0
    ensures Convert(rates, NetOf(Convert(rates, amount, from, to), spread), to, from) == NetOf(amount, spread)
  {
    if from != to {
      BackAndForth(amount, spread, RateOf(rates, from), RateOf(rates, to));
    }
  }

  lemma BackAndForth(amount: real, spread: real, f: real, t: real)
    requires f > 0.0 && t > 0.0
    ensures NetOf(amount * t / f, spread) * f / t == NetOf(amount, spread)
  {
    var there := amount * t / f;
    assert there * f == amount * t;
    assert spread * there * f == spread * (amount * t);
    assert NetOf(there, spread) * f == NetOf(amount, spread) * t;
    var back := NetOf(there, spread) * f / t;
    assert back * t == NetOf(amount, spread) * t;
  }

  /** Charging at least the constant-product spread leaves at least the constant-product level. */
  lemma ChargedEnough(terra: real, level: real, base: real, spread: real)
    requires base > 0.0 && spread >= (base - (terra - level)) / base
    ensures terra - NetOf(base, spread) >= level
  {
    var x := (base - (terra - level)) / base;
    assert x * base == base - (terra - level);
    assert (spread - x) * base >= 0.0;
    assert (spread - x) * base == spread * base - x * base;
  }

  lemma NextIsPositive(pool: real, minSpread: real, terra: real, ev: Event)
    requires pool > 0.0 && terra > 0.0 && ValidEvent(ev)
    ensures Next(pool, minSpread, terra, ev) > 0.0
  {
    match ev
    case BlockEnded(recoveryPeriod) =>
      DecayIsPositive(pool, terra, recoveryPeriod as real);
    case Traded(amount, offer, ask, rates) =>
      ConvertPositive(rates, amount, offer, USDR);
      if offer == ULUNA {
        LunaSwapIsPositive(pool, minSpread, terra, ev);
      }
  }

  lemma LunaSwapIsPositive(pool: real, minSpread: real, terra: real, ev: Event)
    requires pool > 0.0 && terra > 0.0 && ev.Traded? && ValidEvent(ev) && ev.offer == ULUNA
    ensures Next(pool, minSpread, terra, ev) > 0.0
  {
    hide Convert, NetOf;
    ConvertPositive(ev.rates, ev.amount, ev.offer, USDR);
    var base := Convert(ev.rates, ev.amount, ev.offer, USDR);
    var spread := Spread(pool, minSpread, terra, true, base);
    var level := Over(Product(pool), Over(Product(pool), terra) + base);
    assert Ask(pool, terra, true, base) == terra - level;
    ChargedEnough(terra, level, base, spread);
    ConvertBack(ev.rates, base, spread, USDR, ev.ask);
  }

  lemma DecayIsPositive(pool: real, terra: real, p: real)
    requires pool > 0.0 && terra > 0.0 && p >= 1.0
    ensures pool + (terra - pool) - (terra - pool) / p > 0.0
  {
    var moved := (terra - pool) / p;
    assert moved * p == terra - pool;
    if moved >= 0.0 {
      assert moved * (p - 1.0) >= 0.0;
      assert moved * (p - 1.0) == moved * p - moved;
    }
  }

  /** After every sequence of swaps and blocks the virtual Terra pool is positive. */
  function After(pool: real, minSpread: real, terra: real, events: seq<Event>): (t: real)
    requires pool > 0.0 && terra > 0.0 && forall ev :: ev in events ==> ValidEvent(ev)
    ensures t > 0.0
    decreases |events|
  {
    if events == [] then terra
    else
      NextIsPositive(pool, minSpread, terra, events[0]);
      After(pool, minSpread, Next(pool, minSpread, terra, events[0]), events[1..])
  }
}
