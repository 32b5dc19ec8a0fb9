/**
 * What a swap costs (x/market/keeper/swap.go), on rates, pools, taxes and amounts: conversions follow the
 * oracle rates, a swap with uluna is charged what the constant product asks for and no more, a swap
 * between Terra denoms the higher of two taxes, and the pool moves by the base value of what is traded.
 */
module PriceLaws {
  import opened Outcome
  import opened Denoms
  import opened Swap
  import opened Pool
  import B = Bank
  import K = MarketKeeper
  import Dec
  import Wire

  predicate HasRate(e: Env, d: string) {
    d == ULUNA || d in e.rates
  }

  function Rate(e: Env, d: string): int {
    if d == ULUNA then Dec.ONE else if d in e.rates then e.rates[d] else 0
  }

  /** `result` of `to` is worth `amount` of `from` at the oracle rates, up to rounding. */
  ghost predicate Worth(e: Env, amount: int, from: string, result: int, to: string) {
    if from == to then result == amount
    else
      && HasRate(e, from) && HasRate(e, to) && Rate(e, from) > 0
      && 2 * Dec.Abs(result * Rate(e, from) - amount * Rate(e, to)) <= Dec.ONE + 2 * Rate(e, from)
  }

  // ---------- conversions ----------

  lemma ConvertsWithin(amount: int, from: int, to: int)
    requires from > 0
    ensures 2 * Dec.Abs(Dec.Quo(Dec.Mul(amount, to), from) * from - amount * to) <= Dec.ONE + 2 * from
  {
    hide Dec.Quo, Dec.Mul;
    Dec.MulBounds(amount, to);
    Dec.QuoWithin(Dec.Mul(amount, to), from);
  }

  /** A conversion that succeeds is worth what is offered. */
  lemma ConversionIsWorth(e: Env, amount: int, from: string, to: string)
    requires ValidEnv(e) && ComputeInternalSwap(e, amount, from, to).Ok?
    ensures Worth(e, amount, from, ComputeInternalSwap(e, amount, from, to).value, to)
  {
    hide Dec.Quo, Dec.Mul;
    if from != to {
      ConvertsWithin(amount, Rate(e, from), Rate(e, to));
    }
  }

  /** It succeeds between denoms with a rate, if the offer has one above zero and its worth is not lost in rounding. */
  lemma ConversionSucceeds(e: Env, amount: int, from: string, to: string)
    requires ValidEnv(e) && HasRate(e, from) && HasRate(e, to) && Rate(e, from) > 0
    requires 2 * (amount * Rate(e, to)) > Dec.ONE + 2 * Rate(e, from)
    ensures ComputeInternalSwap(e, amount, from, to).Ok?
  {
    hide Dec.Quo, Dec.Mul;
    var f, t := Rate(e, from), Rate(e, to);
    var r := Dec.Quo(Dec.Mul(amount, t), f);
    ConvertsWithin(amount, f, t);
    if r <= 0 {
      Dec.MulLe(r, 0, f);
    }
  }

  // ---------- the spread ----------

  /** What the constant product gives for `base` once it is in the offer pool. */
  ghost function Due(e: Env, delta: int, offerIsLuna: bool, base: int): Option<int> {
    var cp, terra := Dec.Mul(e.basePool, e.basePool), e.basePool + delta;
    if terra == 0 then None
    else
      var luna := Dec.Quo(cp, terra);
      if offerIsLuna then if luna + base == 0 then None else Some(terra - Dec.Quo(cp, luna + base))
      else if terra + base == 0 then None else Some(luna - Dec.Quo(cp, terra + base))
  }

  /**
   * The constant product without divisions: the Luna pool is the square of the base pool over the Terra pool, and what
   * is due of the ask pool is to it as the offer is to the offer pool with the offer in it, both up to rounding.
   */
  lemma DueIsShare(e: Env, delta: int, offerIsLuna: bool, base: int) returns (luna: int)
    requires ValidEnv(e) && e.basePool + delta > 0 && base > 0
    ensures var terra := e.basePool + delta;
            && luna >= 0 && 2 * Dec.Abs(luna * terra - e.basePool * e.basePool) <= 2 * terra + Dec.ONE
            && Due(e, delta, offerIsLuna, base).Some?
            && var due := Due(e, delta, offerIsLuna, base).value;
               var offerPool, askPool := if offerIsLuna then luna else terra, if offerIsLuna then terra else luna;
               Dec.Abs(due * (offerPool + base) - askPool * base) <= terra + offerPool + base
  {
    hide Dec.Quo, Dec.Mul;
    var cp, terra := Dec.Mul(e.basePool, e.basePool), e.basePool + delta;
    luna := Dec.Quo(cp, terra);
    Dec.MulBounds(e.basePool, e.basePool);
    LunaPoolCovers(cp, terra, luna, base);
    Dec.QuoWithin(cp, terra);
    var offerPool, askPool := if offerIsLuna then luna else terra, if offerIsLuna then terra else luna;
    var level := Dec.Quo(cp, offerPool + base);
    Dec.QuoWithin(cp, offerPool + base);
    ShareOf(askPool, level, offerPool, base);
    assert askPool * offerPool == luna * terra;
  }

  lemma ShareOf(askPool: int, level: int, offerPool: int, base: int)
    ensures (askPool - level) * (offerPool + base) - askPool * base ==
            askPool * offerPool - level * (offerPool + base)
  {
  }

  /** The part of `base` that is charged: no less than what the constant product keeps, and no more than needed. */
  ghost predicate Charged(spread: int, minSpread: int, base: int, due: int) {
    && spread >= minSpread
    && spread * base >= (base - due) * Dec.ONE - base
    && (spread == minSpread || spread * base <= (base - due) * Dec.ONE + base)
  }

  lemma SpreadIsCharged(e: Env, delta: int, offerIsLuna: bool, base: int)
    requires base > 0
    ensures LunaSpread(e, delta, offerIsLuna, base).Ok? <==> Due(e, delta, offerIsLuna, base).Some?
    ensures Due(e, delta, offerIsLuna, base).Some? ==>
            Charged(LunaSpread(e, delta, offerIsLuna, base).value, e.minSpread, base,
                    Due(e, delta, offerIsLuna, base).value)
  {
    hide Dec.Quo, Dec.Mul;
    if Due(e, delta, offerIsLuna, base).Some? {
      var x := base - Due(e, delta, offerIsLuna, base).value;
      Dec.QuoWithin(x, base);
      Dec.MulLe(Dec.Quo(x, base), LunaSpread(e, delta, offerIsLuna, base).value, base);
    }
  }

  /** What is left of `gross` after a spread: `gross * (1 - spread)` to half an ulp. */
  lemma NetIs(p: Price)
    requires p.spread >= 0
    ensures 2 * Dec.Abs(Net(p) * Dec.ONE - p.amount * (Dec.ONE - p.spread)) <= Dec.ONE
  {
    hide Dec.Mul;
    Dec.MulBounds(p.spread, p.amount);
    assert p.amount * (Dec.ONE - p.spread) == p.amount * Dec.ONE - p.spread * p.amount;
    assert p.spread == 0 ==> p.spread * p.amount == 0;
  }

  /** The value paid is at most what is due, and if more than the minimum is charged no less, up to rounding. */
  ghost predicate PaysDue(net: int, gross: int, base: int, due: int, atMinimum: bool) {
    && net * Dec.ONE * base <= gross * (due * Dec.ONE + base) + Dec.ONE * base
    && (atMinimum || net * Dec.ONE * base >= gross * (due * Dec.ONE - base) - Dec.ONE * base)
  }

  lemma ChargedPaysDue(net: int, gross: int, spread: int, minSpread: int, base: int, due: int)
    requires base > 0 && gross > 0 && Charged(spread, minSpread, base, due)
    requires 2 * Dec.Abs(net * Dec.ONE - gross * (Dec.ONE - spread)) <= Dec.ONE
    ensures PaysDue(net, gross, base, due, spread == minSpread)
  {
    var left := gross * (Dec.ONE - spread);
    Dec.MulLe(net * Dec.ONE, left + Dec.ONE, base);
    Dec.MulLe(left - Dec.ONE, net * Dec.ONE, base);
    assert (left + Dec.ONE) * base == left * base + Dec.ONE * base;
    assert (left - Dec.ONE) * base == left * base - Dec.ONE * base;
    assert left * base == gross * (base * Dec.ONE - spread * base) by {
      assert (Dec.ONE - spread) * base == base * Dec.ONE - spread * base;
    }
    Dec.MulLe2(gross, base * Dec.ONE - spread * base, due * Dec.ONE + base);
    if spread != minSpread {
      Dec.MulLe2(gross, due * Dec.ONE - base, base * Dec.ONE - spread * base);
    }
  }

  // ---------- whole swaps ----------

  ghost function Base(e: Env, offer: string, amount: nat): int {
    match ComputeInternalSwap(e, amount * Dec.ONE, offer, USDR)
    case Ok(base) => base
    case Err(_) => 0
  }

  /** The price before the spread: the offer goes through usdr. */
  lemma GrossIsWorth(e: Env, delta: int, offer: string, amount: nat, ask: string)
    requires ValidEnv(e) && ComputeSwap(e, delta, offer, amount, ask).Ok?
    ensures var base, gross := Base(e, offer, amount), ComputeSwap(e, delta, offer, amount, ask).value.amount;
            && base > 0 && gross > 0 && offer != ask
            && Worth(e, amount * Dec.ONE, offer, base, USDR) && Worth(e, base, USDR, gross, ask)
  {
    hide ComputeInternalSwap, LunaSpread, Worth;
    PricedIsPositive(e, delta, offer, amount, ask);
    ConversionIsWorth(e, amount * Dec.ONE, offer, USDR);
    ConversionIsWorth(e, Base(e, offer, amount), USDR, ask);
  }

  /** A swap from or to uluna: what is paid of the gross amount is what the constant product gives for the offer. */
  lemma LunaSwapPaysDue(e: Env, delta: int, offer: string, amount: nat, ask: string)
    requires ValidEnv(e) && (offer == ULUNA || ask == ULUNA) && ComputeSwap(e, delta, offer, amount, ask).Ok?
    ensures var p, base := ComputeSwap(e, delta, offer, amount, ask).value, Base(e, offer, amount);
            var due := Due(e, delta, offer == ULUNA, base);
            && due.Some?
            && Charged(p.spread, e.minSpread, base, due.value)
            && PaysDue(Net(p), p.amount, base, due.value, p.spread == e.minSpread)
  {
    hide ComputeInternalSwap, LunaSpread, Due, Charged, PaysDue, Net, Dec.Mul;
    PricedIsPositive(e, delta, offer, amount, ask);
    var p, base := ComputeSwap(e, delta, offer, amount, ask).value, Base(e, offer, amount);
    SpreadIsCharged(e, delta, offer == ULUNA, base);
    var due := Due(e, delta, offer == ULUNA, base).value;
    AtLeastMinimum(p.spread, e.minSpread, base, due);
    NetIs(p);
    ChargedPaysDue(Net(p), p.amount, p.spread, e.minSpread, base, due);
  }

  lemma AtLeastMinimum(spread: int, minSpread: int, base: int, due: int)
    requires Charged(spread, minSpread, base, due)
    ensures spread >= minSpread
  {
  }

  /** A swap between Terra denoms: the higher tax is charged, whichever of the two denoms has it. */
  lemma TerraSwapPaysHigherTax(e: Env, delta: int, offer: string, amount: nat, ask: string)
    requires ValidEnv(e) && offer != ULUNA && ask != ULUNA && ComputeSwap(e, delta, offer, amount, ask).Ok?
    ensures offer in e.taxes && ask in e.taxes
    ensures var p := ComputeSwap(e, delta, offer, amount, ask).value;
            && p.spread in {e.taxes[offer], e.taxes[ask]} && p.spread >= e.taxes[offer] && p.spread >= e.taxes[ask]
            && 2 * Dec.Abs(Net(p) * Dec.ONE - p.amount * (Dec.ONE - p.spread)) <= Dec.ONE
  {
    hide ComputeInternalSwap, LunaSpread, Net, Dec.Mul;
    NetIs(ComputeSwap(e, delta, offer, amount, ask).value);
  }

  /** A swap is priced exactly when both conversions are, and its taxes or its pools are there. */
  lemma SwapIsPricedIff(e: Env, delta: int, offer: string, amount: nat, ask: string)
    requires ValidEnv(e)
    ensures ComputeSwap(e, delta, offer, amount, ask).Ok? <==>
            && offer != ask
            && ComputeInternalSwap(e, amount * Dec.ONE, offer, USDR).Ok?
            && ComputeInternalSwap(e, Base(e, offer, amount), USDR, ask).Ok?
            && (if offer != ULUNA && ask != ULUNA then offer in e.taxes && ask in e.taxes
                else Due(e, delta, offer == ULUNA, Base(e, offer, amount)).Some?)
  {
    hide ComputeInternalSwap, LunaSpread, Due;
    var base := Base(e, offer, amount);
    if ComputeInternalSwap(e, amount * Dec.ONE, offer, USDR).Ok? {
      if offer != USDR {
        InternalSwapPositive(e, amount * Dec.ONE, offer, USDR);
      }
      SameDenom(e, amount * Dec.ONE, USDR);
      SameDenom(e, base, USDR);
      if base > 0 {
        SpreadIsCharged(e, delta, offer == ULUNA, base);
      } else if ask != USDR {
        NothingForNothing(e, ask);
      }
    }
  }

  /** Whole coins: the receiver gets the net amount and the oracle account the rest of the gross amount. */
  lemma CoinsOfSwap(e: Env, delta: int, bank: B.Bank, trader: string, receiver: string, offer: string, amount: nat,
                    ask: string, response: K.Response, bank': B.Bank)
    requires ValidEnv(e) && K.Swapped(e, delta, bank, trader, receiver, offer, amount, ask, response, bank')
    ensures var p := ComputeSwap(e, delta, offer, amount, ask).value;
            && 0 <= Net(p) - response.swapCoin * Dec.ONE < Dec.ONE
            && 0 <= p.amount - (response.swapCoin + response.swapFee) * Dec.ONE < Dec.ONE
  {
    hide ComputeSwap, Dec.Mul;
    PricedIsPositive(e, delta, offer, amount, ask);
    var p := ComputeSwap(e, delta, offer, amount, ask).value;
    Dec.DivBounds(Net(p), Dec.ONE);
    Dec.DivBounds(p.amount, Dec.ONE);
  }

  // ---------- the pool ----------

  /** Terra coming in raises the delta by its base value, Terra going out lowers it, and nothing else moves it. */
  lemma DeltaMovesByValue(e: Env, delta: int, offer: string, amount: nat, ask: string, net: int)
    requires ValidEnv(e) && DeltaAfter(e, delta, offer, amount, ask, net).Ok?
    ensures var after := DeltaAfter(e, delta, offer, amount, ask, net).value;
            if offer != ULUNA && ask == ULUNA then Worth(e, amount * Dec.ONE, offer, after - delta, USDR)
            else if offer == ULUNA && ask != ULUNA then Worth(e, net, ask, delta - after, USDR)
            else after == delta
  {
    hide ComputeInternalSwap, Worth;
    if offer != ULUNA && ask == ULUNA {
      ConversionIsWorth(e, amount * Dec.ONE, offer, USDR);
    } else if offer == ULUNA && ask != ULUNA {
      ConversionIsWorth(e, net, ask, USDR);
    }
  }

  /** One block takes the p-th part off the delta, up to one ulp and toward keeping it. */
  lemma BlockTakesPart(delta: int, p: int)
    requires p > 0
    ensures var taken := delta - Replenished(delta, p);
            && Dec.Abs(delta) - p < p * Dec.Abs(taken) <= Dec.Abs(delta)
            && (delta >= 0 ==> taken >= 0) && (delta <= 0 ==> taken <= 0)
  {
    Dec.DivBounds(Dec.Abs(delta), p);
    PartOf(Dec.Abs(delta), p);
    assert Dec.Abs(Dec.QuoInt(delta, p)) == Dec.Abs(delta) / p;
  }

  // ---------- the limit of a quote ----------

  lemma {:induction false} BitLenWithin(n: nat, k: nat)
    ensures Wire.BitLen(n) <= k <==> n < Wire.Pow2(k)
  {
    Wire.PowMonotone(0, k);
    if k > 0 && n > 0 {
      BitLenWithin(n / 2, k - 1);
    }
  }

  lemma Joined(m: nat, n: nat, x: int, y: int)
    requires Wire.Pow2(m) == x && Wire.Pow2(n) == y
    ensures Wire.Pow2(m + n) == x * y
  {
    Wire.PowAdd(m, n);
  }

  lemma LimitIs()
    ensures Wire.Pow2(100) == MAX_OFFER
  {
    assert Wire.Pow2(5) == 32;
    hide Wire.Pow2;
    Joined(5, 5, 32, 32);
    Joined(10, 10, 0x400, 0x400);
    Joined(20, 20, 0x10_0000, 0x10_0000);
    Joined(40, 40, 0x100_0000_0000, 0x100_0000_0000);
    Joined(80, 20, 0x1_0000_0000_0000_0000_0000, 0x10_0000);
  }

  lemma LimitIff(amount: nat)
    ensures amount < MAX_OFFER <==> Wire.BitLen(amount) <= 100
  {
    hide Wire.Pow2, Wire.BitLen;
    BitLenWithin(amount, 100);
    LimitIs();
  }

  /**
   * A quote for an amount of more than 100 bits is refused; any other is the whole coins of what is left after the
   * spread, and exists exactly if that is priced and not negative.
   */
  lemma QuoteIs(e: Env, delta: int, offer: string, amount: nat, ask: string)
    requires ValidEnv(e) && offer != ask
    ensures var price, quote := ComputeSwap(e, delta, offer, amount, ask), SimulateSwap(e, delta, offer, amount, ask);
            if Wire.BitLen(amount) > 100 then quote == Err(InvalidCoins)
            else if price.Ok? && Net(price.value) >= 0 then
              quote.Ok? && 0 <= Net(price.value) - quote.value * Dec.ONE < Dec.ONE
            else quote.Err?
  {
    hide ComputeSwap, Wire.BitLen, Dec.Mul;
    LimitIff(amount);
    K.QuoteAgrees(e, delta, offer, amount, ask);
    var price := ComputeSwap(e, delta, offer, amount, ask);
    if price.Ok? {
      Dec.DivBounds(Net(price.value), Dec.ONE);
    }
  }
}
