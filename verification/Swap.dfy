/**
 * Pricing of swaps against the virtual liquidity pool (x/market/keeper/swap.go), in the fixed-point
 * arithmetic of the code. Amounts in the base denom, pools and rates are decimals.
 */
module Swap {
  import opened Outcome
  import opened Denoms
  import Dec

  datatype SwapError =
    | RecursiveSwap
    | NoEffectivePrice
    | InvalidCoins
    | NoTobinTax
    | ZeroDivisor
    | InsufficientFunds
    | NegativeCoin
    | ZeroSwapCoin

  type Priced<+T> = Result<T, SwapError>

  /** Parameters of the market and what the oracle knows. */
  datatype Env = Env(
    basePool: int,
    minSpread: int,
    recoveryPeriod: int,
    rates: map<string, int>,
    taxes: map<string, int>,
    forbidZeroSwap: bool)

  predicate ValidEnv(e: Env) {
    && e.basePool >= 0
    && 0 <= e.minSpread <= Dec.ONE
    && e.recoveryPeriod > 0
    && (forall d :: d in e.rates ==> e.rates[d] >= 0)
    && (forall d :: d in e.taxes ==> 0 <= e.taxes[d] <= Dec.ONE)
  }

  /** Price of uluna in a denom; uluna itself is always priced at one. */
  function LunaRate(e: Env, d: string): Priced<int> {
    if d == ULUNA then Ok(Dec.ONE) else if d in e.rates then Ok(e.rates[d]) else Err(NoEffectivePrice)
  }

  function ComputeInternalSwap(e: Env, amount: int, offer: string, ask: string): Priced<int> {
    if offer == ask then Ok(amount)
    else if LunaRate(e, offer).Err? || LunaRate(e, ask).Err? then Err(NoEffectivePrice)
    else if LunaRate(e, offer).value == 0 then Err(ZeroDivisor)
    else
      var amount' := Dec.Quo(Dec.Mul(amount, LunaRate(e, ask).value), LunaRate(e, offer).value);
      if amount' <= 0 then Err(InvalidCoins) else Ok(amount')
  }

  function TerraPool(e: Env, delta: int): int {
    e.basePool + delta
  }

  function ConstantProduct(e: Env): int {
    Dec.Mul(e.basePool, e.basePool)
  }

  function LunaPool(e: Env, delta: int): int
    requires TerraPool(e, delta) != 0
  {
    Dec.Quo(ConstantProduct(e), TerraPool(e, delta))
  }

  /** What the constant product would pay for `base`, in the base denom. */
  function AskBase(cp: int, offerPool: int, askPool: int, base: int): int
    requires offerPool + base != 0
  {
    askPool - Dec.Quo(cp, offerPool + base)
  }

  function PoolSpread(cp: int, offerPool: int, askPool: int, base: int): int
    requires offerPool + base != 0 && base != 0
  {
    Dec.Quo(base - AskBase(cp, offerPool, askPool, base), base)
  }

  function Max(a: int, b: int): int {
    if a < b then b else a
  }

  function TobinSpread(e: Env, offer: string, ask: string): Priced<int> {
    if offer !in e.taxes || ask !in e.taxes then Err(NoTobinTax) else Ok(Max(e.taxes[offer], e.taxes[ask]))
  }

  function LunaSpread(e: Env, delta: int, offerIsLuna: bool, base: int): Priced<int>
    requires base != 0
  {
    if TerraPool(e, delta) == 0 then Err(ZeroDivisor)
    else
      var terra, luna := TerraPool(e, delta), LunaPool(e, delta);
      var offerPool, askPool := if offerIsLuna then luna else terra, if offerIsLuna then terra else luna;
      if offerPool + base == 0 then Err(ZeroDivisor)
      else Ok(Max(PoolSpread(ConstantProduct(e), offerPool, askPool, base), e.minSpread))
  }

  datatype Price = Price(amount: int, spread: int)

  /** The amount at the oracle price and the spread to charge on it. */
  function ComputeSwap(e: Env, delta: int, offer: string, amount: nat, ask: string): Priced<Price> {
    if offer == ask then Err(RecursiveSwap)
    else
      match ComputeInternalSwap(e, amount * Dec.ONE, offer, USDR)
      case Err(error) => Err(error)
      case Ok(base) =>
        match ComputeInternalSwap(e, base, USDR, ask)
        case Err(error) => Err(error)
        case Ok(gross) =>
          if offer != ULUNA && ask != ULUNA then
            match TobinSpread(e, offer, ask)
            case Err(error) => Err(error)
            case Ok(spread) => Ok(Price(gross, spread))
          else if base == 0 then Err(ZeroDivisor)
          else
            match LunaSpread(e, delta, offer == ULUNA, base)
            case Err(error) => Err(error)
            case Ok(spread) => Ok(Price(gross, spread))
  }

  /** The fee is charged only on a positive spread. */
  function FeeOf(p: Price): int {
    if p.spread > 0 then Dec.Mul(p.spread, p.amount) else 0
  }

  function Net(p: Price): int {
    p.amount - FeeOf(p)
  }

  const MAX_OFFER: int := 0x10_0000_0000_0000_0000_0000_0000

  /** What a client is quoted: a fee is taken off only if it is positive, and no coin may be negative. */
  function Quoted(p: Price): Priced<int> {
    var fee := Dec.Mul(p.spread, p.amount);
    if p.spread <= 0 || fee <= 0 then Ok(Dec.TruncateInt(p.amount))
    else if p.amount < fee then Err(NegativeCoin)
    else Ok(Dec.TruncateInt(p.amount - fee))
  }

  /** The quote given to clients, limited to offers of at most 100 bits. */
  function SimulateSwap(e: Env, delta: int, offer: string, amount: nat, ask: string): Priced<int> {
    if ask == offer then Err(RecursiveSwap)
    else if amount >= MAX_OFFER then Err(InvalidCoins)
    else
      match ComputeSwap(e, delta, offer, amount, ask)
      case Err(error) => Err(error)
      case Ok(price) => Quoted(price)
  }

  // ---------- the spread lies between the minimum and one ----------

  /** The rounded Luna pool plus any offer still covers the Terra pool. */
  lemma LunaPoolCovers(cp: int, terra: int, luna: int, base: int)
    requires cp >= 0 && terra > 0 && base > 0 && luna == Dec.Quo(cp, terra)
    ensures luna >= 0 && Dec.Quo(cp, luna + base) <= terra
  {
    hide Dec.Quo;
    var d := luna + base;
    Dec.QuoAntitone(cp, terra, terra);
    Dec.QuoBounds(cp, terra);
    Exceeds(cp, terra, luna, d);
    QuoAtMost(cp, d, terra);
  }

  lemma Exceeds(cp: int, terra: int, luna: int, d: int)
    requires terra > 0 && d >= luna + 1
    requires 2 * luna * terra * Dec.ONE > 2 * cp * Dec.ONE * Dec.ONE - 2 * terra - Dec.ONE * terra
    ensures cp * Dec.ONE * Dec.ONE < terra * Dec.ONE * d
  {
    Dec.MulLe(luna + 1, d, terra);
    assert (luna + 1) * terra == luna * terra + terra;
    assert terra * Dec.ONE * d == Dec.ONE * (d * terra);
    assert 2 * luna * terra * Dec.ONE == 2 * Dec.ONE * (luna * terra);
  }

  lemma QuoAtMost(a: int, d: int, bound: int)
    requires a >= 0 && d > 0 && a * Dec.ONE * Dec.ONE < bound * Dec.ONE * d
    ensures Dec.Quo(a, d) <= bound
  {
    hide Dec.Chop;
    var t := a * Dec.ONE * Dec.ONE / d;
    Dec.DivBounds(a * Dec.ONE * Dec.ONE, d);
    if t > bound * Dec.ONE {
      Dec.MulLe(bound * Dec.ONE, t, d);
    }
    Dec.ChopMonotone(t, bound * Dec.ONE);
    Dec.ChopExact(bound);
  }

  lemma ProductNonNegative(e: Env)
    ensures ConstantProduct(e) >= 0
  {
    Dec.ChopBounds(e.basePool * e.basePool);
  }

  /** What is paid is not negative, so no more than the whole offer is spread. */
  lemma SpreadAtMostOne(cp: int, offerPool: int, askPool: int, base: int)
    requires base > 0 && offerPool + base != 0 && Dec.Quo(cp, offerPool + base) <= askPool
    ensures PoolSpread(cp, offerPool, askPool, base) <= Dec.ONE
  {
    hide Dec.Quo;
    Dec.QuoMonotone(base - AskBase(cp, offerPool, askPool, base), base, base);
    Dec.QuoSelf(base);
  }

  /** In both directions, with a positive Terra pool, the spread is between the minimum and one. */
  lemma SpreadWithinBounds(e: Env, delta: int, offerIsLuna: bool, base: int)
    requires ValidEnv(e) && TerraPool(e, delta) > 0 && base > 0
    ensures LunaSpread(e, delta, offerIsLuna, base).Ok?
    ensures e.minSpread <= LunaSpread(e, delta, offerIsLuna, base).value <= Dec.ONE
  {
    hide Dec.Quo, ConstantProduct, PoolSpread;
    var cp, terra, luna := ConstantProduct(e), TerraPool(e, delta), LunaPool(e, delta);
    ProductNonNegative(e);
    LunaPoolCovers(cp, terra, luna, base);
    if offerIsLuna {
      SpreadAtMostOne(cp, luna, terra, base);
    } else {
      Dec.QuoAntitone(cp, terra, terra + base);
      SpreadAtMostOne(cp, terra, luna, base);
    }
  }

  lemma InternalSwapPositive(e: Env, amount: int, offer: string, ask: string)
    requires ComputeInternalSwap(e, amount, offer, ask).Ok? && offer != ask
    ensures ComputeInternalSwap(e, amount, offer, ask).value > 0
  {
    hide Dec.Quo, Dec.Mul;
  }

  /** A priced swap has a positive base offer and a positive gross amount. */
  lemma PricedIsPositive(e: Env, delta: int, offer: string, amount: nat, ask: string)
    requires ComputeSwap(e, delta, offer, amount, ask).Ok? && ValidEnv(e)
    ensures ComputeInternalSwap(e, amount * Dec.ONE, offer, USDR).Ok?
    ensures ComputeInternalSwap(e, amount * Dec.ONE, offer, USDR).value > 0
    ensures ComputeSwap(e, delta, offer, amount, ask).value.amount > 0
  {
    hide ComputeInternalSwap, LunaSpread;
    var base := ComputeInternalSwap(e, amount * Dec.ONE, offer, USDR).value;
    if offer != USDR {
      InternalSwapPositive(e, amount * Dec.ONE, offer, USDR);
    }
    if ask != USDR {
      InternalSwapPositive(e, base, USDR, ask);
    }
    SameDenom(e, amount * Dec.ONE, USDR);
    SameDenom(e, base, USDR);
    if offer == USDR && base <= 0 {
      NothingForNothing(e, ask);
    }
  }

  lemma SameDenom(e: Env, amount: int, d: string)
    ensures ComputeInternalSwap(e, amount, d, d) == Ok(amount)
  {
  }

  lemma NothingForNothing(e: Env, ask: string)
    requires ask != USDR
    ensures ComputeInternalSwap(e, 0, USDR, ask).Err?
  {
    Dec.ChopExact(0);
    if LunaRate(e, USDR).Ok? && LunaRate(e, ask).Ok? && LunaRate(e, USDR).value != 0 {
      assert Dec.Mul(0, LunaRate(e, ask).value) == 0;
      assert Dec.Quo(0, LunaRate(e, USDR).value) == 0;
    }
  }

  /** With a positive Terra pool the fee never exceeds the amount it is taken from. */
  lemma NetIsNonNegative(e: Env, delta: int, offer: string, amount: nat, ask: string)
    requires ValidEnv(e) && TerraPool(e, delta) > 0
    requires ComputeSwap(e, delta, offer, amount, ask).Ok?
    ensures var p := ComputeSwap(e, delta, offer, amount, ask).value;
            0 <= p.spread <= Dec.ONE && 0 <= FeeOf(p) <= p.amount && 0 <= Net(p)
  {
    hide ComputeInternalSwap, LunaSpread, Dec.Mul;
    var p := ComputeSwap(e, delta, offer, amount, ask).value;
    PricedIsPositive(e, delta, offer, amount, ask);
    if offer == ULUNA || ask == ULUNA {
      SpreadWithinBounds(e, delta, offer == ULUNA, ComputeInternalSwap(e, amount * Dec.ONE, offer, USDR).value);
    }
    Dec.MulAtMost(p.spread, p.amount);
  }
}
