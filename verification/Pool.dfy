/**
 * The virtual liquidity pool over time: how a swap moves its delta (x/market/keeper/swap.go) and how
 * every block lets it decay (x/market/keeper/keeper.go).
 */
module Pool {
  import opened Outcome
  import opened Denoms
  import Dec
  import opened Swap

  /** The delta after a swap; swaps between two Terra denoms do not touch the pool. */
  function DeltaAfter(e: Env, delta: int, offer: string, amount: nat, ask: string, net: int): Priced<int> {
    if offer != ULUNA && ask != ULUNA then Ok(delta)
    else if offer != ULUNA then
      match ComputeInternalSwap(e, amount * Dec.ONE, offer, USDR)
      case Err(error) => Err(error)
      case Ok(base) => Ok(delta + base)
    else if ask != ULUNA then
      match ComputeInternalSwap(e, net, ask, USDR)
      case Err(error) => Err(error)
      case Ok(base) => Ok(delta - base)
    else Ok(delta)
  }

  /** The pool level the exact constant product would leave after a Luna offer of `base`. */
  function TargetPool(e: Env, delta: int, base: int): int
    requires TerraPool(e, delta) != 0 && LunaPool(e, delta) + base != 0
  {
    Dec.Quo(ConstantProduct(e), LunaPool(e, delta) + base)
  }

  // ---------- a Luna swap in fixed point ----------

  /** The fee recovers the spread part of the offer up to offer * 10^-18 and one ulp. */
  lemma FeeRecovers(x: int, base: int, spread: int, fee: int)
    requires base > 0 && spread >= 0 && spread >= Dec.Quo(x, base)
    requires fee == if spread > 0 then Dec.Mul(spread, base) else 0
    ensures fee >= 0 && fee * Dec.ONE >= x * Dec.ONE - base - Dec.ONE
  {
    hide Dec.Quo, Dec.Mul;
    Dec.MulBounds(spread, base);
    if x >= 0 {
      Dec.QuoAntitone(x, base, base);
      Dec.QuoBounds(x, base);
      Dec.MulLe(Dec.Quo(x, base), spread, base);
      Combine(x, base, Dec.Quo(x, base), spread * base, fee);
    }
  }

  lemma Combine(x: int, base: int, q: int, charged: int, fee: int)
    requires base > 0 && q * base <= charged && 2 * (fee * Dec.ONE - charged) >= -Dec.ONE
    requires 2 * q * base * Dec.ONE > 2 * x * Dec.ONE * Dec.ONE - 2 * base - Dec.ONE * base
    ensures fee * Dec.ONE >= x * Dec.ONE - base - Dec.ONE
  {
    assert 2 * q * base * Dec.ONE == 2 * Dec.ONE * (q * base);
  }

  /**
   * In fixed point a swap of uluna for usdr leaves the Terra pool at least at the constant-product
   * level, less offer * 10^-18 and one ulp.
   */
  lemma PoolFloor(e: Env, delta: int, amount: nat)
    requires ValidEnv(e) && TerraPool(e, delta) > 0
    requires ComputeSwap(e, delta, ULUNA, amount, USDR).Ok?
    ensures var base := ComputeInternalSwap(e, amount * Dec.ONE, ULUNA, USDR).value;
            var after := DeltaAfter(e, delta, ULUNA, amount, USDR, Net(ComputeSwap(e, delta, ULUNA, amount,
                USDR).value));
            && base > 0 && LunaPool(e, delta) + base > 0 && after.Ok?
            && TerraPool(e, after.value) * Dec.ONE >= TargetPool(e, delta, base) * Dec.ONE - base - Dec.ONE
  {
    hide Dec.Quo, Dec.Mul, ComputeInternalSwap, ConstantProduct;
    var p := ComputeSwap(e, delta, ULUNA, amount, USDR).value;
    var base := ComputeInternalSwap(e, amount * Dec.ONE, ULUNA, USDR).value;
    PricedIsPositive(e, delta, ULUNA, amount, USDR);
    SameDenom(e, base, USDR);
    SameDenom(e, Net(p), USDR);
    ProductNonNegative(e);
    LunaPoolCovers(ConstantProduct(e), TerraPool(e, delta), LunaPool(e, delta), base);
    SpreadWithinBounds(e, delta, true, base);
    FeeRecovers(base - (TerraPool(e, delta) - TargetPool(e, delta, base)), base, p.spread, FeeOf(p));
  }

  /** So the pool stays positive whenever the constant-product level exceeds that error. */
  lemma PoolStaysPositive(e: Env, delta: int, amount: nat)
    requires ValidEnv(e) && TerraPool(e, delta) > 0
    requires ComputeSwap(e, delta, ULUNA, amount, USDR).Ok?
    requires var base := ComputeInternalSwap(e, amount * Dec.ONE, ULUNA, USDR);
             base.Ok? && LunaPool(e, delta) + base.value > 0 &&
             TargetPool(e, delta, base.value) * Dec.ONE > base.value + Dec.ONE
    ensures var after := DeltaAfter(e, delta, ULUNA, amount, USDR, Net(ComputeSwap(e, delta, ULUNA, amount,
        USDR).value));
            after.Ok? && TerraPool(e, after.value) > 0
  {
    hide ComputeInternalSwap, ComputeSwap, TargetPool, LunaPool;
    PoolFloor(e, delta, amount);
  }

  // ---------- into any denom ----------

  /** The spread charges the exact one up to the offer itself, in units of 10^-36. */
  lemma SpreadRecovers(x: int, base: int, spread: int)
    requires base > 0 && spread >= 0 && spread >= Dec.Quo(x, base)
    ensures spread * base >= x * Dec.ONE - base
  {
    hide Dec.Quo;
    Dec.MulLe(0, spread, base);
    if x >= 0 {
      Dec.QuoBounds(x, base);
      Dec.MulLe(Dec.Quo(x, base), spread, base);
      assert 2 * Dec.Quo(x, base) * base * Dec.ONE == 2 * Dec.ONE * (Dec.Quo(x, base) * base);
    }
  }

  /**
   * Converting to a denom at rate `ask`, charging the spread and converting back at rate `usdr` returns
   * no more than the offer less the spread, up to the rounding of the five steps.
   */
  lemma ThereAndBack(base: int, spread: int, usdr: int, ask: int, there: int, gross: int, fee: int, down: int,
                     back: int)
    requires base > 0 && 0 <= spread <= Dec.ONE && usdr > 0 && ask > 0
    requires 2 * there * Dec.ONE <= 2 * (base * ask) + Dec.ONE
    requires 2 * (gross * usdr) <= 2 * there * Dec.ONE + usdr
    requires 2 * fee * Dec.ONE >= 2 * (spread * gross) - Dec.ONE
    requires 2 * down * Dec.ONE <= 2 * ((gross - fee) * usdr) + Dec.ONE
    requires 2 * (back * ask) <= 2 * down * Dec.ONE + ask
    ensures back * ask * Dec.ONE <= (Dec.ONE - spread) * (base * ask) + Dec.ONE * (Dec.ONE + usdr + ask)
  {
    NetInUsdr(gross, fee, spread, usdr);
    RestOf(Dec.ONE - spread, gross * usdr, base * ask, usdr);
  }

  lemma NetInUsdr(gross: int, fee: int, spread: int, usdr: int)
    requires usdr > 0 && 2 * fee * Dec.ONE >= 2 * (spread * gross) - Dec.ONE
    ensures 2 * ((gross - fee) * usdr) * Dec.ONE <= (Dec.ONE - spread) * (2 * (gross * usdr)) + Dec.ONE * usdr
  {
    Dec.MulLe(2 * (spread * gross) - Dec.ONE, 2 * fee * Dec.ONE, usdr);
    assert (2 * fee * Dec.ONE) * usdr == 2 * Dec.ONE * (fee * usdr);
    assert (2 * (spread * gross) - Dec.ONE) * usdr == 2 * (spread * (gross * usdr)) - Dec.ONE * usdr;
    assert (gross - fee) * usdr == gross * usdr - fee * usdr;
    assert (Dec.ONE - spread) * (2 * (gross * usdr)) == 2 * Dec.ONE * (gross * usdr) - 2 * (spread * (gross * usdr));
  }

  lemma RestOf(rest: int, inUsdr: int, inAsk: int, usdr: int)
    requires 0 <= rest <= Dec.ONE && usdr > 0 && 2 * inUsdr <= 2 * inAsk + Dec.ONE + usdr
    ensures rest * (2 * inUsdr) <= 2 * (rest * inAsk) + Dec.ONE * (Dec.ONE + usdr)
  {
    Dec.MulLe2(rest, 2 * inUsdr, 2 * inAsk + Dec.ONE + usdr);
    Dec.MulLe(rest, Dec.ONE, Dec.ONE + usdr);
    assert rest * (2 * inAsk + Dec.ONE + usdr) == 2 * (rest * inAsk) + rest * (Dec.ONE + usdr);
  }

  lemma ConvertedBack(e: Env, base: int, spread: int, ask: string, gross: int, back: int)
    requires ValidEnv(e) && base > 0 && 0 <= spread <= Dec.ONE && ask != USDR
    requires ComputeInternalSwap(e, base, USDR, ask) == Ok(gross)
    requires ComputeInternalSwap(e, Net(Price(gross, spread)), ask, USDR) == Ok(back)
    ensures LunaRate(e, USDR).Ok? && LunaRate(e, ask).Ok?
    ensures var u, r := LunaRate(e, USDR).value, LunaRate(e, ask).value;
            r > 0 && back * r * Dec.ONE <= (Dec.ONE - spread) * (base * r) + Dec.ONE * (Dec.ONE + u + r)
  {
    hide Dec.Quo, Dec.Mul, ComputeInternalSwap, LunaRate;
    var fee, net := FeeOf(Price(gross, spread)), Net(Price(gross, spread));
    ConversionIs(e, base, USDR, ask, gross);
    ConversionIs(e, net, ask, USDR, back);
    var u, r := LunaRate(e, USDR).value, LunaRate(e, ask).value;
    Dec.MulBounds(spread, gross);
    Dec.MulAtMost(spread, gross);
    Converts(base, u, r);
    Converts(net, r, u);
    ThereAndBack(base, spread, u, r, Dec.Mul(base, r), gross, fee, Dec.Mul(net, u), back);
  }

  lemma ConversionIs(e: Env, amount: int, offer: string, ask: string, result: int)
    requires ValidEnv(e) && offer != ask && ComputeInternalSwap(e, amount, offer, ask) == Ok(result)
    ensures LunaRate(e, offer).Ok? && LunaRate(e, offer).value > 0 && LunaRate(e, ask).Ok?
    ensures LunaRate(e, ask).value >= 0
    ensures result == Dec.Quo(Dec.Mul(amount, LunaRate(e, ask).value), LunaRate(e, offer).value) && result > 0
  {
    hide Dec.Quo, Dec.Mul;
  }

  lemma Converts(amount: int, from: int, to: int)
    requires amount >= 0 && from > 0 && to >= 0
    ensures 2 * Dec.Mul(amount, to) * Dec.ONE <= 2 * (amount * to) + Dec.ONE
    ensures 2 * (Dec.Quo(Dec.Mul(amount, to), from) * from) <= 2 * Dec.Mul(amount, to) * Dec.ONE + from
  {
    hide Dec.Quo, Dec.Mul;
    Dec.MulBounds(amount, to);
    Dec.QuoBounds(Dec.Mul(amount, to), from);
  }

  /**
   * A swap of uluna for any Terra denom leaves the Terra pool at least at the constant-product level,
   * less the error of the spread and that of converting to the denom and back.
   */
  lemma PoolFloorInto(e: Env, delta: int, amount: nat, ask: string)
    requires ValidEnv(e) && TerraPool(e, delta) > 0 && ask != USDR
    requires ComputeSwap(e, delta, ULUNA, amount, ask).Ok?
    requires DeltaAfter(e, delta, ULUNA, amount, ask, Net(ComputeSwap(e, delta, ULUNA, amount, ask).value)).Ok?
    ensures LunaRate(e, USDR).Ok? && LunaRate(e, ask).Ok?
    ensures var base := ComputeInternalSwap(e, amount * Dec.ONE, ULUNA, USDR).value;
            var after := DeltaAfter(e, delta, ULUNA, amount, ask, Net(ComputeSwap(e, delta, ULUNA, amount, ask).value));
            var u, r := LunaRate(e, USDR).value, LunaRate(e, ask).value;
            && base > 0 && LunaPool(e, delta) + base > 0 && r > 0
            && TerraPool(e, after.value) * r * Dec.ONE >=
               r * (TargetPool(e, delta, base) * Dec.ONE - base) - Dec.ONE * (Dec.ONE + u + r)
  {
    hide Dec.Quo, Dec.Mul, ComputeInternalSwap, ConstantProduct, Net, LunaRate;
    var p := ComputeSwap(e, delta, ULUNA, amount, ask).value;
    var base := ComputeInternalSwap(e, amount * Dec.ONE, ULUNA, USDR).value;
    var terra := TerraPool(e, delta);
    PricedIsPositive(e, delta, ULUNA, amount, ask);
    ProductNonNegative(e);
    LunaPoolCovers(ConstantProduct(e), terra, LunaPool(e, delta), base);
    SpreadWithinBounds(e, delta, true, base);
    var target := TargetPool(e, delta, base);
    SpreadRecovers(base - (terra - target), base, p.spread);
    var back := ComputeInternalSwap(e, Net(p), ask, USDR).value;
    ConvertedBack(e, base, p.spread, ask, p.amount, back);
    FloorArithmetic(terra, target, base, p.spread, back, LunaRate(e, ask).value, LunaRate(e, USDR).value);
  }

  lemma FloorArithmetic(terra: int, target: int, base: int, spread: int, back: int, r: int, u: int)
    requires r > 0 && spread * base >= (base - (terra - target)) * Dec.ONE - base
    requires back * r * Dec.ONE <= (Dec.ONE - spread) * (base * r) + Dec.ONE * (Dec.ONE + u + r)
    ensures (terra - back) * r * Dec.ONE >= r * (target * Dec.ONE - base) - Dec.ONE * (Dec.ONE + u + r)
  {
    Dec.MulLe((base - (terra - target)) * Dec.ONE - base, spread * base, r);
    assert (Dec.ONE - spread) * (base * r) == Dec.ONE * base * r - spread * base * r;
    assert (terra - back) * r * Dec.ONE == terra * r * Dec.ONE - back * r * Dec.ONE;
    assert ((base - (terra - target)) * Dec.ONE - base) * r
        == base * r * Dec.ONE - terra * r * Dec.ONE + target * r * Dec.ONE - base * r;
    assert r * (target * Dec.ONE - base) == target * r * Dec.ONE - base * r;
  }

  ghost function TinyPool(): Env {
    Env(Dec.ONE, 0, 1, map[USDR := Dec.ONE], map[], false)
  }

  const TINY_OFFER: nat := 1_500_000_000_000_000_000

  lemma TinyConversion()
    ensures ComputeInternalSwap(TinyPool(), TINY_OFFER * Dec.ONE, ULUNA, USDR) == Ok(TINY_OFFER * Dec.ONE)
  {
  }

  lemma TinySpread()
    ensures ConstantProduct(TinyPool()) == Dec.ONE && LunaPool(TinyPool(), 0) == Dec.ONE
    ensures Dec.Quo(Dec.ONE, Dec.ONE + TINY_OFFER * Dec.ONE) == 1
    ensures Dec.Quo(TINY_OFFER * Dec.ONE - (Dec.ONE - 1), TINY_OFFER * Dec.ONE) == Dec.ONE - 1
  {
  }

  lemma TinyFee()
    ensures Dec.Mul(Dec.ONE - 1, TINY_OFFER * Dec.ONE) == TINY_OFFER * Dec.ONE - TINY_OFFER
  {
  }

  /** Without that condition fixed point can drive the pool below zero: 1.5 * 10^18 uluna against a pool of one. */
  lemma PoolCanGoNegative()
    ensures ValidEnv(TinyPool()) && TerraPool(TinyPool(), 0) > 0
    ensures var swap := ComputeSwap(TinyPool(), 0, ULUNA, TINY_OFFER, USDR);
            && swap.Ok?
            && DeltaAfter(TinyPool(), 0, ULUNA, TINY_OFFER, USDR, Net(swap.value)).Ok?
            && TerraPool(TinyPool(), DeltaAfter(TinyPool(), 0, ULUNA, TINY_OFFER, USDR, Net(swap.value)).value) < 0
  {
    hide Dec.Quo, Dec.Mul, ComputeInternalSwap, ConstantProduct, LunaPool;
    var e, base := TinyPool(), TINY_OFFER * Dec.ONE;
    TinyConversion();
    TinySpread();
    TinyFee();
    SameDenom(e, base, USDR);
    SameDenom(e, TINY_OFFER, USDR);
    assert LunaSpread(e, 0, true, base) == Ok(Dec.ONE - 1);
  }

  // ---------- decay ----------

  /** One block moves the delta toward zero by the truncated p-th part. */
  function Replenished(delta: int, p: int): int
    requires p > 0
  {
    delta - Dec.QuoInt(delta, p)
  }

  function AfterBlocks(delta: int, p: int, n: nat): int
    requires p > 0
  {
    if n == 0 then delta else Replenished(AfterBlocks(delta, p, n - 1), p)
  }

  function Power(b: int, n: nat): int {
    if n == 0 then 1 else b * Power(b, n - 1)
  }

  lemma PartOf(size: nat, p: int)
    requires p > 0
    ensures 0 <= size / p <= size
    ensures size >= p ==> size / p >= 1
    ensures p >= 2 && size != 0 ==> size / p < size
    ensures p * (size - size / p) <= (p - 1) * (size + 1)
  {
    var part := size / p;
    Dec.DivBounds(size, p);
    assert p * (size - part) == p * size - part * p;
    assert (p - 1) * (size + 1) == p * size - size + p - 1;
    if part < 0 {
      Dec.MulLe(part, -1, p);
    }
    if size >= p && part < 1 {
      Dec.MulLe(part, 0, p);
    }
    if part > 0 {
      Dec.MulLe2(part, if p >= 2 then 2 else 1, p);
    }
  }

  /** Sign is kept, size does not grow, shrinks while at least p, and never vanishes for p >= 2. */
  lemma ReplenishShrinks(delta: int, p: int)
    requires p > 0
    ensures delta >= 0 ==> 0 <= Replenished(delta, p) <= delta
    ensures delta <= 0 ==> delta <= Replenished(delta, p) <= 0
    ensures Dec.Abs(delta) >= p ==> Dec.Abs(Replenished(delta, p)) < Dec.Abs(delta)
    ensures p >= 2 && delta != 0 ==> Replenished(delta, p) != 0
    ensures p * Dec.Abs(Replenished(delta, p)) <= (p - 1) * (Dec.Abs(delta) + 1)
  {
    PartOf(Dec.Abs(delta), p);
    assert Dec.Abs(Replenished(delta, p)) == Dec.Abs(delta) - Dec.Abs(delta) / p;
  }

  /** Replenishing makes a delta vanish if and only if the recovery period is one block. */
  lemma VanishesIff(delta: int, p: int)
    requires p > 0 && delta != 0
    ensures Replenished(delta, p) == 0 <==> p == 1
  {
    ReplenishShrinks(delta, p);
  }

  /** And so over any number of blocks. */
  lemma DecaysToZeroIff(delta: int, p: int, n: nat)
    requires p > 0 && delta != 0 && n > 0
    ensures AfterBlocks(delta, p, n) == 0 <==> p == 1
  {
    DecayKeepsSign(delta, p, n - 1);
    ReplenishShrinks(AfterBlocks(delta, p, n - 1), p);
  }

  lemma {:induction false} PowerPositive(b: int, n: nat)
    requires b >= 0
    ensures Power(b, n) >= 0
    ensures b > 0 ==> Power(b, n) > 0
  {
    if n > 0 {
      PowerPositive(b, n - 1);
      Dec.MulLe2(b, 0, Power(b, n - 1));
      if b > 0 {
        Dec.MulLe(1, b, Power(b, n - 1));
      }
    }
  }

  /** After n blocks: p^n * (|d_n| - (p-1)) <= (p-1)^n * (|d_0| - (p-1)), in ulps. */
  lemma {:induction false} DecayBound(delta: int, p: int, n: nat)
    requires p > 0
    ensures Power(p, n) * (Dec.Abs(AfterBlocks(delta, p, n)) - (p - 1)) <= Power(p - 1, n) * (Dec.Abs(delta) - (p - 1))
  {
    if n > 0 {
      var before, after := AfterBlocks(delta, p, n - 1), AfterBlocks(delta, p, n);
      var x, y := Dec.Abs(before) - (p - 1), Dec.Abs(after) - (p - 1);
      DecayBound(delta, p, n - 1);
      ReplenishShrinks(before, p);
      OneStep(Dec.Abs(before), Dec.Abs(after), p);
      PowerPositive(p, n - 1);
      Scale(Power(p, n - 1), Power(p - 1, n - 1), p, x, y, Dec.Abs(delta) - (p - 1));
    }
  }

  lemma OneStep(before: int, after: int, p: int)
    requires p * after <= (p - 1) * (before + 1)
    ensures p * (after - (p - 1)) <= (p - 1) * (before - (p - 1))
  {
    assert p * (after - (p - 1)) == p * after - p * (p - 1);
    assert (p - 1) * (before - (p - 1)) == (p - 1) * (before + 1) - (p - 1) * p;
  }

  lemma Scale(a: int, b: int, p: int, x: int, y: int, z: int)
    requires a >= 0 && p > 0 && p * y <= (p - 1) * x && a * x <= b * z
    ensures (p * a) * y <= ((p - 1) * b) * z
  {
    Dec.MulLe2(a, p * y, (p - 1) * x);
    Dec.MulLe2(p - 1, a * x, b * z);
    assert (p * a) * y == a * (p * y);
    assert a * ((p - 1) * x) == (p - 1) * (a * x);
    assert ((p - 1) * b) * z == (p - 1) * (b * z);
  }

  /** Any number of blocks keeps the sign of a delta, and for p >= 2 keeps it away from zero. */
  lemma {:induction false} DecayKeepsSign(delta: int, p: int, n: nat)
    requires p > 0
    ensures delta >= 0 ==> 0 <= AfterBlocks(delta, p, n) <= delta
    ensures delta <= 0 ==> delta <= AfterBlocks(delta, p, n) <= 0
    ensures p >= 2 && delta != 0 ==> AfterBlocks(delta, p, n) != 0
  {
    if n > 0 {
      DecayKeepsSign(delta, p, n - 1);
      ReplenishShrinks(AfterBlocks(delta, p, n - 1), p);
    }
  }
}
