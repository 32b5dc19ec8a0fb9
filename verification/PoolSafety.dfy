/**
 * When the virtual Terra pool can be emptied in fixed point (x/market/keeper/swap.go): exactly when the
 * minimum spread is below one, whatever the size of the pool.
 */
module PoolSafety {
  import opened Outcome
  import opened Denoms
  import Dec
  import opened Swap
  import opened Pool

  /** If the swap is priced and the pool updated, the pool is positive afterwards. */
  ghost predicate KeepsPool(e: Env, delta: int, offer: string, amount: nat, ask: string) {
    var swap := ComputeSwap(e, delta, offer, amount, ask);
    swap.Ok? ==>
      var after := DeltaAfter(e, delta, offer, amount, ask, Net(swap.value));
      after.Ok? ==> TerraPool(e, after.value) > 0
  }

  ghost predicate Fits(e: Env, delta: int, basePool: int, minSpread: int) {
    ValidEnv(e) && e.basePool == basePool && e.minSpread == minSpread && TerraPool(e, delta) > 0
  }

  /** Every swap of every two denoms, at all rates and from every positive pool, leaves it positive. */
  ghost predicate PoolSafe(basePool: int, minSpread: int) {
    forall e, delta, offer, amount: nat, ask :: Fits(e, delta, basePool, minSpread) ==>
        KeepsPool(e, delta, offer, amount, ask)
  }

  // ---------- a minimum spread of one protects the pool ----------

  lemma AllIsFee(amount: int)
    requires amount > 0
    ensures Net(Price(amount, Dec.ONE)) == 0
  {
    assert Dec.ONE * amount == amount * Dec.ONE;
    Dec.ChopExact(amount);
  }

  lemma NothingLeaves(e: Env, ask: string)
    requires ValidEnv(e)
    ensures ComputeInternalSwap(e, 0, ask, USDR).Ok? ==> ComputeInternalSwap(e, 0, ask, USDR).value == 0
  {
    Dec.ChopExact(0);
    if ask != USDR && LunaRate(e, USDR).Ok? && LunaRate(e, ask).Ok? && LunaRate(e, ask).value != 0 {
      assert Dec.Mul(0, LunaRate(e, USDR).value) == 0;
      assert Dec.Quo(0, LunaRate(e, ask).value) == 0;
    }
  }

  lemma FullSpreadKeeps(e: Env, delta: int, offer: string, amount: nat, ask: string)
    requires ValidEnv(e) && e.minSpread == Dec.ONE && TerraPool(e, delta) > 0
    ensures KeepsPool(e, delta, offer, amount, ask)
  {
    hide ComputeInternalSwap, LunaSpread, Net, FeeOf;
    var swap := ComputeSwap(e, delta, offer, amount, ask);
    if swap.Ok? {
      PricedIsPositive(e, delta, offer, amount, ask);
      if offer == ULUNA {
        SpreadWithinBounds(e, delta, true, ComputeInternalSwap(e, amount * Dec.ONE, offer, USDR).value);
        assert swap.value == Price(swap.value.amount, Dec.ONE);
        AllIsFee(swap.value.amount);
        NothingLeaves(e, ask);
      }
    }
  }

  // ---------- any other empties it ----------

  /** The spread of an offer 10^18 times the pool, when the constant product would keep under half of it. */
  lemma SpreadJustBelowOne(pool: int, target: int)
    requires pool > 0 && 0 <= 2 * target < pool
    ensures Dec.Quo(pool * Dec.ONE - (pool - target), pool * Dec.ONE) == Dec.ONE - 1
  {
    var a, f, r := pool * Dec.ONE - (pool - target), target * Dec.ONE / pool, target * Dec.ONE % pool;
    Dec.DivBounds(target * Dec.ONE, pool);
    assert target * Dec.ONE == f * pool + r;
    SmallPart(pool, target, f);
    var q := (Dec.ONE - 1) * Dec.ONE + f;
    assert a * Dec.ONE * Dec.ONE == q * (pool * Dec.ONE) + r * Dec.ONE by {
      assert q * (pool * Dec.ONE) == (Dec.ONE - 1) * Dec.ONE * Dec.ONE * pool + f * pool * Dec.ONE;
    }
    Dec.DivUnique(a * Dec.ONE * Dec.ONE, pool * Dec.ONE, q, r * Dec.ONE);
  }

  lemma SmallPart(pool: int, target: int, f: int)
    requires pool > 0 && 0 <= 2 * target < pool && f * pool <= target * Dec.ONE < f * pool + pool
    ensures 0 <= f < Dec.HALF
  {
    if f < 0 {
      Dec.MulLe(f, -1, pool);
    }
    if f >= Dec.HALF {
      Dec.MulLe(Dec.HALF, f, pool);
    }
  }

  /** An offer 10^18 times the pool keeps under half of it by the constant product. */
  lemma TargetIsSmall(base: int, cp: int, pool: int, luna: int)
    requires pool > 0 && luna >= 0 && cp >= 0
    requires (cp == 0 || (pool >= 2 && 2 * cp * Dec.ONE <= 2 * pool * pool + Dec.ONE))
    requires base == pool * Dec.ONE
    ensures 0 <= 2 * Dec.Quo(cp, luna + base) < pool
  {
    hide Dec.Quo;
    if cp == 0 {
      QuoZero(luna + base);
    } else {
      Dec.QuoAntitone(cp, base, luna + base);
      Dec.QuoBounds(cp, base);
      var q := Dec.Quo(cp, base);
      assert 2 * q * base == (2 * q * pool) * Dec.ONE;
      UnderHalf(q, pool, cp);
    }
  }

  lemma UnderHalf(q: int, pool: int, cp: int)
    requires pool >= 2 && 2 * q * pool <= 2 * cp + pool && 2 * cp * Dec.ONE <= 2 * pool * pool + Dec.ONE
    ensures 2 * q < pool
  {
    if 2 * q >= pool {
      Dec.MulLe(pool, 2 * q, pool);
      Dec.MulLe(2, pool, pool);
    }
  }

  lemma QuoZero(b: int)
    requires b > 0
    ensures Dec.Quo(0, b) == 0
  {
    Dec.DivExact(0, b);
    Dec.ChopExact(0);
  }

  /** A pool at the equilibrium, or at one ulp if the base pool is zero. */
  ghost function Drained(basePool: int, minSpread: int): Env {
    Env(basePool, minSpread, 1, map[USDR := Dec.ONE], map[], false)
  }

  ghost function DrainedDelta(basePool: int): int {
    if basePool > 0 then 0 else 1
  }

  lemma OneForOne(e: Env, amount: nat)
    requires e.rates == map[USDR := Dec.ONE] && amount > 0
    ensures ComputeInternalSwap(e, amount * Dec.ONE, ULUNA, USDR) == Ok(amount * Dec.ONE)
  {
    var x := amount * Dec.ONE;
    Dec.ChopExact(x);
    assert x * Dec.ONE * Dec.ONE == (x * Dec.ONE) * Dec.ONE;
    Dec.DivExact(x * Dec.ONE, Dec.ONE);
  }

  lemma DrainedProduct(basePool: int, minSpread: int)
    requires basePool >= 0
    ensures var cp, pool := ConstantProduct(Drained(basePool, minSpread)), basePool + DrainedDelta(basePool);
            cp >= 0 && (cp == 0 || (pool >= 2 && 2 * cp * Dec.ONE <= 2 * pool * pool + Dec.ONE))
  {
    hide Dec.Chop;
    Dec.ChopBounds(basePool * basePool);
    if basePool <= 1 {
      assert basePool * basePool == basePool;
      assert Dec.Chop(basePool) == 0 by { SmallChop(basePool); }
    }
  }

  lemma SmallChop(x: int)
    requires 0 <= x < Dec.HALF
    ensures Dec.Chop(x) == 0
  {
  }

  lemma DrainedSpread(basePool: int, minSpread: int)
    requires basePool >= 0 && 0 <= minSpread < Dec.ONE
    ensures var e, delta := Drained(basePool, minSpread), DrainedDelta(basePool);
            LunaSpread(e, delta, true, (basePool + delta) * Dec.ONE) == Ok(Dec.ONE - 1)
  {
    hide Dec.Quo, ConstantProduct;
    var e, delta := Drained(basePool, minSpread), DrainedDelta(basePool);
    var pool := basePool + delta;
    DrainedProduct(basePool, minSpread);
    Dec.QuoAntitone(ConstantProduct(e), pool, pool);
    TargetIsSmall(pool * Dec.ONE, ConstantProduct(e), pool, LunaPool(e, delta));
    SpreadJustBelowOne(pool, Dec.Quo(ConstantProduct(e), LunaPool(e, delta) + pool * Dec.ONE));
  }

  /** One offer of as many uluna as the pool has ulps takes exactly the whole pool. */
  lemma PoolIsEmptied(basePool: int, minSpread: int)
    requires basePool >= 0 && 0 <= minSpread < Dec.ONE
    ensures var e, delta := Drained(basePool, minSpread), DrainedDelta(basePool);
            var swap := ComputeSwap(e, delta, ULUNA, basePool + delta, USDR);
            && Fits(e, delta, basePool, minSpread) && swap.Ok?
            && DeltaAfter(e, delta, ULUNA, basePool + delta, USDR, Net(swap.value)) == Ok(-basePool)
  {
    hide Dec.Mul, ComputeInternalSwap, LunaSpread;
    var e, delta := Drained(basePool, minSpread), DrainedDelta(basePool);
    var pool := basePool + delta;
    OneForOne(e, pool);
    SameDenom(e, pool * Dec.ONE, USDR);
    DrainedSpread(basePool, minSpread);
    WholeFee(pool);
    SameDenom(e, pool, USDR);
  }

  lemma WholeFee(pool: int)
    ensures Dec.Mul(Dec.ONE - 1, pool * Dec.ONE) == (Dec.ONE - 1) * pool
  {
    Dec.ChopExact((Dec.ONE - 1) * pool);
    assert (Dec.ONE - 1) * (pool * Dec.ONE) == (Dec.ONE - 1) * pool * Dec.ONE;
  }

  /** No swap can empty the pool if and only if the minimum spread is one. */
  lemma PoolSafeIff(basePool: int, minSpread: int)
    requires basePool >= 0 && 0 <= minSpread <= Dec.ONE
    ensures PoolSafe(basePool, minSpread) <==> minSpread == Dec.ONE
  {
    hide ComputeSwap, DeltaAfter, Net;
    if minSpread == Dec.ONE {
      forall e, delta, offer, amount: nat, ask | Fits(e, delta, basePool, minSpread)
        ensures KeepsPool(e, delta, offer, amount, ask)
      {
        FullSpreadKeeps(e, delta, offer, amount, ask);
      }
    } else {
      PoolIsEmptied(basePool, minSpread);
      var e, delta := Drained(basePool, minSpread), DrainedDelta(basePool);
      assert !KeepsPool(e, delta, ULUNA, basePool + delta, USDR);
    }
  }
}
