/**
 * The market keeper: the pool delta and the bank as fields, swaps as the sequence of pool update,
 * burn, mint, payment and fee of x/market/keeper/msg_server.go.
 */
module MarketKeeper {
  import opened Outcome
  import opened Denoms
  import Dec
  import opened Swap
  import opened Pool
  import B = Bank

  const MARKET := "market"
  const ORACLE := "oracle"

  datatype Response = Response(swapCoin: int, swapFee: int)

  /** A successful swap: what was priced, what was paid and what was kept as a fee. */
  ghost predicate Swapped(e: Env, delta: int, bank: B.Bank, trader: string, receiver: string,
                          offer: string, amount: nat, ask: string, response: Response, bank': B.Bank)
  {
    var price := ComputeSwap(e, delta, offer, amount, ask);
    && price.Ok? && Net(price.value) >= 0
    && response.swapCoin == Dec.TruncateInt(Net(price.value))
    && response.swapCoin + response.swapFee == Dec.TruncateInt(price.value.amount)
    && response.swapCoin >= 0 && response.swapFee >= 0
    && (forall a, d :: B.BalanceOf(bank', a, d) == B.BalanceOf(bank, a, d)
          - (if a == trader && d == offer then amount else 0)
          + (if a == receiver && d == ask then response.swapCoin else 0)
          + (if a == ORACLE && d == ask then response.swapFee else 0))
    && (forall d :: B.SupplyOf(bank', d) == B.SupplyOf(bank, d)
          - (if d == offer then amount else 0)
          + (if d == ask then Dec.TruncateInt(price.value.amount) else 0))
  }

  /** Why a swap is refused, if it is; the checks come in this order. */
  function Refusal(e: Env, delta: int, bank: B.Bank, trader: string, offer: string, amount: nat, ask: string)
    : Option<SwapError>
  {
    var price := ComputeSwap(e, delta, offer, amount, ask);
    if price.Err? then Some(price.error)
    else
      var after := DeltaAfter(e, delta, offer, amount, ask, Net(price.value));
      if after.Err? then Some(after.error)
      else if B.BalanceOf(bank, trader, offer) < amount then Some(InsufficientFunds)
      else if Net(price.value) < 0 then Some(NegativeCoin)
      else if e.forbidZeroSwap && Dec.TruncateInt(Net(price.value)) <= 0 then Some(ZeroSwapCoin)
      else None
  }

  /** The delta moved by what was paid. */
  ghost predicate Moved(e: Env, delta: int, offer: string, amount: nat, ask: string, delta': int) {
    var price := ComputeSwap(e, delta, offer, amount, ask);
    price.Ok? && DeltaAfter(e, delta, offer, amount, ask, Net(price.value)) == Ok(delta')
  }

  class Keeper {
    var delta: int
    var bank: B.Bank

    constructor (bank: B.Bank)
      ensures delta == 0 && this.bank == bank
    {
      delta, this.bank := 0, bank;
    }

    /** Lets the delta decay toward zero at the end of a block. */
    method ReplenishPools(e: Env)
      requires ValidEnv(e)
      modifies this`delta
      ensures delta == Replenished(old(delta), e.recoveryPeriod)
    {
      var regression := Dec.QuoInt(delta, e.recoveryPeriod);
      delta := delta - regression;
    }

    method ApplySwapToPool(e: Env, offer: string, amount: nat, ask: string, net: int) returns (r: Priced<int>)
      modifies this`delta
      ensures r == DeltaAfter(e, old(delta), offer, amount, ask, net)
      ensures delta == if r.Ok? then r.value else old(delta)
    {
      if offer != ULUNA && ask != ULUNA {
        return Ok(delta);
      }
      var poolDelta := delta;
      if offer != ULUNA && ask == ULUNA {
        var base := ComputeInternalSwap(e, amount * Dec.ONE, offer, USDR);
        if base.Err? {
          return Err(base.error);
        }
        poolDelta := poolDelta + base.value;
      }
      if offer == ULUNA && ask != ULUNA {
        var base := ComputeInternalSwap(e, net, ask, USDR);
        if base.Err? {
          return Err(base.error);
        }
        poolDelta := poolDelta - base.value;
      }
      delta := poolDelta;
      return Ok(delta);
    }

    /** Sends the offer to the module and burns it there. */
    method TakeOffer(trader: string, offer: string, amount: nat) returns (ok: bool)
      requires forall a :: B.BalanceOf(bank, a, offer) >= 0
      modifies this`bank
      ensures ok <==> B.BalanceOf(old(bank), trader, offer) >= amount
      ensures ok ==> Taken(old(bank), bank, trader, offer, amount)
      ensures !ok ==> bank == old(bank)
    {
      var sent := B.Send(bank, trader, MARKET, offer, amount);
      if sent.None? {
        return false;
      }
      B.SendMoves(bank, trader, MARKET, offer, amount, MARKET, offer);
      var burned := B.Burn(sent.value, MARKET, offer, amount);
      if burned.None? {
        assert false;
      }
      OfferTaken(bank, sent.value, burned.value, trader, offer, amount);
      bank := burned.value;
      return true;
    }

    /** Mints what is asked for, pays the receiver and sends the fee to the oracle account. */
    method PayOut(receiver: string, ask: string, swapCoin: nat, feeCoin: nat) returns (ok: bool)
      modifies this`bank
      ensures ok ==> PaidOut(old(bank), bank, receiver, ask, swapCoin, feeCoin)
      ensures !ok ==> B.BalanceOf(old(bank), MARKET, ask) < 0
    {
      hide B.Credit, B.BalanceOf, PaidOut;
      var minted := B.Mint(bank, MARKET, ask, swapCoin + feeCoin);
      B.MintCreates(bank, MARKET, ask, swapCoin + feeCoin, MARKET, ask);
      var paid := B.Send(minted, MARKET, receiver, ask, swapCoin);
      if paid.None? {
        return false;
      }
      B.SendMoves(minted, MARKET, receiver, ask, swapCoin, MARKET, ask);
      if feeCoin == 0 {
        CoinsPaidOut(bank, minted, paid.value, paid.value, receiver, ask, swapCoin, feeCoin);
        bank := paid.value;
        return true;
      }
      var charged := B.Send(paid.value, MARKET, ORACLE, ask, feeCoin);
      if charged.None? {
        return false;
      }
      CoinsPaidOut(bank, minted, paid.value, charged.value, receiver, ask, swapCoin, feeCoin);
      bank := charged.value;
      return true;
    }

    /**
     * The whole swap. On success the trader loses exactly the offer, which is burned; exactly the whole
     * coins of the amount at the oracle price are minted; the receiver gets what a quote promised; the
     * rest goes to the oracle account.
     */
    method HandleSwapRequest(e: Env, trader: string, receiver: string, offer: string, amount: nat, ask: string)
      returns (r: Priced<Response>)
      requires ValidEnv(e) && B.Sound(bank)
      modifies this
      ensures r.Ok? ==> Swapped(e, old(delta), old(bank), trader, receiver, offer, amount, ask, r.value, bank)
      ensures r.Ok? ==> Moved(e, old(delta), offer, amount, ask, delta)
      ensures r.Ok? && amount < MAX_OFFER ==> SimulateSwap(e, old(delta), offer, amount, ask) == Ok(r.value.swapCoin)
      ensures r.Ok? ==> B.Sound(bank)
      ensures var refusal := Refusal(e, old(delta), old(bank), trader, offer, amount, ask);
              if refusal.None? then r.Ok? else r == Err(refusal.value)
    {
      hide ComputeSwap, DeltaAfter, Dec.Mul, SimulateSwap, Swapped, Dec.TruncateInt, B.Sound;
      var price := ComputeSwap(e, delta, offer, amount, ask);
      if price.Err? {
        return Err(price.error);
      }
      PricedIsPositive(e, delta, offer, amount, ask);
      var fee := 0;
      if price.value.spread > 0 {
        fee := Dec.Mul(price.value.spread, price.value.amount);
      }
      var net := price.value.amount - fee;
      QuoteAgrees(e, delta, offer, amount, ask);
      var applied := ApplySwapToPool(e, offer, amount, ask, net);
      if applied.Err? {
        return Err(applied.error);
      }
      SoundIsNonNegative(bank);
      var taken := TakeOffer(trader, offer, amount);
      if !taken {
        return Err(InsufficientFunds);
      }
      ghost var middle := bank;
      assert B.BalanceOf(middle, MARKET, ask) >= 0;
      if net < 0 {
        return Err(NegativeCoin);
      }
      var swapCoin := Dec.TruncateInt(net);
      var dust := net - swapCoin * Dec.ONE;
      if e.forbidZeroSwap && swapCoin <= 0 {
        return Err(ZeroSwapCoin);
      }
      var feeCoin := Dec.TruncateInt(fee + dust);
      WholeCoins(price.value, swapCoin, feeCoin);
      var paid := PayOut(receiver, ask, swapCoin, feeCoin);
      if !paid {
        assert false;
      }
      SwapComposes(e, old(delta), old(bank), middle, bank, trader, receiver, offer, amount, ask, swapCoin, feeCoin);
      return Ok(Response(swapCoin, feeCoin));
    }

    /** A message whose handler fails leaves no trace in the state. */
    method DeliverSwap(e: Env, trader: string, receiver: string, offer: string, amount: nat, ask: string)
      returns (r: Priced<Response>)
      requires ValidEnv(e) && B.Sound(bank)
      modifies this
      ensures B.Sound(bank)
      ensures r.Ok? ==> Swapped(e, old(delta), old(bank), trader, receiver, offer, amount, ask, r.value, bank)
      ensures r.Err? ==> delta == old(delta) && bank == old(bank)
      ensures r.Ok? <==> Refusal(e, old(delta), old(bank), trader, offer, amount, ask).None?
    {
      hide Swapped, Refusal, B.Sound;
      var savedDelta, savedBank := delta, bank;
      r := HandleSwapRequest(e, trader, receiver, offer, amount, ask);
      if r.Err? {
        delta, bank := savedDelta, savedBank;
      }
    }
  }

  lemma SoundIsNonNegative(bank: B.Bank)
    requires B.Sound(bank)
    ensures forall a, d :: B.BalanceOf(bank, a, d) >= 0
  {
  }

  lemma OfferTaken(bank: B.Bank, sent: B.Bank, burned: B.Bank, trader: string, offer: string, amount: nat)
    requires B.Send(bank, trader, MARKET, offer, amount) == Some(sent)
    requires B.Burn(sent, MARKET, offer, amount) == Some(burned)
    ensures Taken(bank, burned, trader, offer, amount)
  {
    forall a, d
      ensures B.BalanceOf(burned, a, d) == B.BalanceOf(bank, a, d) - (if a == trader && d == offer then amount else 0)
    {
      B.SendMoves(bank, trader, MARKET, offer, amount, a, d);
      B.BurnDestroys(sent, MARKET, offer, amount, a, d);
    }
    forall d
      ensures B.SupplyOf(burned, d) == B.SupplyOf(bank, d) - (if d == offer then amount else 0)
      ensures B.Held(burned, d) == B.Held(bank, d) - (if d == offer then amount else 0)
    {
      B.SendMoves(bank, trader, MARKET, offer, amount, MARKET, d);
      B.BurnDestroys(sent, MARKET, offer, amount, MARKET, d);
    }
  }

  lemma PaidOutAt(bank: B.Bank, minted: B.Bank, paid: B.Bank, charged: B.Bank, receiver: string, ask: string,
                  swapCoin: nat, feeCoin: nat, a: string, d: string)
    requires B.Mint(bank, MARKET, ask, swapCoin + feeCoin) == minted
    requires B.Send(minted, MARKET, receiver, ask, swapCoin) == Some(paid)
    requires (feeCoin == 0 && charged == paid) || B.Send(paid, MARKET, ORACLE, ask, feeCoin) == Some(charged)
    ensures B.BalanceOf(charged, a, d) == B.BalanceOf(bank, a, d)
              + (if a == receiver && d == ask then swapCoin else 0) + (if a == ORACLE && d == ask then feeCoin else 0)
    ensures B.SupplyOf(charged, d) == B.SupplyOf(bank, d) + (if d == ask then swapCoin + feeCoin else 0)
    ensures B.Held(charged, d) == B.Held(bank, d) + (if d == ask then swapCoin + feeCoin else 0)
  {
    hide B.Send, B.Mint, B.BalanceOf, B.SupplyOf, B.Held;
    B.MintCreates(bank, MARKET, ask, swapCoin + feeCoin, a, d);
    B.SendMoves(minted, MARKET, receiver, ask, swapCoin, a, d);
    if !(feeCoin == 0 && charged == paid) {
      B.SendMoves(paid, MARKET, ORACLE, ask, feeCoin, a, d);
    }
  }

  lemma CoinsPaidOut(bank: B.Bank, minted: B.Bank, paid: B.Bank, charged: B.Bank, receiver: string, ask: string,
                     swapCoin: nat, feeCoin: nat)
    requires B.Mint(bank, MARKET, ask, swapCoin + feeCoin) == minted
    requires B.Send(minted, MARKET, receiver, ask, swapCoin) == Some(paid)
    requires (feeCoin == 0 && charged == paid) || B.Send(paid, MARKET, ORACLE, ask, feeCoin) == Some(charged)
    ensures PaidOut(bank, charged, receiver, ask, swapCoin, feeCoin)
  {
    forall a, d
      ensures B.BalanceOf(charged, a, d) == B.BalanceOf(bank, a, d)
                + (if a == receiver && d == ask then swapCoin else 0) + (if a == ORACLE && d == ask then feeCoin else 0)
    {
      PaidOutAt(bank, minted, paid, charged, receiver, ask, swapCoin, feeCoin, a, d);
    }
    forall d
      ensures B.SupplyOf(charged, d) == B.SupplyOf(bank, d) + (if d == ask then swapCoin + feeCoin else 0)
      ensures B.Held(charged, d) == B.Held(bank, d) + (if d == ask then swapCoin + feeCoin else 0)
    {
      PaidOutAt(bank, minted, paid, charged, receiver, ask, swapCoin, feeCoin, MARKET, d);
    }
  }

  /**
   * The quote leaves out fees that round to nothing, the handler does not; still they agree. For offers
   * under the limit a quote is given exactly when the swap is priced and what is left is not negative.
   */
  lemma QuoteAgrees(e: Env, delta: int, offer: string, amount: nat, ask: string)
    requires ValidEnv(e)
    ensures var price, quote := ComputeSwap(e, delta, offer, amount, ask), SimulateSwap(e, delta, offer, amount, ask);
            && (quote.Ok? <==> amount < MAX_OFFER && price.Ok? && Net(price.value) >= 0)
            && (quote.Ok? ==> quote.value == Dec.TruncateInt(Net(price.value)))
            && (amount < MAX_OFFER && price.Err? ==> quote == Err(price.error))
  {
    hide ComputeInternalSwap, LunaSpread, Dec.TruncateInt, Dec.Mul;
    var price := ComputeSwap(e, delta, offer, amount, ask);
    if price.Ok? {
      PricedIsPositive(e, delta, offer, amount, ask);
      if price.value.spread > 0 {
        Dec.MulBounds(price.value.spread, price.value.amount);
      }
    }
  }

  /** Below the limit, what stands between a quote and its execution: the pool, the funds and a zero coin. */
  lemma QuoteIsExecutedIff(e: Env, delta: int, bank: B.Bank, trader: string, offer: string, amount: nat, ask: string)
    requires ValidEnv(e) && amount < MAX_OFFER
    ensures var quote := SimulateSwap(e, delta, offer, amount, ask);
            Refusal(e, delta, bank, trader, offer, amount, ask).None? <==>
            && quote.Ok?
            && (exists delta' :: Moved(e, delta, offer, amount, ask, delta'))
            && B.BalanceOf(bank, trader, offer) >= amount
            && (e.forbidZeroSwap ==> quote.value > 0)
  {
    hide ComputeSwap, SimulateSwap, DeltaAfter, Net, Dec.TruncateInt;
    QuoteAgrees(e, delta, offer, amount, ask);
    var price := ComputeSwap(e, delta, offer, amount, ask);
    if price.Ok? {
      var after := DeltaAfter(e, delta, offer, amount, ask, Net(price.value));
      if after.Ok? {
        assert Moved(e, delta, offer, amount, ask, after.value);
      }
    }
  }

  /** Payment and fee, truncated apart with the dust added to the fee, make up the whole gross coins. */
  lemma WholeCoins(p: Price, swapCoin: int, feeCoin: int)
    requires p.amount > 0 && Net(p) >= 0
    requires swapCoin == Dec.TruncateInt(Net(p))
    requires feeCoin == Dec.TruncateInt(FeeOf(p) + (Net(p) - swapCoin * Dec.ONE))
    ensures swapCoin >= 0 && feeCoin >= 0 && swapCoin + feeCoin == Dec.TruncateInt(p.amount)
  {
    hide Dec.Mul;
    if p.spread > 0 {
      Dec.MulBounds(p.spread, p.amount);
    }
    Dec.DivBounds(Net(p), Dec.ONE);
    Dec.DivBounds(FeeOf(p) + (Net(p) - swapCoin * Dec.ONE), Dec.ONE);
    Dec.DivBounds(p.amount, Dec.ONE);
  }

  lemma SwapComposes(e: Env, delta: int, bank: B.Bank, middle: B.Bank, after: B.Bank, trader: string, receiver: string,
                     offer: string, amount: nat, ask: string, swapCoin: nat, feeCoin: nat)
    requires ComputeSwap(e, delta, offer, amount, ask).Ok? && B.Sound(bank)
    requires var p := ComputeSwap(e, delta, offer, amount, ask).value;
             Net(p) >= 0 && swapCoin == Dec.TruncateInt(Net(p)) && swapCoin + feeCoin == Dec.TruncateInt(p.amount)
    requires Taken(bank, middle, trader, offer, amount) && B.BalanceOf(bank, trader, offer) >= amount
    requires PaidOut(middle, after, receiver, ask, swapCoin, feeCoin)
    ensures Swapped(e, delta, bank, trader, receiver, offer, amount, ask, Response(swapCoin, feeCoin), after)
    ensures B.Sound(after)
  {
    forall a, d
      ensures B.BalanceOf(after, a, d) == B.BalanceOf(bank, a, d)
                - (if a == trader && d == offer then amount else 0)
                + (if a == receiver && d == ask then swapCoin else 0) + (if a == ORACLE && d == ask then feeCoin else 0)
      ensures B.BalanceOf(after, a, d) >= 0
    {
      assert B.BalanceOf(middle, a, d) == B.BalanceOf(bank, a, d) - (if a == trader && d == offer then amount else 0);
    }
    forall d
      ensures B.SupplyOf(after, d) == B.SupplyOf(bank, d) - (if d == offer then amount else 0)
                + (if d == ask then swapCoin + feeCoin else 0)
      ensures B.Held(after, d) == B.SupplyOf(after, d)
    {
      assert B.SupplyOf(middle, d) == B.SupplyOf(bank, d) - (if d == offer then amount else 0);
      assert B.Held(middle, d) == B.Held(bank, d) - (if d == offer then amount else 0);
    }
  }

  ghost predicate Taken(bank: B.Bank, bank': B.Bank, trader: string, offer: string, amount: nat) {
    && (forall a, d :: B.BalanceOf(bank', a, d) == B.BalanceOf(bank, a, d) - (if a == trader &&
        d == offer then amount else 0))
    && (forall d :: B.SupplyOf(bank', d) == B.SupplyOf(bank, d) - (if d == offer then amount else 0))
    && (forall d :: B.Held(bank', d) == B.Held(bank, d) - (if d == offer then amount else 0))
  }

  ghost predicate PaidOut(bank: B.Bank, bank': B.Bank, receiver: string, ask: string, swapCoin: nat, feeCoin: nat) {
    && (forall a, d :: B.BalanceOf(bank', a, d) == B.BalanceOf(bank, a, d)
          + (if a == receiver && d == ask then swapCoin else 0) + (if a == ORACLE && d == ask then feeCoin else 0))
    && (forall d :: B.SupplyOf(bank', d) == B.SupplyOf(bank, d) + (if d == ask then swapCoin + feeCoin else 0))
    && (forall d :: B.Held(bank', d) == B.Held(bank, d) + (if d == ask then swapCoin + feeCoin else 0))
  }
}
