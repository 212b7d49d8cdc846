/**
  `calculate_quantity`: how much to trade for a signal under the configured
  trading mode. The exchange reads (`get_eth_price`, `get_usdt_balance`,
  `get_eth_balance`) are given as their results, 0.0 when a request fails,
  and the reads a computation makes are reported in order.
*/
module QuantityCalculator {
  import opened Wrappers
  import opened SignalParser

  /** The sizing configuration, read once at start-up. */
  datatype Config = Config(
    tradingMode: string,       // "MIRROR", "FIXED" or "ALL_IN" (already upper-cased)
    fixedAmountUsdt: real,     // FIXED buy: USDT to spend
    fixedAmountEth: real,      // FIXED sell: ETH to sell
    allInPercentage: real)     // ALL_IN: fraction of the balance to use

  /** The configuration when no environment variable overrides a default. */
  const DefaultConfig: Config := Config("MIRROR", 100.0, 0.04, 0.95)

  /** What each exchange read would return during this computation. */
  datatype Market = Market(ethPrice: real, usdtBalance: real, ethBalance: real)

  datatype MarketRead = EthPriceRead | UsdtBalanceRead | EthBalanceRead

  /** The value a read returns. */
  function ReadValue(market: Market, read: MarketRead): real
  {
    match read
    case EthPriceRead => market.ethPrice
    case UsdtBalanceRead => market.usdtBalance
    case EthBalanceRead => market.ethBalance
  }

  /** The quantity (`None` is Python's `None`) and the exchange reads made, in order. */
  datatype Sizing = Sizing(qty: Option<real>, fetches: seq<MarketRead>)

  /** The given fraction of an amount. */
  function Portion(amount: real, fraction: real): real
  {
    amount * fraction
  }

  /**
    `calculate_quantity(signal)`. Only MIRROR can return `None`, when the
    signal has no quantity.
  */
  function CalculateQuantity(signal: Signal, config: Config, market: Market): (r: Sizing)
    ensures r.qty.None? <==> config.tradingMode == "MIRROR" && signal.signalQty.None?
  {
    if config.tradingMode == "MIRROR" then
      Sizing(signal.signalQty, [])
    else if config.tradingMode == "FIXED" then
      if signal.side == "Buy" then
        var ethPrice := market.ethPrice;
        if ethPrice > 0.0 then Sizing(Some(config.fixedAmountUsdt / ethPrice), [EthPriceRead])
        else Sizing(Some(0.0), [EthPriceRead])
      else if signal.side == "Sell" then
        Sizing(Some(config.fixedAmountEth), [])
      else
        Sizing(Some(0.0), [])
    else if config.tradingMode == "ALL_IN" then
      if signal.side == "Buy" then
        var usdtToUse := Portion(market.usdtBalance, config.allInPercentage);
        var ethPrice := market.ethPrice;
        if ethPrice > 0.0 then Sizing(Some(usdtToUse / ethPrice), [UsdtBalanceRead, EthPriceRead])
        else Sizing(Some(0.0), [UsdtBalanceRead, EthPriceRead])
      else if signal.side == "Sell" then
        Sizing(Some(Portion(market.ethBalance, config.allInPercentage)), [EthBalanceRead])
      else
        Sizing(Some(0.0), [])
    else
      Sizing(Some(0.0), [])
  }

  // ---------------------------------------------------------------------------
  // Properties of the sizing policy

  /**
    Only the side and the quantity of a signal matter: the price and balances
    read are ETH's and USDT's whatever the signal's symbol, so a `BTCUSDT`
    signal under FIXED or ALL_IN is sized from ETH data.
  */
  lemma SizingIgnoresSymbol(signal: Signal, number: nat, category: string, symbol: string,
                            orderType: string, config: Config, market: Market)
    ensures CalculateQuantity(Signal(number, category, symbol, signal.side, orderType, signal.signalQty), config, market)
         == CalculateQuantity(signal, config, market)
  {
  }

  /** "MIRROR" and "ALL_IN" have the same length, so telling them apart takes a character. */
  lemma ModeNamesDiffer()
    ensures "MIRROR" != "ALL_IN"
  {
    assert "MIRROR"[0] != "ALL_IN"[0];
  }

  /** The reads made depend only on the mode and the side, never on what earlier reads returned. */
  lemma ReadsIndependentOfMarket(signal: Signal, config: Config, m1: Market, m2: Market)
    ensures CalculateQuantity(signal, config, m1).fetches == CalculateQuantity(signal, config, m2).fetches
  {
  }

  /** The result depends on the market only through the reads made: markets that agree on them give the same result. */
  lemma SizingDependsOnlyOnReads(signal: Signal, config: Config, m1: Market, m2: Market)
    requires forall k | 0 <= k < |CalculateQuantity(signal, config, m1).fetches| ::
      ReadValue(m1, CalculateQuantity(signal, config, m1).fetches[k]) ==
      ReadValue(m2, CalculateQuantity(signal, config, m1).fetches[k])
    ensures CalculateQuantity(signal, config, m1) == CalculateQuantity(signal, config, m2)
  {
    ModeNamesDiffer();
    var fetches := CalculateQuantity(signal, config, m1).fetches;
    if config.tradingMode == "MIRROR" {
    } else if config.tradingMode == "FIXED" && signal.side == "Buy" {
      assert fetches[0] == EthPriceRead;
      assert m1.ethPrice == m2.ethPrice;
    } else if config.tradingMode == "ALL_IN" && signal.side == "Buy" {
      assert fetches[0] == UsdtBalanceRead && fetches[1] == EthPriceRead;
      assert m1.usdtBalance == m2.usdtBalance && m1.ethPrice == m2.ethPrice;
    } else if config.tradingMode == "ALL_IN" && signal.side == "Sell" {
      AllInSellQuantity(signal, config, m1);
      AllInSellQuantity(signal, config, m2);
      assert fetches[0] == EthBalanceRead;
      assert m1.ethBalance == m2.ethBalance;
    }
  }

  /** MIRROR passes the signal's quantity through, absent or not, and reads nothing. */
  lemma MirrorUsesSignalQuantity(signal: Signal, config: Config, market: Market)
    requires config.tradingMode == "MIRROR"
    ensures CalculateQuantity(signal, config, market) == Sizing(signal.signalQty, [])
  {
  }

  /** FIXED buy: the quantity costs exactly the fixed USDT amount at the price read. */
  lemma FixedBuySpendsFixedAmount(signal: Signal, config: Config, market: Market)
    requires config.tradingMode == "FIXED" && signal.side == "Buy" && market.ethPrice > 0.0
    ensures var r := CalculateQuantity(signal, config, market);
      r.fetches == [EthPriceRead] && r.qty.Some? && r.qty.value * market.ethPrice == config.fixedAmountUsdt
  {
  }

  /** FIXED sell: the fixed ETH amount, without any read. */
  lemma FixedSellIsFixedAmount(signal: Signal, config: Config, market: Market)
    requires config.tradingMode == "FIXED" && signal.side == "Sell"
    ensures CalculateQuantity(signal, config, market) == Sizing(Some(config.fixedAmountEth), [])
  {
  }

  /** ALL_IN buy: the configured fraction of the USDT balance, converted at the price read. */
  lemma AllInBuyQuantity(signal: Signal, config: Config, market: Market)
    requires config.tradingMode == "ALL_IN" && signal.side == "Buy" && market.ethPrice > 0.0
    ensures var r := CalculateQuantity(signal, config, market);
      r.fetches == [UsdtBalanceRead, EthPriceRead]
      && r.qty == Some(market.usdtBalance * config.allInPercentage / market.ethPrice)
  {
    ModeNamesDiffer();
    var r := CalculateQuantity(signal, config, market);
    assert r.qty == Some(Portion(market.usdtBalance, config.allInPercentage) / market.ethPrice);
    assert Portion(market.usdtBalance, config.allInPercentage) == market.usdtBalance * config.allInPercentage;
    assert r.fetches == [UsdtBalanceRead, EthPriceRead];
  }

  /** ALL_IN buy: the quantity costs the configured fraction of the USDT balance at the price read. */
  lemma AllInBuySpendsFraction(signal: Signal, config: Config, market: Market)
    requires config.tradingMode == "ALL_IN" && signal.side == "Buy" && market.ethPrice > 0.0
    ensures CalculateQuantity(signal, config, market).qty.Some?
    ensures CalculateQuantity(signal, config, market).qty.value * market.ethPrice
      == market.usdtBalance * config.allInPercentage
  {
    AllInBuyQuantity(signal, config, market);
    DivisionUndone(market.usdtBalance * config.allInPercentage, market.ethPrice);
  }

  /** ALL_IN buy: with a fraction in [0, 1] the order never costs more than the USDT balance. */
  lemma AllInBuyWithinBalance(signal: Signal, config: Config, market: Market)
    requires config.tradingMode == "ALL_IN" && signal.side == "Buy" && market.ethPrice > 0.0
    requires 0.0 <= config.allInPercentage <= 1.0 && market.usdtBalance >= 0.0
    ensures CalculateQuantity(signal, config, market).qty.Some?
    ensures 0.0 <= CalculateQuantity(signal, config, market).qty.value * market.ethPrice <= market.usdtBalance
  {
    AllInBuySpendsFraction(signal, config, market);
    FractionOfBalance(market.usdtBalance, config.allInPercentage);
  }

  /** Dividing by a positive price and multiplying back gives the amount. */
  lemma DivisionUndone(amount: real, price: real)
    requires price > 0.0
    ensures amount / price * price == amount
  {
  }

  /** A fraction in [0, 1] of a nonnegative balance lies between 0 and the balance. */
  lemma FractionOfBalance(balance: real, fraction: real)
    requires balance >= 0.0 && 0.0 <= fraction <= 1.0
    ensures 0.0 <= Portion(balance, fraction) <= balance
  {
    assert balance * fraction + balance * (1.0 - fraction) == balance;
    assert balance * (1.0 - fraction) >= 0.0;
  }

  /** ALL_IN sell: the configured fraction of the ETH balance read. */
  lemma AllInSellQuantity(signal: Signal, config: Config, market: Market)
    requires config.tradingMode == "ALL_IN" && signal.side == "Sell"
    ensures var r := CalculateQuantity(signal, config, market);
      r.fetches == [EthBalanceRead] && r.qty == Some(market.ethBalance * config.allInPercentage)
  {
    ModeNamesDiffer();
    var r := CalculateQuantity(signal, config, market);
    assert r.qty == Some(Portion(market.ethBalance, config.allInPercentage));
    assert Portion(market.ethBalance, config.allInPercentage) == market.ethBalance * config.allInPercentage;
    assert r.fetches == [EthBalanceRead];
  }

  /** ALL_IN sell: with a fraction in [0, 1], never more than the ETH balance. */
  lemma AllInSellSellsFraction(signal: Signal, config: Config, market: Market)
    requires config.tradingMode == "ALL_IN" && signal.side == "Sell"
    requires 0.0 <= config.allInPercentage <= 1.0 && market.ethBalance >= 0.0
    ensures CalculateQuantity(signal, config, market).qty.Some?
    ensures 0.0 <= CalculateQuantity(signal, config, market).qty.value <= market.ethBalance
  {
    ModeNamesDiffer();
    FractionOfBalance(market.ethBalance, config.allInPercentage);
  }

  /** A buy under FIXED or ALL_IN sizes to 0 when the price read is not positive (a failed read). */
  lemma NoPriceNoBuy(signal: Signal, config: Config, market: Market)
    requires config.tradingMode == "FIXED" || config.tradingMode == "ALL_IN"
    requires signal.side == "Buy" && market.ethPrice <= 0.0
    ensures CalculateQuantity(signal, config, market).qty == Some(0.0)
  {
  }

  /** An unknown mode, or a side other than "Buy"/"Sell" under FIXED or ALL_IN, sizes to 0 without a read. */
  lemma UnrecognisedSizesToZero(signal: Signal, config: Config, market: Market)
    requires config.tradingMode != "MIRROR"
    requires (config.tradingMode != "FIXED" && config.tradingMode != "ALL_IN")
          || (signal.side != "Buy" && signal.side != "Sell")
    ensures CalculateQuantity(signal, config, market) == Sizing(Some(0.0), [])
  {
  }

  /** The worked figures: 100 USDT at 2000 is 0.05; 95% of 1000 USDT at 2000 is 0.475; 95% of 2 ETH is 1.9. */
  lemma SizingSamples(signal: Signal)
    ensures signal.side == "Buy" ==>
      CalculateQuantity(signal, Config("FIXED", 100.0, 0.04, 0.95), Market(2000.0, 0.0, 0.0)).qty == Some(0.05)
    ensures signal.side == "Buy" ==>
      CalculateQuantity(signal, Config("ALL_IN", 100.0, 0.04, 0.95), Market(2000.0, 1000.0, 0.0)).qty == Some(0.475)
    ensures signal.side == "Sell" ==>
      CalculateQuantity(signal, Config("ALL_IN", 100.0, 0.04, 0.95), Market(0.0, 0.0, 2.0)).qty == Some(1.9)
  {
  }
}
