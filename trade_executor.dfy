/**
  `execute_trade`: size the order, refuse a quantity that is missing or not
  positive, otherwise place an order with the signal's fields and
  read the exchange's response. The `place_order` call is given as its
  reply; printing is not modelled.
*/
module TradeExecutor {
  import opened Wrappers
  import opened SignalParser
  import opened QuantityCalculator

  /** The arguments of `place_order`; the quantity goes out as `str(qty)`. */
  datatype OrderRequest = OrderRequest(
    category: string,
    symbol: string,
    side: string,
    orderType: string,
    qty: real)

  /**
    What `place_order` did: it raised, or it returned a response in which
    `retCode`, `retMsg` and `result.orderId` may each be missing.
  */
  datatype Reply =
    | Raised
    | Response(retCode: Option<int>, retMsg: Option<string>, orderId: Option<string>)

  /** How `execute_trade` ended. */
  datatype Verdict =
    | QuantityMissing                          // `None <= 0` raised a TypeError, which is caught
    | QuantityNotPositive(qty: real)           // "Invalid quantity"
    | ExchangeError                            // `place_order` raised, or a response key was missing
    | OrderAccepted(orderId: string)           // `retCode == 0`
    | OrderRejected(retCode: int, retMsg: string)

  /**
    The sizing done, the order sent (if any), how the call ended and what
    it returned (`response`, or `None`).
  */
  datatype Execution = Execution(
    sizing: Sizing,
    request: Option<OrderRequest>,
    verdict: Verdict,
    returned: Option<Reply>)

  /**
    The `place_order` arguments for a signal: its own category, symbol, side
    and order type, with the sized quantity; for a parsed signal every text
    argument is a word token.
  */
  function OrderFor(signal: Signal, qty: real): (o: OrderRequest)
    ensures o.category == signal.category && o.symbol == signal.symbol
    ensures o.side == signal.side && o.orderType == signal.orderType && o.qty == qty
    ensures WellFormed(signal) ==>
      IsToken(o.category) && IsToken(o.symbol) && IsToken(o.side) && IsToken(o.orderType)
  {
    OrderRequest(signal.category, signal.symbol, signal.side, signal.orderType, qty)
  }

  /** Reading the response: `retCode`, then `result.orderId` or `retMsg`; a missing key raises. */
  function ClassifyReply(reply: Reply): (v: Verdict)
    ensures v.OrderAccepted? <==> reply.Response? && reply.retCode == Some(0) && reply.orderId.Some?
    ensures v.OrderAccepted? ==> v.orderId == reply.orderId.value
    ensures v.OrderRejected? <==>
      reply.Response? && reply.retCode.Some? && reply.retCode.value != 0 && reply.retMsg.Some?
    ensures v.OrderRejected? ==> v.retCode == reply.retCode.value && v.retMsg == reply.retMsg.value
    ensures v.OrderAccepted? || v.OrderRejected? || v.ExchangeError?
  {
    match reply
    case Raised => ExchangeError
    case Response(code, msg, id) =>
      if code.None? then ExchangeError
      else if code.value == 0 then
        (if id.Some? then OrderAccepted(id.value) else ExchangeError)
      else
        (if msg.Some? then OrderRejected(code.value, msg.value) else ExchangeError)
  }

  /** `execute_trade(signal)`, with the exchange reads and the `place_order` reply given. */
  function ExecuteTrade(signal: Signal, config: Config, market: Market, reply: Reply): (e: Execution)
    ensures e.sizing == CalculateQuantity(signal, config, market)
    ensures e.request.Some? <==> e.sizing.qty.Some? && e.sizing.qty.value > 0.0
    ensures e.returned.Some? ==> e.request.Some? && e.returned == Some(reply)
  {
    var sizing := CalculateQuantity(signal, config, market);
    match sizing.qty
    case None => Execution(sizing, None, QuantityMissing, None)
    case Some(qty) =>
      if qty <= 0.0 then Execution(sizing, None, QuantityNotPositive(qty), None)
      else
        var verdict := ClassifyReply(reply);
        Execution(sizing, Some(OrderFor(signal, qty)), verdict,
          if verdict.ExchangeError? then None else Some(reply))
  }

  // ---------------------------------------------------------------------------
  // Properties of trade execution

  /** The only refusals: no quantity, or a quantity that is not positive; both leave the exchange alone. */
  lemma RefusalIffQuantityNotPositive(signal: Signal, config: Config, market: Market, reply: Reply)
    ensures var e := ExecuteTrade(signal, config, market, reply);
      && (e.verdict.QuantityMissing? <==> e.sizing.qty.None?)
      && (e.verdict.QuantityNotPositive? <==> e.sizing.qty.Some? && e.sizing.qty.value <= 0.0)
      && (e.verdict.QuantityNotPositive? ==> e.verdict.qty == e.sizing.qty.value)
      && (e.request.None? <==> e.verdict.QuantityMissing? || e.verdict.QuantityNotPositive?)
      && (e.request.None? ==> e.returned.None?)
  {
  }

  /** When no order is sent, the exchange's reply cannot affect the result. */
  lemma ReplyIgnoredWithoutOrder(signal: Signal, config: Config, market: Market, r1: Reply, r2: Reply)
    requires ExecuteTrade(signal, config, market, r1).request.None?
    ensures ExecuteTrade(signal, config, market, r1) == ExecuteTrade(signal, config, market, r2)
  {
  }

  /** An order carries the signal's category, symbol, side and order type unchanged and a positive sized quantity. */
  lemma OrderCarriesSignal(signal: Signal, config: Config, market: Market, reply: Reply)
    requires ExecuteTrade(signal, config, market, reply).request.Some?
    ensures var o := ExecuteTrade(signal, config, market, reply).request.value;
      && o.category == signal.category
      && o.symbol == signal.symbol
      && o.side == signal.side
      && o.orderType == signal.orderType
      && o.qty > 0.0
      && CalculateQuantity(signal, config, market).qty == Some(o.qty)
  {
  }

  /**
    Once an order is sent, it counts as placed exactly when `retCode` is 0 and
    an order id comes back, and the response is returned unless reading it raised.
  */
  lemma AcceptedIffRetCodeZero(signal: Signal, config: Config, market: Market, reply: Reply)
    requires ExecuteTrade(signal, config, market, reply).request.Some?
    ensures var e := ExecuteTrade(signal, config, market, reply);
      && (e.verdict.OrderAccepted? <==> reply.Response? && reply.retCode == Some(0) && reply.orderId.Some?)
      && (e.verdict.OrderRejected? <==>
            reply.Response? && reply.retCode.Some? && reply.retCode.value != 0 && reply.retMsg.Some?)
      && (e.returned.Some? <==> !e.verdict.ExchangeError?)
      && (e.returned.Some? ==> e.returned.value == reply)
  {
  }

  /** A raised `place_order` is caught: the order was sent, nothing is returned. */
  lemma RaisedOrderIsCaught(signal: Signal, config: Config, market: Market)
    requires ExecuteTrade(signal, config, market, Raised).request.Some?
    ensures ExecuteTrade(signal, config, market, Raised).verdict == ExchangeError
    ensures ExecuteTrade(signal, config, market, Raised).returned.None?
  {
  }

  /** MIRROR on a signal without a quantity sends no order (the comparison with `None` raises and is caught). */
  lemma MirrorWithoutQuantitySendsNothing(signal: Signal, config: Config, market: Market, reply: Reply)
    requires config.tradingMode == "MIRROR" && signal.signalQty.None?
    ensures ExecuteTrade(signal, config, market, reply).verdict == QuantityMissing
    ensures ExecuteTrade(signal, config, market, reply).request.None?
  {
  }

  /** An unknown mode, or a failed price read on a buy, sends no order. */
  lemma ZeroSizingSendsNothing(signal: Signal, config: Config, market: Market, reply: Reply)
    requires config.tradingMode != "MIRROR"
    requires (config.tradingMode != "FIXED" && config.tradingMode != "ALL_IN")
          || (signal.side != "Buy" && signal.side != "Sell")
          || (signal.side == "Buy" && market.ethPrice <= 0.0)
    ensures ExecuteTrade(signal, config, market, reply).verdict == QuantityNotPositive(0.0)
    ensures ExecuteTrade(signal, config, market, reply).request.None?
  {
    if signal.side == "Buy" && market.ethPrice <= 0.0
       && (config.tradingMode == "FIXED" || config.tradingMode == "ALL_IN") {
      NoPriceNoBuy(signal, config, market);
    } else {
      UnrecognisedSizesToZero(signal, config, market);
    }
  }
}
