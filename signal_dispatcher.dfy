/**
  `handle_new_message`: the filter every channel message goes through. An
  empty message is dropped, a message without the text `SIGNAL #` is not a
  signal, and a signal that parses is executed.
*/
module SignalDispatcher {
  import opened Wrappers
  import opened RegexSearch
  import opened PyNumbers
  import opened SignalParser
  import opened QuantityCalculator
  import opened TradeExecutor

  /** The substring that marks a message as a signal. */
  const SignalMarker: string := "SIGNAL #"

  /** What the handler did with one message. */
  datatype Outcome =
    | EmptyMessage                                   // `if not message: return`
    | NotASignal                                     // no `SIGNAL #` anywhere in the text
    | ParseFailed                                    // "Failed to parse signal"
    | Executed(signal: Signal, execution: Execution)

  /** `handle_new_message` on a message text, with the exchange reads and the order reply given. */
  function HandleNewMessage(text: string, config: Config, market: Market, reply: Reply): (o: Outcome)
    ensures o.Executed? ==> Contains(text, SignalMarker) && WellFormed(o.signal)
  {
    if |text| == 0 then EmptyMessage
    else if !Contains(text, SignalMarker) then NotASignal
    else
      match ParseSignal(text)
      case None => ParseFailed
      case Some(signal) => Executed(signal, ExecuteTrade(signal, config, market, reply))
  }

  /** True when handling the message sent an order to the exchange. */
  predicate PlacesOrder(o: Outcome)
  {
    o.Executed? && o.execution.request.Some?
  }

  // ---------------------------------------------------------------------------
  // Properties of the filter

  /** Each outcome, characterised by the message alone. */
  lemma OutcomeClassification(text: string, config: Config, market: Market, reply: Reply)
    ensures var o := HandleNewMessage(text, config, market, reply);
      && (o.EmptyMessage? <==> |text| == 0)
      && (o.NotASignal? <==> |text| > 0 && !Contains(text, SignalMarker))
      && (o.ParseFailed? <==> Contains(text, SignalMarker) && ParseSignal(text).None?)
      && (o.Executed? <==> Contains(text, SignalMarker) && ParseSignal(text).Some?)
      && (o.Executed? ==> Some(o.signal) == ParseSignal(text)
                          && o.execution == ExecuteTrade(o.signal, config, market, reply))
  {
    if |text| == 0 {
      assert !OccursAt(text, SignalMarker, 0);
    }
  }

  /** A message with no `Symbol:` match, or no `Side:` match, never places an order. */
  lemma NoSymbolOrSideNoOrder(text: string, config: Config, market: Market, reply: Reply)
    requires (forall i | 0 <= i <= |text| :: !Matches(text, i, SymbolPattern))
          || (forall i | 0 <= i <= |text| :: !Matches(text, i, SidePattern))
    ensures !HandleNewMessage(text, config, market, reply).Executed?
    ensures !PlacesOrder(HandleNewMessage(text, config, market, reply))
  {
    MissingSymbolOrSideFails(text);
  }

  /**
    An order sent for a message carries the first `Symbol:` and `Side:` groups
    of its text, its `Category:` and `OrderType:` groups or their defaults, and
    a positive quantity; and the text contains the marker.
  */
  lemma OrderComesFromText(text: string, config: Config, market: Market, reply: Reply)
    requires PlacesOrder(HandleNewMessage(text, config, market, reply))
    ensures var o := HandleNewMessage(text, config, market, reply).execution.request.value;
      && Contains(text, SignalMarker)
      && Capture(text, SymbolPattern) == Some(o.symbol)
      && Capture(text, SidePattern) == Some(o.side)
      && o.category == Capture(text, CategoryPattern).GetOr(DefaultCategory)
      && o.orderType == Capture(text, OrderTypePattern).GetOr(DefaultOrderType)
      && IsToken(o.symbol) && IsToken(o.side) && IsToken(o.category) && IsToken(o.orderType)
      && o.qty > 0.0
  {
    var out := HandleNewMessage(text, config, market, reply);
    OutcomeClassification(text, config, market, reply);
    PresentFieldsAreFirstGroups(text, out.signal);
    OrderCarriesSignal(out.signal, config, market, reply);
  }

  /** A message whose text looks like a signal but lacks the marker is ignored, whatever it parses to. */
  lemma MarkerIsRequired(text: string, config: Config, market: Market, reply: Reply)
    requires |text| > 0 && !Contains(text, SignalMarker)
    ensures HandleNewMessage(text, config, market, reply) == NotASignal
  {
  }
}
