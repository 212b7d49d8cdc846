# Trading signal listener — verified model

`listen_signals.py` watches a Telegram channel for trade signals and mirrors
each one as an order on Bybit. A message is handled in four steps, and
this project models each step as pure Dafny functions with lemmas about them:

1. **The filter** (`handle_new_message`). An empty message is dropped. A
   message that does not contain the text `SIGNAL #` is not a signal. Otherwise
   the message is parsed, and a signal that parses is executed.
2. **The parser** (`parse_signal`). Five fields (category, symbol, side, order
   type, quantity) are each taken from the first `re.search` match of a pattern
   `Marker:\s*(class+)`, and the signal number from the first match of
   `SIGNAL #(\d+)`.
   - Category, order type, signal number and quantity have defaults (`"linear"`,
     `"Market"`, 0, none).
   - Symbol and side are mandatory.
   - The `int()` or `float()` conversion of the number or the quantity can
     raise. The exception is caught, and the whole parse fails.
3. **Sizing** (`calculate_quantity`). The order quantity depends on the trading
   mode:
   - MIRROR uses the signal's own quantity.
   - FIXED buys a fixed USDT amount at the current price, or sells a fixed ETH
     amount.
   - ALL_IN uses a fraction of the USDT or ETH balance.
   - Anything else gives 0.
4. **Execution** (`execute_trade`). A missing quantity or one that is not
   positive is refused. Otherwise an order is sent with the signal's
   category, symbol, side and order type (`Market` unless the message names
   another `OrderType:`). The reply is read by its `retCode`,
   and any exception is caught.

Modules, in dependency order:

* `Wrappers` — `Option`.
* `RegexSearch` — `re.search` for the patterns `M\s*(C+)` and `M(C+)`.
  - `Search` scans positions from left to right.
  - `MatchAt` takes the marker, skips the whitespace and takes the longest run
    of the class.
  - A ghost description of what the pattern matches (`Matches`, `MatchesWith`)
    is the reference. Against it the scan is proved to find the leftmost match
    with the longest group.
* `PyNumbers` — `int()` on a `\d+` group and `float()` on a `[\d.]+` group.
  - `int()` has a digit limit of 4300, the default of CPython 3.11 and later
    (and of the security releases that backported it); older interpreters have
    no limit.
  - `float()` is defined exactly when there is at most one dot and at least one
    digit.
  - Values are exact decimals.
* `SignalParser` — `ParseSignal` and its field patterns and defaults.
* `QuantityCalculator` — `CalculateQuantity`.
  - The exchange reads are given as a `Market` value.
  - The result records which reads the computation makes, in order.
* `TradeExecutor` — `ExecuteTrade`. The reply of `place_order` is a parameter:
  either it raised, or it is a response whose `retCode`, `retMsg` and
  `result.orderId` may each be missing.
* `SignalDispatcher` — `HandleNewMessage`, the whole pipeline for one message.
* `WorkedSignal` — a five-line example message traced from text to order.

A behaviour of the code that its own text suggests was not intended is
modelled as the code runs:

* Under MIRROR, a signal without `Quantity:` gives `None`. The read
  `signal.get('signal_qty', 0)` (listen_signals.py:124) suggests 0 was meant,
  but its default never applies because `parse_signal` always sets the key. The
  later `None <= 0` raises a `TypeError`, which `execute_trade` catches, so no
  order is sent (`TradeExecutor.MirrorWithoutQuantitySendsNothing`).
Two consequences of the patterns and the exchange reads:

* `\s` also matches a line break. An empty `Symbol:` line therefore captures
  the label on the next line (`SignalParser.CaptureCrossesLineBreak`).
* The price and balances read are ETH's and USDT's whatever the signal's
  symbol (listen_signals.py:46, 56, 66), so a `BTCUSDT` signal under FIXED or
  ALL_IN is sized from ETH data (`QuantityCalculator.SizingIgnoresSymbol`).

## Model

| member | source | states |
|---|---|---|
| RegexSearch.Contains | listen_signals.py:246 | `"SIGNAL #" in message`: the marker is a slice of the text at some position; the character-by-character occurrence test agrees with slicing |
| RegexSearch.MatchAt | listen_signals.py:80-100 | a match at a position starts with the marker there, skips only whitespace (nothing, for `SIGNAL #(\d+)`), and its group is a non-empty run of class characters that ends at the end of the text or before a character outside the class |
| RegexSearch.FirstMatch | listen_signals.py:80-100 | `re.search`: a match found is the match at its start position, and no earlier position matches; when none is found, no position matches |
| RegexSearch.RunEnd | listen_signals.py:84 | the end of the longest run of class characters from a position: every character before it is in the class, and the one at it is not |
| RegexSearch.Search | listen_signals.py:80-100 | a match found from `from` is the match at its start position; no position between `from` and that start (or up to the end, when none is found) matches |
| RegexSearch.MatchAtIsLongestMatch | listen_signals.py:84-100 | the match at a position exists exactly when the pattern matches there; its group is one the pattern allows, and no allowed group starts elsewhere or ends later (greedy `\s*`, then greedy `+`) |
| RegexSearch.FirstMatchIsLeftmostLongest | listen_signals.py:80-100 | `re.search` semantics: the first match is a real match, no earlier position matches, and its group is the longest one at that position |
| RegexSearch.FirstMatchNoneIffNoMatch | listen_signals.py:80-100 | the search finds nothing exactly when the pattern matches at no position of the text |
| RegexSearch.CaptureIsMaximal | listen_signals.py:84-100 | the captured run stops at the end of the text or at a character outside the class |
| RegexSearch.Capture | listen_signals.py:80-100 | a captured group is non-empty and made only of the pattern's class characters |
| RegexSearch.CaptureWithoutMarker | listen_signals.py:80-100 | a text in which the marker never occurs has no match |
| RegexSearch.CapturePastLine | listen_signals.py:80-100 | a first line without the marker does not change what is captured from the rest |
| RegexSearch.CaptureInLeadingLine | listen_signals.py:80-100 | a match that starts the text and whose group ends inside the first line is the capture, whatever follows |
| PyNumbers.DigitsValueConcat | listen_signals.py:81 | the decimal value of concatenated digit strings: the first part shifted by the length of the second, plus the second |
| PyNumbers.LeadingZeroIgnored | listen_signals.py:81 | `int()` ignores a leading zero: `int("0" + s) == int(s)`, except that `int("0")` is 0 where `int("")` raises, and that a digit string exactly at the 4300-digit limit goes over it |
| PyNumbers.PyInt | listen_signals.py:81 | `int()` of a digit string succeeds exactly for 1 to 4300 digits, and the value is below 10 to the power of the length |
| PyNumbers.PyFloat | listen_signals.py:101 | a successful `float()` of digits and dots is not negative |
| PyNumbers.PyFloatDefinedIff | listen_signals.py:101 | `float()` of a `[\d.]+` group succeeds exactly when it has at most one dot and at least one digit |
| PyNumbers.PyFloatIntegerPart | listen_signals.py:101 | the integer part of a successful `float()` is the value of the digits before the first dot |
| PyNumbers.FloatOfDecimal | listen_signals.py:101 | `float("0.04") == 0.04` |
| PyNumbers.FloatOfTrailingDot | listen_signals.py:101 | `float("5.") == 5.0` |
| PyNumbers.FloatOfLeadingDot | listen_signals.py:101 | `float(".5") == 0.5` |
| PyNumbers.FloatOfLoneDot | listen_signals.py:101 | `float(".")` raises |
| PyNumbers.FloatOfTwoDots | listen_signals.py:101 | `float("1.2.3")` raises |
| SignalParser.DefaultsAreTokens | listen_signals.py:85-97 | the defaults `"linear"` and `"Market"` are non-empty word strings |
| SignalParser.SignalNumberField | listen_signals.py:80-81 | the signal number is 0 when `SIGNAL #` is never followed by a digit, `int()` of the group otherwise, and raises exactly when the group is longer than the digit limit |
| SignalParser.QuantityField | listen_signals.py:100-101 | the quantity is absent exactly when `Quantity:` has no match, raises exactly when the group has two dots or no digit, and is otherwise `float()` of the group, which is not negative |
| SignalParser.ParseSignal | listen_signals.py:74-110 | a parsed signal has category, symbol, side and order type made of one or more word characters, and a quantity that, when present, is not negative |
| SignalParser.ParseSucceedsIff | listen_signals.py:74-110 | a text parses exactly when `Symbol:` and `Side:` each match somewhere, a signal-number group (if any) is within the `int()` digit limit, and a quantity group (if any) has at most one dot and a digit |
| SignalParser.MissingSymbolOrSideFails | listen_signals.py:88-104 | a text in which `Symbol:\s*(\w+)` or `Side:\s*(\w+)` matches nowhere does not parse |
| SignalParser.AbsentFieldsTakeDefaults | listen_signals.py:80-101 | when a pattern matches nowhere, the field takes its default: number 0, category `"linear"`, order type `"Market"`, no quantity |
| SignalParser.PresentFieldsAreFirstGroups | listen_signals.py:80-101 | each field of a parsed signal is the first match's group, converted by `int()` or `float()` for the number and the quantity |
| SignalParser.MalformedQuantityFails | listen_signals.py:100-110 | a `Quantity:` group with two dots or no digit makes the whole parse fail instead of defaulting the quantity |
| SignalParser.OverlongSignalNumberFails | listen_signals.py:80-110 | a signal number with more digits than the `int()` limit makes the whole parse fail |
| SignalParser.CaptureStopsAtNonWord | listen_signals.py:88 | `Symbol:ETHUSDT/x` gives the symbol `ETHUSDT` |
| SignalParser.CaptureSkipsToLaterMarker | listen_signals.py:88 | a first `Symbol:` followed by a non-word character is passed over, and a later `Symbol: BTC` gives `BTC` |
| SignalParser.CaptureCrossesLineBreak | listen_signals.py:88 | `\s*` spans a line break: `Symbol:` on an empty line captures `Side` from the next line |
| QuantityCalculator.CalculateQuantity | listen_signals.py:113-188 | the quantity is `None` exactly under MIRROR on a signal without a quantity |
| QuantityCalculator.ReadsIndependentOfMarket | listen_signals.py:142-180 | which exchange reads are made, and in what order, depends only on the mode and the side |
| QuantityCalculator.SizingIgnoresSymbol | listen_signals.py:113-188 | the sizing depends on the signal's side and quantity only: its number, category, symbol and order type never change it, so any symbol is sized from the ETH price and the USDT and ETH balances |
| QuantityCalculator.SizingDependsOnlyOnReads | listen_signals.py:142-180 | two markets that agree on every read the computation makes give the same quantity |
| QuantityCalculator.MirrorUsesSignalQuantity | listen_signals.py:124-136 | MIRROR returns the signal's quantity unchanged and reads nothing |
| QuantityCalculator.FixedBuySpendsFixedAmount | listen_signals.py:139-148 | a FIXED buy at a positive price reads the price once and buys the fixed USDT amount's worth: quantity times price is that amount |
| QuantityCalculator.FixedSellIsFixedAmount | listen_signals.py:153-157 | a FIXED sell is the fixed ETH amount and reads nothing |
| QuantityCalculator.AllInBuyQuantity | listen_signals.py:160-173 | an ALL_IN buy at a positive price reads the USDT balance, then the price, and buys `balance * percentage / price` |
| QuantityCalculator.AllInBuySpendsFraction | listen_signals.py:160-173 | the ALL_IN buy's quantity times price is the configured fraction of the USDT balance |
| QuantityCalculator.AllInBuyWithinBalance | listen_signals.py:160-173 | with a percentage between 0 and 1 and a non-negative balance, an ALL_IN buy never spends more than the USDT balance |
| QuantityCalculator.AllInSellQuantity | listen_signals.py:178-184 | an ALL_IN sell reads the ETH balance once and sells `balance * percentage` |
| QuantityCalculator.AllInSellSellsFraction | listen_signals.py:178-184 | with a percentage between 0 and 1, an ALL_IN sell is between 0 and the ETH balance |
| QuantityCalculator.NoPriceNoBuy | listen_signals.py:143-176 | a FIXED or ALL_IN buy whose price read gave 0 or less sizes to 0 |
| QuantityCalculator.UnrecognisedSizesToZero | listen_signals.py:153-188 | an unknown mode, or a side other than exactly `Buy` or `Sell` under FIXED or ALL_IN, sizes to 0 without reading anything |
| QuantityCalculator.SizingSamples | listen_signals.py:139-184 | FIXED buy of 100 USDT at 2000 is 0.05 ETH; ALL_IN 95% of 1000 USDT at 2000 is 0.475 ETH; ALL_IN 95% of 2 ETH is 1.9 ETH |
| TradeExecutor.ClassifyReply | listen_signals.py:220-232 | the reply counts as accepted exactly when `retCode` is 0 and an order id is present, and as rejected exactly when `retCode` is non-zero and `retMsg` is present (with those values); anything else is an exchange error |
| TradeExecutor.OrderFor | listen_signals.py:212-218 | the `place_order` arguments are the signal's category, symbol, side and order type unchanged and the sized quantity; for a parsed signal each text argument is a word token |
| TradeExecutor.ExecuteTrade | listen_signals.py:191-232 | the sizing is `calculate_quantity`'s; an order is sent exactly when the quantity exists and is positive; only the reply to a sent order is ever returned |
| TradeExecutor.RefusalIffQuantityNotPositive | listen_signals.py:195-232 | the refusals are exactly a missing quantity and one at most 0, and a refusal sends nothing and returns nothing |
| TradeExecutor.ReplyIgnoredWithoutOrder | listen_signals.py:197-199 | when no order is sent, the exchange's reply has no effect on the result |
| TradeExecutor.OrderCarriesSignal | listen_signals.py:212-218 | the order carries the signal's category, symbol, side and order type verbatim and the sized quantity, which is positive |
| TradeExecutor.AcceptedIffRetCodeZero | listen_signals.py:220-228 | once an order is sent, it is accepted exactly when `retCode == 0` with an order id; the response is returned exactly when reading it did not raise |
| TradeExecutor.RaisedOrderIsCaught | listen_signals.py:212-232 | a `place_order` that raises is caught: an exchange error, and nothing returned |
| TradeExecutor.MirrorWithoutQuantitySendsNothing | listen_signals.py:124-232 | under MIRROR, a signal without a quantity ends on the caught `None <= 0` error, and no order is sent |
| TradeExecutor.ZeroSizingSendsNothing | listen_signals.py:143-199 | outside MIRROR, an unknown mode, a side other than `Buy` or `Sell`, or a failed price read on a buy is refused as quantity 0 and sends nothing |
| SignalDispatcher.HandleNewMessage | listen_signals.py:236-253 | a message is executed only if its text contains `SIGNAL #` and parses to a well-formed signal |
| SignalDispatcher.OutcomeClassification | listen_signals.py:238-253 | each outcome in terms of the text alone: empty; non-empty without `SIGNAL #`; with the marker but failing the parse; with the marker and parsing (and then executed as `execute_trade` of the parsed signal) |
| SignalDispatcher.NoSymbolOrSideNoOrder | listen_signals.py:88-251 | a text with no `Symbol:` match or no `Side:` match is never executed and places no order |
| SignalDispatcher.OrderComesFromText | listen_signals.py:84-251 | an order sent for a message is for a text containing `SIGNAL #`. It carries that text's first `Symbol:` and `Side:` groups, its `Category:` and `OrderType:` groups or their defaults, all of them word tokens, and a positive quantity |
| SignalDispatcher.MarkerIsRequired | listen_signals.py:246 | a non-empty message without `SIGNAL #` is not a signal, whatever else it contains |
| WorkedSignal.SampleMessageParses | listen_signals.py:74-106 | the five-line message `SIGNAL #7 / Category: linear / Symbol: ETHUSDT / Side: Buy / Quantity: 0.04` parses to signal 7 with those fields and order type `Market` |
| WorkedSignal.SampleMessagePlacesOrder | listen_signals.py:133-251 | under the default configuration (MIRROR), that message sends a `linear` market buy of 0.04 `ETHUSDT`, whatever the market reads are |

## Left out

- Configuration loading (listen_signals.py:9-40) is not modelled. The constants are a `Config` parameter; `DefaultConfig` holds the defaults, and `TRADING_MODE` is taken as already upper-cased.
- The Bybit HTTP calls in `get_usdt_balance`, `get_eth_balance` and `get_eth_price` (listen_signals.py:43-71) are foreign network calls. Only their results are modelled, as a `Market` value in which a failed read is 0.0.
- `bybit.place_order` (listen_signals.py:212) is a foreign call. It is given as its `Reply`: either it raised, or it returned a response with optional `retCode`, `retMsg` and `result.orderId`.
- The Telegram client, the async event registration, `main` and the `KeyboardInterrupt` handling (listen_signals.py:235, 256-288) are I/O and async runtime. `event.message.text` is taken to be a string, so the case where it is `None` is not modelled.
- The `print` diagnostics and `datetime.now()` are logging only.
- Floating point: quantities, prices and balances are exact reals. IEEE rounding in the divisions and products (listen_signals.py:144, 164, 168, 181) is not modelled, and neither is overflow to `inf` in `float()`.
- TradeExecutor.OrderCarriesSignal: the order's quantity is the real value itself, not its `str(qty)` text (listen_signals.py:217), because float formatting is not modelled.
- RegexSearch.RunEnd: `\w`, `\d` and `\s` are Python's (Unicode) classes restricted to ASCII characters, so `\s` includes the separators \x1c-\x1f as it does without `re.ASCII`. Every non-ASCII character is outside all three classes, which differs from Python: `Symbol:\u00A0ETH` has no match in the model (Python's `\s` matches the no-break space and captures `ETH`), and `Symbol: ETHé` captures `ETH` where Python captures `ETHé`. The Unicode digits `int()` and `float()` accept are not modelled either.
- PyNumbers.PyFloat: only `float()` on `[\d.]+` groups is modelled, which are all the parser can pass it. Signs, exponents, underscores and surrounding whitespace cannot occur in such a group.
- Concurrency: overlapping handler invocations are not modelled. The model handles one message at a time.
