/**
  `parse_signal`: the fields of a trade signal, each taken from the first
  match of its own pattern in the message text, with a default when the
  pattern matches nowhere.
*/
module SignalParser {
  import opened Wrappers
  import opened RegexSearch
  import opened PyNumbers

  /** The parsed signal; `symbol` and `side` are mandatory. */
  datatype Signal = Signal(
    signalNumber: nat,
    category: string,
    symbol: string,
    side: string,
    orderType: string,
    signalQty: Option<real>)

  const SignalNumberPattern: Pattern := Pattern("SIGNAL #", false, Digit)      // SIGNAL #(\d+)
  const CategoryPattern: Pattern := Pattern("Category:", true, Word)          // Category:\s*(\w+)
  const SymbolPattern: Pattern := Pattern("Symbol:", true, Word)              // Symbol:\s*(\w+)
  const SidePattern: Pattern := Pattern("Side:", true, Word)                  // Side:\s*(\w+)
  const OrderTypePattern: Pattern := Pattern("OrderType:", true, Word)        // OrderType:\s*(\w+)
  const QuantityPattern: Pattern := Pattern("Quantity:", true, DigitOrDot)    // Quantity:\s*([\d.]+)

  const DefaultCategory: string := "linear"
  const DefaultOrderType: string := "Market"

  /** A non-empty string of word characters. */
  predicate IsToken(s: string)
  {
    |s| > 0 && AllIn(s, Word)
  }

  /** Every text field of a parsed signal is a token. */
  predicate WellFormed(sig: Signal)
  {
    IsToken(sig.category) && IsToken(sig.symbol) && IsToken(sig.side) && IsToken(sig.orderType)
  }

  lemma DefaultsAreTokens()
    ensures IsToken(DefaultCategory) && IsToken(DefaultOrderType)
  {
    assert forall k | 0 <= k < |DefaultCategory| :: IsWordChar(DefaultCategory[k]);
    assert forall k | 0 <= k < |DefaultOrderType| :: IsWordChar(DefaultOrderType[k]);
  }

  /**
    `int(group)` of the signal number, defaulting to 0 when `SIGNAL #` is not
    followed by a digit anywhere; `None` when `int()` raises, which for a
    digit group happens exactly when it is longer than the digit limit.
  */
  function SignalNumberField(text: string): (r: Option<nat>)
    ensures Capture(text, SignalNumberPattern).None? ==> r == Some(0)
    ensures r.None? <==>
      Capture(text, SignalNumberPattern).Some? && |Capture(text, SignalNumberPattern).value| > IntMaxStrDigits
    ensures r.Some? && Capture(text, SignalNumberPattern).Some? ==>
      r == PyInt(Capture(text, SignalNumberPattern).value)
  {
    match Capture(text, SignalNumberPattern)
    case None => Some(0)
    case Some(digits) => PyInt(digits)
  }

  /**
    `float(group)` of the quantity: absent (`Some(None)`) exactly when there is
    no match, and `None`, for the caught `ValueError`, exactly when the group
    has two dots or no digit.
  */
  function QuantityField(text: string): (r: Option<Option<real>>)
    ensures r == Some(None) <==> Capture(text, QuantityPattern).None?
    ensures r.None? <==>
      Capture(text, QuantityPattern).Some? &&
      (DotCount(Capture(text, QuantityPattern).value) > 1 || !HasDigit(Capture(text, QuantityPattern).value))
    ensures r.Some? && Capture(text, QuantityPattern).Some? ==>
      r.value == PyFloat(Capture(text, QuantityPattern).value)
    ensures r.Some? && r.value.Some? ==> r.value.value >= 0.0
  {
    match Capture(text, QuantityPattern)
    case None => Some(None)
    case Some(q) =>
      PyFloatDefinedIff(q);
      match PyFloat(q)
      case None => None
      case Some(v) => Some(Some(v))
  }

  /**
    `parse_signal(text)`: `None` when a conversion raises (the exception is
    caught) or when the symbol or the side is missing.
  */
  function ParseSignal(text: string): (r: Option<Signal>)
    ensures r.Some? ==> WellFormed(r.value)
    ensures r.Some? && r.value.signalQty.Some? ==> r.value.signalQty.value >= 0.0
  {
    DefaultsAreTokens();
    var number := SignalNumberField(text);
    var qty := QuantityField(text);
    var symbol := Capture(text, SymbolPattern);
    var side := Capture(text, SidePattern);
    if number.None? || qty.None? then None
    else if symbol.None? || side.None? then None
    else
      Some(Signal(
        number.value,
        Capture(text, CategoryPattern).GetOr(DefaultCategory),
        symbol.value,
        side.value,
        Capture(text, OrderTypePattern).GetOr(DefaultOrderType),
        qty.value))
  }

  // ---------------------------------------------------------------------------
  // Properties of the parser

  /** Without a `Symbol:` match or without a `Side:` match there is no signal. */
  lemma MissingSymbolOrSideFails(text: string)
    ensures (forall i | 0 <= i <= |text| :: !Matches(text, i, SymbolPattern)) ==> ParseSignal(text).None?
    ensures (forall i | 0 <= i <= |text| :: !Matches(text, i, SidePattern)) ==> ParseSignal(text).None?
  {
    FirstMatchNoneIffNoMatch(text, SymbolPattern);
    FirstMatchNoneIffNoMatch(text, SidePattern);
  }

  /**
    The converse of the failures: a text parses exactly when `Symbol:` and
    `Side:` each match somewhere, the signal number (if any) is within the
    `int()` digit limit, and the quantity (if any) has at most one dot and a digit.
  */
  lemma ParseSucceedsIff(text: string)
    ensures ParseSignal(text).Some? <==>
      && (exists i | 0 <= i <= |text| :: Matches(text, i, SymbolPattern))
      && (exists i | 0 <= i <= |text| :: Matches(text, i, SidePattern))
      && (Capture(text, SignalNumberPattern).Some? ==>
            |Capture(text, SignalNumberPattern).value| <= IntMaxStrDigits)
      && (Capture(text, QuantityPattern).Some? ==>
            DotCount(Capture(text, QuantityPattern).value) <= 1 && HasDigit(Capture(text, QuantityPattern).value))
  {
    FirstMatchNoneIffNoMatch(text, SymbolPattern);
    FirstMatchNoneIffNoMatch(text, SidePattern);
  }

  /** A field whose pattern matches nowhere takes its default. */
  lemma AbsentFieldsTakeDefaults(text: string, sig: Signal)
    requires ParseSignal(text) == Some(sig)
    ensures (forall i | 0 <= i <= |text| :: !Matches(text, i, SignalNumberPattern)) ==> sig.signalNumber == 0
    ensures (forall i | 0 <= i <= |text| :: !Matches(text, i, CategoryPattern)) ==> sig.category == DefaultCategory
    ensures (forall i | 0 <= i <= |text| :: !Matches(text, i, OrderTypePattern)) ==> sig.orderType == DefaultOrderType
    ensures (forall i | 0 <= i <= |text| :: !Matches(text, i, QuantityPattern)) ==> sig.signalQty.None?
  {
    FirstMatchNoneIffNoMatch(text, SignalNumberPattern);
    FirstMatchNoneIffNoMatch(text, CategoryPattern);
    FirstMatchNoneIffNoMatch(text, OrderTypePattern);
    FirstMatchNoneIffNoMatch(text, QuantityPattern);
  }

  /** A field whose pattern matches is the group of the first match. */
  lemma PresentFieldsAreFirstGroups(text: string, sig: Signal)
    requires ParseSignal(text) == Some(sig)
    ensures Capture(text, SymbolPattern) == Some(sig.symbol)
    ensures Capture(text, SidePattern) == Some(sig.side)
    ensures Capture(text, CategoryPattern).Some? ==> Capture(text, CategoryPattern) == Some(sig.category)
    ensures Capture(text, OrderTypePattern).Some? ==> Capture(text, OrderTypePattern) == Some(sig.orderType)
    ensures Capture(text, SignalNumberPattern).Some? ==>
      PyInt(Capture(text, SignalNumberPattern).value) == Some(sig.signalNumber)
    ensures Capture(text, QuantityPattern).Some? ==>
      PyFloat(Capture(text, QuantityPattern).value) == sig.signalQty && sig.signalQty.Some?
  {
  }

  /**
    A `Quantity:` match whose group `float()` rejects (two dots, or no digit)
    makes the whole parse fail instead of leaving the quantity absent.
  */
  lemma MalformedQuantityFails(text: string, q: string)
    requires Capture(text, QuantityPattern) == Some(q)
    requires DotCount(q) > 1 || !HasDigit(q)
    ensures ParseSignal(text).None?
  {
    PyFloatDefinedIff(q);
  }

  /** A signal number longer than the `int()` digit limit makes the parse fail. */
  lemma OverlongSignalNumberFails(text: string, d: string)
    requires Capture(text, SignalNumberPattern) == Some(d)
    requires |d| > IntMaxStrDigits
    ensures ParseSignal(text).None?
  {
  }

  /**
    Sample searches: the group stops at the first non-word character; a
    `Symbol:` not followed by a word is skipped for a later one; `\s` also
    spans a line break, so an empty `Symbol:` line takes the next label.
  */
  lemma StopsAtNonWordMatch()
    ensures FirstMatch("Symbol:ETHUSDT/x", SymbolPattern) == Some(Match(0, 7, 14))
  {
    var s := "Symbol:ETHUSDT/x";
    OccursAtIsSlice(s, SymbolPattern.marker, 0);
    assert s[0..7] == "Symbol:";
    assert RunEnd(s, 7, Whitespace) == 7;
    assert RunEnd(s, 7, Word) == 14;
  }

  lemma StopsAtNonWordSample(s: string)
    requires s == "Symbol:ETHUSDT/x"
    ensures Capture(s, SymbolPattern) == Some("ETHUSDT")
  {
    StopsAtNonWordMatch();
    assert s[7..14] == "ETHUSDT";
  }

  /** The group stops at the first character that is not a word character. */
  lemma CaptureStopsAtNonWord()
    ensures Capture("Symbol:ETHUSDT/x", SymbolPattern) == Some("ETHUSDT")
  {
    StopsAtNonWordSample("Symbol:ETHUSDT/x");
  }

  lemma FailedSymbolLine(line: string, rest: string)
    requires line == "Symbol: /x\n"
    ensures MatchAt(line + rest, 0, SymbolPattern).None?
  {
    AgreesFromInPrefix(line, rest, SymbolPattern.marker, 0, 0);
    assert RunEnd(line, 7, Whitespace) == 8;
    RunEndInPrefix(line, rest, 7, Whitespace);
    assert RunEnd(line, 8, Word) == 8;
    RunEndInPrefix(line, rest, 8, Word);
  }

  lemma LaterSymbolLine(rest: string)
    requires rest == "Symbol: BTC"
    ensures FirstMatch(rest, SymbolPattern) == Some(Match(0, 8, 11))
  {
    OccursAtIsSlice(rest, SymbolPattern.marker, 0);
    assert rest[0..7] == "Symbol:";
    assert RunEnd(rest, 7, Whitespace) == 8;
    assert RunEnd(rest, 8, Word) == 11;
  }

  lemma SkipsToLaterMatch(line: string, rest: string)
    requires |line| == 11 && line[10] == '\n'
    requires MatchAt(line + rest, 0, SymbolPattern).None?
    requires OccursNowhereFrom(line, SymbolPattern.marker, 1)
    requires FirstMatch(rest, SymbolPattern) == Some(Match(0, 8, 11))
    ensures FirstMatch(line + rest, SymbolPattern) == Some(Match(11, 19, 22))
    ensures Capture(line + rest, SymbolPattern) == Some(rest[8..11])
  {
    var text := line + rest;
    assert Search(text, SymbolPattern, 0) == Search(text, SymbolPattern, 1);
    SearchSkipsLine(line, rest, SymbolPattern, 1);
    SearchShift(line, rest, SymbolPattern, 0);
    SliceShift(line, rest, 8, 11);
  }

  lemma SkipsToLaterSample(line: string, rest: string)
    requires line == "Symbol: /x\n" && rest == "Symbol: BTC"
    ensures Capture(line + rest, SymbolPattern) == Some("BTC")
  {
    SkipsToLaterFacts(line, rest);
    SkipsToLaterMatch(line, rest);
  }

  lemma SkipsToLaterFacts(line: string, rest: string)
    requires line == "Symbol: /x\n" && rest == "Symbol: BTC"
    ensures |line| == 11 && line[10] == '\n'
    ensures MatchAt(line + rest, 0, SymbolPattern).None?
    ensures OccursNowhereFrom(line, SymbolPattern.marker, 1)
    ensures FirstMatch(rest, SymbolPattern) == Some(Match(0, 8, 11))
    ensures rest[8..11] == "BTC"
  {
    FailedSymbolLine(line, rest);
    NoSecondSymbolMarker(line);
    LaterSymbolLine(rest);
  }

  lemma NoSecondSymbolMarker(line: string)
    requires line == "Symbol: /x\n"
    ensures OccursNowhereFrom(line, SymbolPattern.marker, 1)
  {
    assert line[1..] == "ymbol: /x\n";
    NowhereWithoutFirstChar(line, SymbolPattern.marker, 1);
  }

  /** A `Symbol:` that is not followed by a word is passed over for a later one. */
  lemma CaptureSkipsToLaterMarker()
    ensures Capture("Symbol: /x\n" + "Symbol: BTC", SymbolPattern) == Some("BTC")
  {
    SkipsToLaterSample("Symbol: /x\n", "Symbol: BTC");
  }

  /** `\s` also matches a line break, so an empty `Symbol:` line takes the next label. */
  lemma CaptureCrossesLineBreak()
    ensures Capture("Symbol:\nSide: Buy", SymbolPattern) == Some("Side")
  {
    var s := "Symbol:\nSide: Buy";
    CrossesLineBreakMatch();
    assert s[8..12] == "Side";
  }

  lemma CrossesLineBreakMatch()
    ensures FirstMatch("Symbol:\nSide: Buy", SymbolPattern) == Some(Match(0, 8, 12))
  {
    var s := "Symbol:\nSide: Buy";
    OccursAtIsSlice(s, SymbolPattern.marker, 0);
    assert s[0..7] == "Symbol:";
    assert RunEnd(s, 7, Whitespace) == 8;
    assert RunEnd(s, 8, Word) == 12;
  }
}
