/**
  The worked message of the signal format, followed field by field through
  the parser and the dispatcher.
*/
module WorkedSignal {
  import opened Wrappers
  import opened RegexSearch
  import opened PyNumbers
  import opened SignalParser
  import opened QuantityCalculator
  import opened TradeExecutor
  import opened SignalDispatcher

  const Line1: string := "SIGNAL #7\n"
  const Line2: string := "Category: linear\n"
  const Line3: string := "Symbol: ETHUSDT\n"
  const Line4: string := "Side: Buy\n"
  const Line5: string := "Quantity: 0.04"

  /** The worked message, line by line. */
  function SampleMessage(): string
  {
    Line1 + Line2 + Line3 + Line4 + Line5
  }

  /**
    A field whose marker has a character missing from the lines before it
    (the last of which ends in a line break) is taken from the line where it
    matches, provided its group ends inside that line.
  */
  lemma FieldOfLine(before: string, line: string, after: string, p: Pattern, n: nat, m: Match)
    requires |before| > 0 && before[|before| - 1] == '\n' && '\n' !in p.marker
    requires n < |p.marker| && p.marker[n] !in before
    requires MatchAt(line, 0, p) == Some(m) && m.capEnd < |line|
    ensures Capture(before + (line + after), p) == Some(line[m.capStart..m.capEnd])
  {
    NowhereWithoutChar(before, p.marker, n, 0);
    CapturePastLine(before, line + after, p);
    CaptureInLeadingLine(line, after, p, m);
  }

  /** The same for a field on the last line, whose group may run to the end of the text. */
  lemma FieldOfLastLine(before: string, line: string, p: Pattern, n: nat, m: Match)
    requires |before| > 0 && before[|before| - 1] == '\n' && '\n' !in p.marker
    requires n < |p.marker| && p.marker[n] !in before
    requires MatchAt(line, 0, p) == Some(m)
    ensures Capture(before + line, p) == Some(line[m.capStart..m.capEnd])
  {
    NowhereWithoutChar(before, p.marker, n, 0);
    CapturePastLine(before, line, p);
  }

  // The facts each line contributes, stated about a variable so that the
  // message is never evaluated as a whole.

  predicate EndsLine(l: string)
  {
    |l| > 0 && l[|l| - 1] == '\n'
  }

  predicate Line1Facts(l: string)
  {
    && EndsLine(l) && |l| == 10 && OccursAt(l, SignalMarker, 0)
    && MatchAt(l, 0, SignalNumberPattern) == Some(Match(0, 8, 9)) && l[8..9] == "7"
    && 'C' !in l && 'm' !in l && 'd' !in l && 'O' !in l && 'Q' !in l
  }

  predicate Line2Facts(l: string)
  {
    && EndsLine(l) && |l| == 17
    && MatchAt(l, 0, CategoryPattern) == Some(Match(0, 10, 16)) && l[10..16] == "linear"
    && 'm' !in l && 'd' !in l && 'O' !in l && 'Q' !in l
  }

  predicate Line3Facts(l: string)
  {
    && EndsLine(l) && |l| == 16
    && MatchAt(l, 0, SymbolPattern) == Some(Match(0, 8, 15)) && l[8..15] == "ETHUSDT"
    && 'd' !in l && 'O' !in l && 'Q' !in l
  }

  predicate Line4Facts(l: string)
  {
    && EndsLine(l) && |l| == 10
    && MatchAt(l, 0, SidePattern) == Some(Match(0, 6, 9)) && l[6..9] == "Buy"
    && 'O' !in l && 'Q' !in l
  }

  predicate Line5Facts(l: string)
  {
    && MatchAt(l, 0, QuantityPattern) == Some(Match(0, 10, 14)) && l[10..14] == "0.04"
    && 'O' !in l
  }

  lemma Line1Match(l: string)
    requires l == Line1
    ensures MatchAt(l, 0, SignalNumberPattern) == Some(Match(0, 8, 9))
  {
    assert RunEnd(Line1, 8, Digit) == 9;
  }

  lemma Line1Slice(l: string)
    requires l == Line1
    ensures l[8..9] == "7"
  {
  }

  lemma Line1Shape(l: string)
    requires l == Line1
    ensures EndsLine(l) && |l| == 10 && OccursAt(l, SignalMarker, 0) && 'C' !in l && 'm' !in l && 'd' !in l && 'O' !in l && 'Q' !in l
  {
    OccursAtIsSlice(l, SignalMarker, 0);
    assert l[0..8] == SignalMarker;
  }

  lemma Line1Holds(l: string)
    requires l == Line1
    ensures Line1Facts(l)
  {
    Line1Match(l);
    Line1Slice(l);
    Line1Shape(l);
  }

  lemma Line2Match(l: string)
    requires l == Line2
    ensures MatchAt(l, 0, CategoryPattern) == Some(Match(0, 10, 16))
  {
    assert RunEnd(Line2, 9, Whitespace) == 10;
    assert RunEnd(Line2, 10, Word) == 16;
  }

  lemma Line2Slice(l: string)
    requires l == Line2
    ensures l[10..16] == "linear"
  {
  }

  lemma Line2Shape(l: string)
    requires l == Line2
    ensures EndsLine(l) && |l| == 17 && 'm' !in l && 'd' !in l && 'O' !in l && 'Q' !in l
  {
  }

  lemma Line2Holds(l: string)
    requires l == Line2
    ensures Line2Facts(l)
  {
    Line2Match(l);
    Line2Slice(l);
    Line2Shape(l);
  }

  lemma Line3Match(l: string)
    requires l == Line3
    ensures MatchAt(l, 0, SymbolPattern) == Some(Match(0, 8, 15))
  {
    assert RunEnd(Line3, 7, Whitespace) == 8;
    assert RunEnd(Line3, 8, Word) == 15;
  }

  lemma Line3Slice(l: string)
    requires l == Line3
    ensures l[8..15] == "ETHUSDT"
  {
  }

  lemma Line3Shape(l: string)
    requires l == Line3
    ensures EndsLine(l) && |l| == 16 && 'd' !in l && 'O' !in l && 'Q' !in l
  {
  }

  lemma Line3Holds(l: string)
    requires l == Line3
    ensures Line3Facts(l)
  {
    Line3Match(l);
    Line3Slice(l);
    Line3Shape(l);
  }

  lemma Line4Match(l: string)
    requires l == Line4
    ensures MatchAt(l, 0, SidePattern) == Some(Match(0, 6, 9))
  {
    assert RunEnd(Line4, 5, Whitespace) == 6;
    assert RunEnd(Line4, 6, Word) == 9;
  }

  lemma Line4Slice(l: string)
    requires l == Line4
    ensures l[6..9] == "Buy"
  {
  }

  lemma Line4Shape(l: string)
    requires l == Line4
    ensures EndsLine(l) && |l| == 10 && 'O' !in l && 'Q' !in l
  {
  }

  lemma Line4Holds(l: string)
    requires l == Line4
    ensures Line4Facts(l)
  {
    Line4Match(l);
    Line4Slice(l);
    Line4Shape(l);
  }

  lemma Line5Match(l: string)
    requires l == Line5
    ensures MatchAt(l, 0, QuantityPattern) == Some(Match(0, 10, 14))
  {
    assert RunEnd(Line5, 9, Whitespace) == 10;
    assert RunEnd(Line5, 10, DigitOrDot) == 14;
  }

  lemma Line5Slice(l: string)
    requires l == Line5
    ensures l[10..14] == "0.04"
  {
  }

  lemma Line5Shape(l: string)
    requires l == Line5
    ensures 'O' !in l
  {
  }

  lemma Line5Holds(l: string)
    requires l == Line5
    ensures Line5Facts(l)
  {
    Line5Match(l);
    Line5Slice(l);
    Line5Shape(l);
  }

  predicate AllLineFacts(l1: string, l2: string, l3: string, l4: string, l5: string)
  {
    Line1Facts(l1) && Line2Facts(l2) && Line3Facts(l3) && Line4Facts(l4) && Line5Facts(l5)
  }

  /** The fields a parse of the text reads, as the worked message gives them. */
  predicate SampleFields(text: string)
  {
    && Capture(text, SignalNumberPattern) == Some("7")
    && Capture(text, CategoryPattern) == Some("linear")
    && Capture(text, SymbolPattern) == Some("ETHUSDT")
    && Capture(text, SidePattern) == Some("Buy")
    && Capture(text, OrderTypePattern).None?
    && Capture(text, QuantityPattern) == Some("0.04")
  }

  lemma SampleNumberField(l1: string, rest: string)
    requires Line1Facts(l1)
    ensures Capture(l1 + rest, SignalNumberPattern) == Some("7")
  {
    CaptureInLeadingLine(l1, rest, SignalNumberPattern, Match(0, 8, 9));
  }

  lemma SampleCategoryField(l1: string, l2: string, rest: string)
    requires Line1Facts(l1) && Line2Facts(l2)
    ensures Capture(l1 + (l2 + rest), CategoryPattern) == Some("linear")
  {
    FieldOfLine(l1, l2, rest, CategoryPattern, 0, Match(0, 10, 16));
  }

  lemma SampleSymbolField(l12: string, l3: string, rest: string)
    requires EndsLine(l12) && 'm' !in l12 && Line3Facts(l3)
    ensures Capture(l12 + (l3 + rest), SymbolPattern) == Some("ETHUSDT")
  {
    FieldOfLine(l12, l3, rest, SymbolPattern, 2, Match(0, 8, 15));
  }

  lemma SampleSideField(l123: string, l4: string, rest: string)
    requires EndsLine(l123) && 'd' !in l123 && Line4Facts(l4)
    ensures Capture(l123 + (l4 + rest), SidePattern) == Some("Buy")
  {
    FieldOfLine(l123, l4, rest, SidePattern, 2, Match(0, 6, 9));
  }

  lemma SampleOrderTypeField(text: string)
    requires 'O' !in text
    ensures Capture(text, OrderTypePattern).None?
  {
    NowhereWithoutChar(text, OrderTypePattern.marker, 0, 0);
    CaptureWithoutMarker(text, OrderTypePattern);
  }

  lemma SampleQuantityField(l1234: string, l5: string)
    requires EndsLine(l1234) && 'Q' !in l1234 && Line5Facts(l5)
    ensures Capture(l1234 + l5, QuantityPattern) == Some("0.04")
  {
    FieldOfLastLine(l1234, l5, QuantityPattern, 0, Match(0, 10, 14));
  }

  /** A line break at the end of the second of two texts is at the end of both together. */
  lemma EndsLineAppend(a: string, b: string)
    requires EndsLine(b)
    ensures EndsLine(a + b)
  {
    assert (a + b)[|a + b| - 1] == b[|b| - 1];
  }

  lemma Assoc(a: string, b: string, c: string)
    ensures (a + b) + c == a + (b + c)
  {
  }

  /** Every field of a message made of such lines, each found on its own line. */
  lemma SampleCaptures(l1: string, l2: string, l3: string, l4: string, l5: string)
    requires AllLineFacts(l1, l2, l3, l4, l5)
    ensures SampleFields(l1 + l2 + l3 + l4 + l5)
  {
    var text := l1 + l2 + l3 + l4 + l5;
    var l45 := l4 + l5;
    var l345 := l3 + l45;
    Assoc(l1 + l2 + l3, l4, l5);
    Assoc(l1 + l2, l3, l45);
    Assoc(l1, l2, l345);
    assert text == l1 + (l2 + l345);
    SampleNumberField(l1, l2 + l345);
    SampleCategoryField(l1, l2, l345);
    EndsLineAppend(l1, l2);
    SampleSymbolField(l1 + l2, l3, l45);
    EndsLineAppend(l1 + l2, l3);
    SampleSideField(l1 + l2 + l3, l4, l5);
    SampleOrderTypeField(text);
    EndsLineAppend(l1 + l2 + l3, l4);
    SampleQuantityField(l1 + l2 + l3 + l4, l5);
  }

  /** A text whose captures are known parses to the signal they give. */
  lemma ParseFromCaptures(text: string, number: string, category: string, symbol: string, side: string, qty: string)
    requires Capture(text, SignalNumberPattern) == Some(number) && PyInt(number).Some?
    requires Capture(text, CategoryPattern) == Some(category)
    requires Capture(text, SymbolPattern) == Some(symbol)
    requires Capture(text, SidePattern) == Some(side)
    requires Capture(text, OrderTypePattern).None?
    requires Capture(text, QuantityPattern) == Some(qty) && PyFloat(qty).Some?
    ensures ParseSignal(text) == Some(Signal(PyInt(number).value, category, symbol, side, DefaultOrderType, PyFloat(qty)))
  {
  }

  lemma SampleNumbers()
    ensures PyInt("7") == Some(7) && PyFloat("0.04") == Some(0.04)
  {
    FloatOfDecimal();
  }

  /** A text with those fields parses to signal 7, a linear-category market buy of 0.04 ETHUSDT. */
  lemma SampleParses(text: string)
    requires SampleFields(text)
    ensures ParseSignal(text) == Some(Signal(7, "linear", "ETHUSDT", "Buy", "Market", Some(0.04)))
  {
    SampleNumbers();
    ParseFromCaptures(text, "7", "linear", "ETHUSDT", "Buy", "0.04");
  }

  /** The marker opens the first line, so the whole message contains it. */
  lemma SampleHasMarker(l1: string, l2: string, l3: string, l4: string, l5: string)
    requires AllLineFacts(l1, l2, l3, l4, l5)
    ensures Contains(l1 + l2 + l3 + l4 + l5, SignalMarker)
  {
    AgreesFromInPrefix(l1, l2, SignalMarker, 0, 0);
    AgreesFromInPrefix(l1 + l2, l3, SignalMarker, 0, 0);
    AgreesFromInPrefix(l1 + l2 + l3, l4, SignalMarker, 0, 0);
    AgreesFromInPrefix(l1 + l2 + l3 + l4, l5, SignalMarker, 0, 0);
    assert OccursAt(l1 + l2 + l3 + l4 + l5, SignalMarker, 0);
  }

  /** On MIRROR a message with those fields and the marker becomes an order. */
  lemma SamplePlacesOrder(text: string, market: Market, reply: Reply)
    requires SampleFields(text) && Contains(text, SignalMarker)
    ensures var o := HandleNewMessage(text, DefaultConfig, market, reply);
      && o.Executed?
      && o.signal.signalNumber == 7
      && o.execution.request == Some(OrderRequest("linear", "ETHUSDT", "Buy", "Market", 0.04))
  {
    assert |text| > 0;
    SampleParses(text);
    MirrorUsesSignalQuantity(Signal(7, "linear", "ETHUSDT", "Buy", "Market", Some(0.04)), DefaultConfig, market);
  }

  /** The worked message parses to signal 7, a linear-category market buy of 0.04 ETHUSDT. */
  lemma SampleMessageParses()
    ensures ParseSignal(SampleMessage()) == Some(Signal(7, "linear", "ETHUSDT", "Buy", "Market", Some(0.04)))
  {
    Line1Holds(Line1);
    Line2Holds(Line2);
    Line3Holds(Line3);
    Line4Holds(Line4);
    Line5Holds(Line5);
    SampleCaptures(Line1, Line2, Line3, Line4, Line5);
    SampleParses(SampleMessage());
  }

  /** On MIRROR the worked message becomes a market buy of 0.04 ETHUSDT in the linear category. */
  lemma SampleMessagePlacesOrder(market: Market, reply: Reply)
    ensures var o := HandleNewMessage(SampleMessage(), DefaultConfig, market, reply);
      && o.Executed?
      && o.signal.signalNumber == 7
      && o.execution.request == Some(OrderRequest("linear", "ETHUSDT", "Buy", "Market", 0.04))
  {
    Line1Holds(Line1);
    Line2Holds(Line2);
    Line3Holds(Line3);
    Line4Holds(Line4);
    Line5Holds(Line5);
    SampleCaptures(Line1, Line2, Line3, Line4, Line5);
    SampleHasMarker(Line1, Line2, Line3, Line4, Line5);
    SamplePlacesOrder(SampleMessage(), market, reply);
  }
}
