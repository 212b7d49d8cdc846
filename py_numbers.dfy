/**
  Python's `int()` and `float()` on the strings the parser hands them: `int`
  on a `\d+` group and `float` on a `[\d.]+` group. Values are exact; the
  rounding of a binary float is not modelled.
*/
module PyNumbers {
  import opened Wrappers
  import opened RegexSearch

  /**
    CPython's default limit on the number of digits `int()` converts from a
    string (since 3.11): a longer digit string raises `ValueError`.
  */
  const IntMaxStrDigits: nat := 4300

  function Pow10(n: nat): (r: nat)
    ensures r >= 1
  {
    if n == 0 then 1 else 10 * Pow10(n - 1)
  }

  function DigitValue(c: char): (d: nat)
    requires IsDigit(c)
    ensures d < 10
  {
    (c as int) - ('0' as int)
  }

  /** The number a string of decimal digits denotes (most significant first). */
  function DigitsValue(s: string): (v: nat)
    requires AllIn(s, Digit)
    ensures v < Pow10(|s|)
    decreases |s|
  {
    if s == [] then 0
    else
      assert AllIn(s[..|s| - 1], Digit);
      DigitsValue(s[..|s| - 1]) * 10 + DigitValue(s[|s| - 1])
  }

  /** Positional notation: the digits of `b` are the low `|b|` places. */
  lemma {:induction false} DigitsValueConcat(a: string, b: string)
    requires AllIn(a, Digit) && AllIn(b, Digit)
    ensures AllIn(a + b, Digit)
    ensures DigitsValue(a + b) == DigitsValue(a) * Pow10(|b|) + DigitsValue(b)
    decreases |b|
  {
    if b != [] {
      var b' := b[..|b| - 1];
      assert (a + b)[..|a + b| - 1] == a + b';
      assert AllIn(b', Digit);
      DigitsValueConcat(a, b');
      ShiftDigit(DigitsValue(a), Pow10(|b'|), DigitsValue(b'), DigitValue(b[|b| - 1]));
    } else {
      assert a + b == a;
    }
  }

  lemma ShiftDigit(x: int, p: int, y: int, d: int)
    ensures (x * p + y) * 10 + d == x * (10 * p) + (y * 10 + d)
  {
  }


  /** `int(s)` for a digit string: `ValueError` when empty or over the digit limit. */
  function PyInt(s: string): (r: Option<nat>)
    requires AllIn(s, Digit)
    ensures r.Some? <==> 0 < |s| <= IntMaxStrDigits
    ensures r.Some? ==> r.value < Pow10(|s|)
  {
    if |s| == 0 || |s| > IntMaxStrDigits then None else Some(DigitsValue(s))
  }

  /**
    `int("007") == 7`: a leading zero does not change what `int()` gives,
    except that `int("0")` is 0 where `int("")` raises, and that the extra
    digit takes a string at the digit limit over it.
  */
  lemma LeadingZeroIgnored(s: string)
    requires AllIn(s, Digit)
    ensures AllIn("0" + s, Digit)
    ensures PyInt("0" + s) ==
      if |s| == 0 then Some(0)
      else if |s| == IntMaxStrDigits then None
      else PyInt(s)
  {
    DigitsValueConcat("0", s);
    assert DigitsValue("0") == 0 by {
      assert "0"[..0] == [];
    }
  }

  /** The index of the first '.', or `|s|` when there is none. */
  function IndexOfDot(s: string): (k: nat)
    ensures k <= |s|
    ensures forall j | 0 <= j < k :: s[j] != '.'
    ensures k < |s| ==> s[k] == '.'
  {
    if s == [] || s[0] == '.' then 0 else 1 + IndexOfDot(s[1..])
  }

  /** The digits in front of the first '.'. */
  function WholeDigits(s: string): string
  {
    s[..IndexOfDot(s)]
  }

  /** What follows the first '.', empty when there is no '.'. */
  function FractionDigits(s: string): string
  {
    var k := IndexOfDot(s);
    if k < |s| then s[k + 1..] else []
  }

  /**
    `float(s)` for a string of digits and dots: defined when at most one dot
    and at least one digit occur, and then the exact decimal value.
  */
  function PyFloat(s: string): (r: Option<real>)
    requires AllIn(s, DigitOrDot)
    ensures r.Some? ==> r.value >= 0.0
  {
    var whole := WholeDigits(s);
    var frac := FractionDigits(s);
    assert AllIn(whole, Digit);
    if !AllIn(frac, Digit) || |whole| + |frac| == 0 then None
    else Some(DigitsValue(whole) as real + DigitsValue(frac) as real / Pow10(|frac|) as real)
  }

  // ---------------------------------------------------------------------------
  // A reference description of when `float()` accepts the string

  function DotCount(s: string): nat
  {
    if s == [] then 0 else (if s[0] == '.' then 1 else 0) + DotCount(s[1..])
  }

  predicate HasDigit(s: string)
  {
    exists k | 0 <= k < |s| :: IsDigit(s[k])
  }

  lemma {:induction false} DotCountConcat(a: string, b: string)
    ensures DotCount(a + b) == DotCount(a) + DotCount(b)
  {
    if a != [] {
      assert (a + b)[1..] == a[1..] + b;
      DotCountConcat(a[1..], b);
    } else {
      assert a + b == b;
    }
  }

  lemma {:induction false} DotCountZeroIff(s: string)
    ensures DotCount(s) == 0 <==> forall j | 0 <= j < |s| :: s[j] != '.'
  {
    if s != [] {
      DotCountZeroIff(s[1..]);
      assert forall j | 1 <= j < |s| :: s[j] == s[1..][j - 1];
    }
  }

  lemma PyFloatSomeIff(s: string)
    requires AllIn(s, DigitOrDot)
    ensures PyFloat(s).Some? <==> AllIn(FractionDigits(s), Digit) && |WholeDigits(s)| + |FractionDigits(s)| > 0
  {
  }

  lemma DotCountAround(s: string, k: nat)
    requires k < |s| && s[k] == '.'
    ensures DotCount(s) == DotCount(s[..k]) + 1 + DotCount(s[k + 1..])
  {
    var tail := s[k + 1..];
    assert DotCount([s[k]] + tail) == 1 + DotCount(tail) by {
      assert ([s[k]] + tail)[1..] == tail;
    }
    assert s == s[..k] + ([s[k]] + tail);
    DotCountConcat(s[..k], [s[k]] + tail);
  }

  /** Splitting at the first dot: only the fraction can hold further dots. */
  lemma DotCountAtFirstDot(s: string)
    ensures DotCount(s) == (if IndexOfDot(s) < |s| then 1 else 0) + DotCount(FractionDigits(s))
  {
    var k := IndexOfDot(s);
    DotCountZeroIff(s[..k]);
    if k < |s| {
      DotCountAround(s, k);
    } else {
      assert s[..k] == s;
    }
  }

  /** With a digits-only fraction, the string holds a digit exactly when the two parts are not both empty. */
  lemma HasDigitAtFirstDot(s: string)
    requires AllIn(s, DigitOrDot) && AllIn(FractionDigits(s), Digit)
    ensures HasDigit(s) <==> |WholeDigits(s)| + |FractionDigits(s)| > 0
  {
    var k := IndexOfDot(s);
    var whole := WholeDigits(s);
    var frac := FractionDigits(s);
    if HasDigit(s) {
      var j :| 0 <= j < |s| && IsDigit(s[j]);
      if k == |s| {
        assert |whole| > 0;
      } else if j > k {
        assert s[j] == frac[j - k - 1];
      }
    }
    if |whole| > 0 {
      assert IsDigit(s[0]);
    } else if |frac| > 0 {
      assert frac[0] == s[k + 1];
      assert IsDigit(s[k + 1]);
    }
  }

  /** `float()` of a `[\d.]*` string succeeds exactly when it has at most one dot and some digit. */
  lemma PyFloatDefinedIff(s: string)
    requires AllIn(s, DigitOrDot)
    ensures PyFloat(s).Some? <==> DotCount(s) <= 1 && HasDigit(s)
  {
    var frac := FractionDigits(s);
    PyFloatSomeIff(s);
    DotCountAtFirstDot(s);
    DotCountZeroIff(frac);
    if AllIn(frac, Digit) {
      HasDigitAtFirstDot(s);
    } else {
      var j :| 0 <= j < |frac| && !InClass(frac[j], Digit);
      assert frac[j] == '.';
    }
  }

  lemma FractionBelowOne(n: nat, p: nat)
    requires n < p
    ensures 0.0 <= n as real / p as real < 1.0
  {
  }

  lemma FloorOfWholePlusFraction(w: nat, f: real)
    requires 0.0 <= f < 1.0
    ensures (w as real + f).Floor == w
  {
  }

  /** The integer part of `float(s)` is the value of the digits before the dot. */
  lemma PyFloatIntegerPart(s: string, v: real)
    requires AllIn(s, DigitOrDot) && PyFloat(s) == Some(v)
    ensures AllIn(WholeDigits(s), Digit) && v.Floor == DigitsValue(WholeDigits(s))
  {
    var whole := WholeDigits(s);
    var frac := FractionDigits(s);
    FractionBelowOne(DigitsValue(frac), Pow10(|frac|));
    FloorOfWholePlusFraction(DigitsValue(whole), DigitsValue(frac) as real / Pow10(|frac|) as real);
  }

  // Sample conversions: `float("0.04")`, `float("5.")` and `float(".5")` succeed;
  // `float(".")` and `float("1.2.3")` raise `ValueError`.

  /** `float("0.04") == 0.04`. */
  lemma FloatOfDecimal()
    ensures PyFloat("0.04") == Some(0.04)
  {
    var s := "0.04";
    assert IndexOfDot(s) == 1;
    assert WholeDigits(s) == "0" && FractionDigits(s) == "04";
    assert DigitsValue("0") == 0 && DigitsValue("04") == 4 && Pow10(2) == 100;
  }

  /** `float("5.") == 5.0`: an empty fraction is allowed. */
  lemma FloatOfTrailingDot()
    ensures PyFloat("5.") == Some(5.0)
  {
    var s := "5.";
    assert IndexOfDot(s) == 1;
    assert WholeDigits(s) == "5" && FractionDigits(s) == [];
    assert DigitsValue("5") == 5;
  }

  /** `float(".5") == 0.5`: an empty whole part is allowed. */
  lemma FloatOfLeadingDot()
    ensures PyFloat(".5") == Some(0.5)
  {
    var s := ".5";
    assert IndexOfDot(s) == 0;
    assert WholeDigits(s) == [] && FractionDigits(s) == "5";
    assert DigitsValue("5") == 5 && Pow10(1) == 10;
  }

  /** `float(".")` raises: there is no digit. */
  lemma FloatOfLoneDot()
    ensures PyFloat(".") == None
  {
    var s := ".";
    assert IndexOfDot(s) == 0;
    assert WholeDigits(s) == [] && FractionDigits(s) == [];
  }

  /** `float("1.2.3")` raises: a second dot. */
  lemma FloatOfTwoDots()
    ensures PyFloat("1.2.3") == None
  {
    var s := "1.2.3";
    assert IndexOfDot(s) == 1;
    assert FractionDigits(s) == "2.3";
    assert !IsDigit(FractionDigits(s)[1]);
  }
}
