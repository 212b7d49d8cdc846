/**
  The fragment of Python's `re.search` that the signal parser uses: patterns of
  the shape `Marker` `\s*`? `(C+)` where the marker is a literal string and `C`
  is one of `\w`, `\d` or `[\d.]`.

  `Search` is the leftmost scan the regex engine performs; `MatchesWith`
  is an independent, declarative reading of "the pattern matches here with
  this group", and the lemmas at the end prove that the scan returns the
  leftmost position at which any match exists and, there, the longest group.
*/
module RegexSearch {
  import opened Wrappers

  /** The character classes that occur in the parser's patterns (ASCII forms). */
  datatype CharClass =
    | Whitespace   // \s
    | Word         // \w
    | Digit        // \d
    | DigitOrDot   // [\d.]

  /** A class a capture group may use: any class but whitespace. */
  type CaptureClass = c: CharClass | !c.Whitespace? witness Word

  predicate IsDigit(c: char) { '0' <= c <= '9' }

  predicate IsWordChar(c: char)
  {
    'a' <= c <= 'z' || 'A' <= c <= 'Z' || IsDigit(c) || c == '_'
  }

  /** `\s`: space, \t \n \v \f \r, and the separators \x1c-\x1f. */
  predicate IsSpace(c: char)
  {
    c == ' ' || '\t' <= c <= '\r' || '\U{1C}' <= c <= '\U{1F}'
  }

  predicate InClass(c: char, cls: CharClass)
  {
    match cls
    case Whitespace => IsSpace(c)
    case Word => IsWordChar(c)
    case Digit => IsDigit(c)
    case DigitOrDot => IsDigit(c) || c == '.'
  }

  /** Every character of `s` belongs to `cls`. */
  predicate AllIn(s: string, cls: CharClass)
  {
    forall k | 0 <= k < |s| :: InClass(s[k], cls)
  }

  /** No whitespace character belongs to a capture class. */
  lemma SpaceIsNotCaptured(c: char, cls: CaptureClass)
    ensures InClass(c, Whitespace) ==> !InClass(c, cls)
  {
  }

  /** `marker` followed, when `skipSpace`, by `\s*`, then the group `(cls+)`. */
  datatype Pattern = Pattern(marker: string, skipSpace: bool, cls: CaptureClass)

  /** A match found at `start`; the group is `s[capStart..capEnd]`. */
  datatype Match = Match(start: nat, capStart: nat, capEnd: nat)

  /** From position `i + k` on, `s` continues with `t[k..]`. */
  predicate AgreesFrom(s: string, t: string, i: nat, k: nat)
    requires k <= |t|
    ensures AgreesFrom(s, t, i, k) ==> i + |t| <= |s|
    decreases |t| - k
  {
    i + k <= |s| && (k == |t| || (i + k < |s| && s[i + k] == t[k] && AgreesFrom(s, t, i, k + 1)))
  }

  /** `t` occurs in `s` at position `i`, compared character by character. */
  predicate OccursAt(s: string, t: string, i: nat)
  {
    AgreesFrom(s, t, i, 0)
  }

  lemma {:induction false} AgreesFromIsSlice(s: string, t: string, i: nat, k: nat)
    requires k <= |t|
    ensures AgreesFrom(s, t, i, k) <==> i + |t| <= |s| && s[i + k..i + |t|] == t[k..]
    decreases |t| - k
  {
    if k < |t| {
      AgreesFromIsSlice(s, t, i, k + 1);
      if i + |t| <= |s| {
        assert s[i + k..i + |t|] == [s[i + k]] + s[i + k + 1..i + |t|];
        assert t[k..] == [t[k]] + t[k + 1..];
      }
    }
  }

  lemma {:induction false} AgreesFromChar(s: string, t: string, i: nat, k: nat, n: nat)
    requires k <= n < |t| && AgreesFrom(s, t, i, k)
    ensures i + n < |s| && s[i + n] == t[n]
    decreases n - k
  {
    if k < n {
      AgreesFromChar(s, t, i, k + 1, n);
    }
  }

  /** Each character of an occurrence is the marker's character. */
  lemma OccursAtChar(s: string, t: string, i: nat, n: nat)
    requires n < |t| && OccursAt(s, t, i)
    ensures i + n < |s| && s[i + n] == t[n]
  {
    AgreesFromChar(s, t, i, 0, n);
  }

  /** The character comparison agrees with slicing: `s[i..i + |t|] == t`. */
  lemma OccursAtIsSlice(s: string, t: string, i: nat)
    ensures OccursAt(s, t, i) <==> i + |t| <= |s| && s[i..i + |t|] == t
  {
    AgreesFromIsSlice(s, t, i, 0);
  }

  /** `t` is the slice of `s` that starts at `i`. */
  predicate SliceAt(s: string, t: string, i: nat)
  {
    i + |t| <= |s| && s[i..i + |t|] == t
  }

  /** Python's `t in s` for strings: `t` is a slice of `s` somewhere. */
  predicate Contains(s: string, t: string)
    ensures Contains(s, t) <==> exists i: nat :: SliceAt(s, t, i)
  {
    OccurrenceIsSlice(s, t);
    exists i | 0 <= i <= |s| :: OccursAt(s, t, i)
  }

  lemma OccurrenceIsSlice(s: string, t: string)
    ensures (exists i | 0 <= i <= |s| :: OccursAt(s, t, i)) <==> exists i: nat :: SliceAt(s, t, i)
  {
    forall i: nat
      ensures OccursAt(s, t, i) <==> SliceAt(s, t, i)
    {
      OccursAtIsSlice(s, t, i);
    }
  }

  /** The end of the maximal run of `cls` characters that starts at `i`. */
  function RunEnd(s: string, i: nat, cls: CharClass): (j: nat)
    requires i <= |s|
    ensures i <= j <= |s|
    ensures forall k | i <= k < j :: InClass(s[k], cls)
    ensures j == |s| || !InClass(s[j], cls)
    decreases |s| - i
  {
    if i == |s| || !InClass(s[i], cls) then i else RunEnd(s, i + 1, cls)
  }

  /**
    What the engine does at one position: the marker, then the greedy `\s*`,
    then the greedy group, which must not be empty.
  */
  function MatchAt(s: string, i: nat, p: Pattern): (r: Option<Match>)
    ensures r.Some? ==> OccursAt(s, p.marker, i) && r.value.start == i
    ensures r.Some? ==> i + |p.marker| <= r.value.capStart < r.value.capEnd <= |s|
    ensures r.Some? && !p.skipSpace ==> r.value.capStart == i + |p.marker|
    ensures r.Some? ==> forall k | i + |p.marker| <= k < r.value.capStart :: InClass(s[k], Whitespace)
    ensures r.Some? ==> forall k | r.value.capStart <= k < r.value.capEnd :: InClass(s[k], p.cls)
    ensures r.Some? ==> r.value.capEnd == |s| || !InClass(s[r.value.capEnd], p.cls)
  {
    if OccursAt(s, p.marker, i) then
      var afterMarker := i + |p.marker|;
      var groupStart := GroupStart(s, afterMarker, p);
      var groupEnd := RunEnd(s, groupStart, p.cls);
      if groupStart < groupEnd then Some(Match(i, groupStart, groupEnd)) else None
    else
      None
  }

  /** The scan of `re.search`: try each position from `from` on, leftmost first. */
  function Search(s: string, p: Pattern, from: nat): (r: Option<Match>)
    requires from <= |s|
    ensures r.Some? ==> from <= r.value.start <= |s| && MatchAt(s, r.value.start, p) == r
    ensures forall j | from <= j <= |s| && (r.None? || j < r.value.start) :: MatchAt(s, j, p).None?
    decreases |s| - from
  {
    var here := MatchAt(s, from, p);
    if here.Some? then here
    else if from == |s| then None
    else Search(s, p, from + 1)
  }

  /** `re.search(pattern, s)`: the match at the leftmost position where there is one. */
  function FirstMatch(s: string, p: Pattern): (r: Option<Match>)
    ensures r.Some? ==> r.value.start <= |s| && MatchAt(s, r.value.start, p) == r
    ensures forall j | 0 <= j <= |s| && (r.None? || j < r.value.start) :: MatchAt(s, j, p).None?
  {
    Search(s, p, 0)
  }

  /** `m.group(1)` of the first match, or `None` when the search fails. */
  function Capture(s: string, p: Pattern): (r: Option<string>)
    ensures r.Some? ==> |r.value| > 0 && AllIn(r.value, p.cls)
  {
    match FirstMatch(s, p)
    case None => None
    case Some(m) => Some(s[m.capStart..m.capEnd])
  }

  // ---------------------------------------------------------------------------
  // The declarative reading of a match and its correspondence with the scan

  /**
    The pattern matches `s[i..e]`, the `\s*` part being `s[i + |marker|..g]`
    and the group `s[g..e]`.
  */
  ghost predicate MatchesWith(s: string, i: nat, p: Pattern, g: nat, e: nat)
  {
    && OccursAt(s, p.marker, i)
    && i + |p.marker| <= g < e <= |s|
    && (if p.skipSpace
        then forall k | i + |p.marker| <= k < g :: InClass(s[k], Whitespace)
        else g == i + |p.marker|)
    && forall k | g <= k < e :: InClass(s[k], p.cls)
  }

  /** The pattern matches at `i` in some way. */
  ghost predicate Matches(s: string, i: nat, p: Pattern)
  {
    exists g: nat, e: nat :: MatchesWith(s, i, p, g, e)
  }

  /**
    At one position the engine finds a match exactly when one exists, and the
    one it finds has the only possible group start and the longest group.
  */
  lemma MatchAtIsLongestMatch(s: string, i: nat, p: Pattern)
    ensures MatchAt(s, i, p).Some? <==> Matches(s, i, p)
    ensures MatchAt(s, i, p).Some? ==>
      var m := MatchAt(s, i, p).value;
      && MatchesWith(s, i, p, m.capStart, m.capEnd)
      && forall g: nat, e: nat | MatchesWith(s, i, p, g, e) :: g == m.capStart && e <= m.capEnd
  {
    if OccursAt(s, p.marker, i) {
      var a := i + |p.marker|;
      var w := if p.skipSpace then RunEnd(s, a, Whitespace) else a;
      var b := RunEnd(s, w, p.cls);
      forall g: nat, e: nat | MatchesWith(s, i, p, g, e)
        ensures g == w && w < b && e <= b
      {
        assert InClass(s[g], p.cls);
        SpaceIsNotCaptured(s[g], p.cls);
        assert g == w;
        assert e <= b;
      }
      if w < b {
        assert MatchesWith(s, i, p, w, b);
      }
    }
  }

  /**
    When `re.search` succeeds, its match starts at the leftmost position where
    the pattern matches at all, and its group is the longest one there.
  */
  lemma FirstMatchIsLeftmostLongest(s: string, p: Pattern, m: Match)
    requires FirstMatch(s, p) == Some(m)
    ensures m.start <= |s| && MatchesWith(s, m.start, p, m.capStart, m.capEnd)
    ensures forall j | 0 <= j < m.start :: !Matches(s, j, p)
    ensures forall g: nat, e: nat | MatchesWith(s, m.start, p, g, e) :: g == m.capStart && e <= m.capEnd
  {
    MatchAtIsLongestMatch(s, m.start, p);
    forall j | 0 <= j < m.start
      ensures !Matches(s, j, p)
    {
      MatchAtIsLongestMatch(s, j, p);
    }
  }

  /** `re.search` fails exactly when the pattern matches nowhere. */
  lemma FirstMatchNoneIffNoMatch(s: string, p: Pattern)
    ensures FirstMatch(s, p).None? <==> forall i | 0 <= i <= |s| :: !Matches(s, i, p)
  {
    forall i | 0 <= i <= |s|
      ensures MatchAt(s, i, p).Some? <==> Matches(s, i, p)
    {
      MatchAtIsLongestMatch(s, i, p);
    }
    if FirstMatch(s, p).Some? {
      var m := FirstMatch(s, p).value;
      assert MatchAt(s, m.start, p).Some?;
    }
  }

  /** The group of a successful search cannot be extended to the right. */
  lemma CaptureIsMaximal(s: string, p: Pattern, m: Match)
    requires FirstMatch(s, p) == Some(m)
    ensures m.capEnd == |s| || !InClass(s[m.capEnd], p.cls)
  {
  }

  // ---------------------------------------------------------------------------
  // Searching a text made of lines

  /** A match moved `d` characters to the right. */
  function Shifted(r: Option<Match>, d: nat): Option<Match>
  {
    match r
    case None => None
    case Some(m) => Some(Match(m.start + d, m.capStart + d, m.capEnd + d))
  }

  /** No position at or after `from` in `line` starts an occurrence of `t`. */
  predicate OccursNowhereFrom(line: string, t: string, from: nat)
    decreases |line| - from
  {
    from >= |line| || (!OccursAt(line, t, from) && OccursNowhereFrom(line, t, from + 1))
  }

  lemma {:induction false} AgreesFromInPrefix(a: string, b: string, t: string, i: nat, k: nat)
    requires k <= |t| && i + |t| <= |a|
    ensures AgreesFrom(a + b, t, i, k) == AgreesFrom(a, t, i, k)
    decreases |t| - k
  {
    if k < |t| {
      AgreesFromInPrefix(a, b, t, i, k + 1);
    }
  }

  lemma {:induction false} AgreesFromShift(a: string, b: string, t: string, i: nat, k: nat)
    requires k <= |t|
    ensures AgreesFrom(a + b, t, |a| + i, k) == AgreesFrom(b, t, i, k)
    decreases |t| - k
  {
    if k < |t| {
      AgreesFromShift(a, b, t, i, k + 1);
    }
  }

  lemma {:induction false} RunEndInPrefix(a: string, b: string, x: nat, cls: CharClass)
    requires x <= |a| && RunEnd(a, x, cls) < |a|
    ensures RunEnd(a + b, x, cls) == RunEnd(a, x, cls)
    decreases |a| - x
  {
    if InClass(a[x], cls) {
      RunEndInPrefix(a, b, x + 1, cls);
    }
  }

  lemma {:induction false} RunEndShift(a: string, b: string, x: nat, cls: CharClass)
    requires x <= |b|
    ensures RunEnd(a + b, |a| + x, cls) == |a| + RunEnd(b, x, cls)
    decreases |b| - x
  {
    if x < |b| && InClass(b[x], cls) {
      RunEndShift(a, b, x + 1, cls);
    }
  }

  lemma MatchAtShift(a: string, b: string, j: nat, p: Pattern)
    requires j <= |b|
    ensures MatchAt(a + b, |a| + j, p) == Shifted(MatchAt(b, j, p), |a|)
  {
    AgreesFromShift(a, b, p.marker, j, 0);
    if OccursAt(b, p.marker, j) {
      var g := j + |p.marker|;
      GroupStartShift(a, b, g, p);
      RunEndShift(a, b, GroupStart(b, g, p), p.cls);
    }
  }

  /** Where the group starts when the marker ends at `g`. */
  function GroupStart(s: string, g: nat, p: Pattern): nat
    requires g <= |s|
  {
    if p.skipSpace then RunEnd(s, g, Whitespace) else g
  }

  lemma GroupStartShift(a: string, b: string, g: nat, p: Pattern)
    requires g <= |b|
    ensures GroupStart(a + b, |a| + g, p) == |a| + GroupStart(b, g, p)
  {
    if p.skipSpace {
      RunEndShift(a, b, g, Whitespace);
    }
  }

  lemma {:induction false} SearchShift(a: string, b: string, p: Pattern, j: nat)
    requires j <= |b|
    ensures Search(a + b, p, |a| + j) == Shifted(Search(b, p, j), |a|)
    decreases |b| - j
  {
    MatchAtShift(a, b, j, p);
    if MatchAt(b, j, p).None? && j < |b| {
      SearchShift(a, b, p, j + 1);
    }
  }

  /** A line ending in a line break cannot hold the start of a marker that it does not contain. */
  lemma NoMatchInLine(line: string, rest: string, p: Pattern, j: nat)
    requires |line| > 0 && line[|line| - 1] == '\n' && '\n' !in p.marker
    requires j < |line| && !OccursAt(line, p.marker, j)
    ensures MatchAt(line + rest, j, p).None?
  {
    if j + |p.marker| <= |line| {
      AgreesFromInPrefix(line, rest, p.marker, j, 0);
    } else if OccursAt(line + rest, p.marker, j) {
      OccursAtChar(line + rest, p.marker, j, |line| - 1 - j);
      assert false;
    }
  }

  lemma {:induction false} SearchSkipsLine(line: string, rest: string, p: Pattern, j: nat)
    requires |line| > 0 && line[|line| - 1] == '\n' && '\n' !in p.marker
    requires j <= |line| && OccursNowhereFrom(line, p.marker, j)
    ensures Search(line + rest, p, j) == Search(line + rest, p, |line|)
    decreases |line| - j
  {
    if j < |line| {
      NoMatchInLine(line, rest, p, j);
      SearchSkipsLine(line, rest, p, j + 1);
    }
  }

  /**
    A first line that ends in a line break and does not contain the marker
    only moves the first match of the rest of the text.
  */
  lemma SearchPastLine(line: string, rest: string, p: Pattern)
    requires |line| > 0 && line[|line| - 1] == '\n' && '\n' !in p.marker
    requires OccursNowhereFrom(line, p.marker, 0)
    ensures FirstMatch(line + rest, p) == Shifted(FirstMatch(rest, p), |line|)
  {
    SearchSkipsLine(line, rest, p, 0);
    SearchShift(line, rest, p, 0);
  }

  /** A marker can occur only where each of its characters does. */
  lemma NotAtWithoutChar(line: string, t: string, n: nat, i: nat)
    requires n < |t| && t[n] !in line
    ensures !OccursAt(line, t, i)
  {
    if OccursAt(line, t, i) {
      OccursAtChar(line, t, i, n);
      assert false;
    }
  }

  /** A marker one of whose characters is missing from the line occurs nowhere in it. */
  lemma {:induction false} NowhereWithoutChar(line: string, t: string, n: nat, from: nat)
    requires n < |t| && t[n] !in line
    ensures OccursNowhereFrom(line, t, from)
    decreases |line| - from
  {
    if from < |line| {
      NotAtWithoutChar(line, t, n, from);
      NowhereWithoutChar(line, t, n, from + 1);
    }
  }

  /** Without the marker's first character from `from` on, the marker occurs nowhere from there. */
  lemma {:induction false} NowhereWithoutFirstChar(line: string, t: string, from: nat)
    requires |t| > 0 && from <= |line| && t[0] !in line[from..]
    ensures OccursNowhereFrom(line, t, from)
    decreases |line| - from
  {
    if from < |line| {
      assert line[from] == line[from..][0];
      assert !OccursAt(line, t, from);
      assert line[from + 1..] == line[from..][1..];
      NowhereWithoutFirstChar(line, t, from + 1);
    }
  }

  lemma {:induction false} SearchWithoutMarker(s: string, p: Pattern, from: nat)
    requires from <= |s| && |p.marker| > 0 && OccursNowhereFrom(s, p.marker, from)
    ensures Search(s, p, from).None?
    decreases |s| - from
  {
    if from < |s| {
      SearchWithoutMarker(s, p, from + 1);
    }
  }

  /** A text in which the (non-empty) marker occurs nowhere has no match, so the field is absent. */
  lemma CaptureWithoutMarker(s: string, p: Pattern)
    requires |p.marker| > 0 && OccursNowhereFrom(s, p.marker, 0)
    ensures Capture(s, p).None?
  {
    SearchWithoutMarker(s, p, 0);
  }

  /** A match at the start of the text whose group ends inside the first line is the first match. */
  lemma SearchInLeadingLine(line: string, rest: string, p: Pattern, m: Match)
    requires MatchAt(line, 0, p) == Some(m) && m.capEnd < |line|
    ensures FirstMatch(line + rest, p) == Some(m)
  {
    AgreesFromInPrefix(line, rest, p.marker, 0, 0);
    var g := |p.marker|;
    if p.skipSpace {
      RunEndInPrefix(line, rest, g, Whitespace);
      g := RunEnd(line, g, Whitespace);
    }
    RunEndInPrefix(line, rest, g, p.cls);
  }

  /** `Capture` over a first line without the marker is `Capture` over the rest. */
  lemma CapturePastLine(line: string, rest: string, p: Pattern)
    requires |line| > 0 && line[|line| - 1] == '\n' && '\n' !in p.marker
    requires OccursNowhereFrom(line, p.marker, 0)
    ensures Capture(line + rest, p) == Capture(rest, p)
  {
    SearchPastLine(line, rest, p);
    CaptureOfShifted(line, rest, p);
  }

  /** When the search over `a + b` is the search over `b` moved past `a`, so is the group. */
  lemma CaptureOfShifted(a: string, b: string, p: Pattern)
    requires FirstMatch(a + b, p) == Shifted(FirstMatch(b, p), |a|)
    ensures Capture(a + b, p) == Capture(b, p)
  {
    match FirstMatch(b, p)
    case None =>
    case Some(m) =>
      SliceShift(a, b, m.capStart, m.capEnd);
  }

  /** A slice of the second part, seen through the concatenation. */
  lemma SliceShift(a: string, b: string, i: nat, j: nat)
    requires i <= j <= |b|
    ensures (a + b)[|a| + i..|a| + j] == b[i..j]
  {
  }

  /** `Capture` of a match that lies within the first line. */
  lemma CaptureInLeadingLine(line: string, rest: string, p: Pattern, m: Match)
    requires MatchAt(line, 0, p) == Some(m) && m.capEnd < |line|
    ensures Capture(line + rest, p) == Some(line[m.capStart..m.capEnd])
  {
    SearchInLeadingLine(line, rest, p, m);
    assert (line + rest)[m.capStart..m.capEnd] == line[m.capStart..m.capEnd];
  }
}
