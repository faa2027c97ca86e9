/** Option and Result, and the few Python string primitives the three services
    rely on: str.strip(), str.lower(), str.splitlines(), str.split(sep),
    sep.join(parts), int() of a digit string, str() of an int and xs[:k]. */
module Text {

  datatype Option<+T> = None | Some(value: T)

  /** An exception or an HTTP error, as a value. */
  datatype Result<+T, +E> = Success(value: T) | Failure(error: E)

  /** str.isspace(), which is also what `\s` matches in a str pattern. */
  predicate IsSpace(c: char)
  {
    c == ' ' || ('\t' <= c <= '\r') || ('\U{1c}' <= c <= '\U{1f}')
    || c == '\U{85}' || c == '\U{a0}' || c == '\U{1680}'
    || ('\U{2000}' <= c <= '\U{200a}') || c == '\U{2028}' || c == '\U{2029}'
    || c == '\U{202f}' || c == '\U{205f}' || c == '\U{3000}'
  }

  predicate IsBlank(s: string)
  {
    forall k | 0 <= k < |s| :: IsSpace(s[k])
  }

  predicate IsDigit(c: char)
  {
    '0' <= c <= '9'
  }

  /** The character class [a-zA-Z0-9]. */
  predicate IsAsciiAlnum(c: char)
  {
    'a' <= c <= 'z' || 'A' <= c <= 'Z' || IsDigit(c)
  }

  /** str.lower() on the ASCII range. */
  function LowerChar(c: char): char
  {
    if 'A' <= c <= 'Z' then (c as int + 32) as char else c
  }

  function Lower(s: string): (r: string)
    ensures |r| == |s|
    ensures forall k | 0 <= k < |s| :: r[k] == LowerChar(s[k])
  {
    if s == [] then [] else [LowerChar(s[0])] + Lower(s[1..])
  }

  /** s.lstrip(): leading whitespace removed. */
  function StripStart(s: string): (r: string)
    ensures |r| <= |s|
  {
    if s != [] && IsSpace(s[0]) then StripStart(s[1..]) else s
  }

  /** s.rstrip(): trailing whitespace removed. */
  function StripEnd(s: string): (r: string)
    ensures |r| <= |s|
  {
    if s != [] && IsSpace(s[|s| - 1]) then StripEnd(s[..|s| - 1]) else s
  }

  /** s.strip(). */
  function Strip(s: string): (r: string)
    ensures |r| <= |s|
  {
    StripEnd(StripStart(s))
  }

  /** lstrip() keeps a suffix and drops only whitespace; what it keeps is empty
      or starts with non-whitespace. */
  lemma {:induction false} StripStartSuffix(s: string)
    ensures var r := StripStart(s);
      r == s[|s| - |r|..] && (r == [] || !IsSpace(r[0]))
      && forall k | 0 <= k < |s| - |r| :: IsSpace(s[k])
  {
    if s != [] && IsSpace(s[0]) {
      StripStartSuffix(s[1..]);
      assert forall k | 1 <= k < |s| :: s[k] == s[1..][k - 1];
    }
  }

  /** rstrip() keeps a prefix and drops only whitespace; what it keeps is empty
      or ends with non-whitespace. */
  lemma {:induction false} StripEndPrefix(s: string)
    ensures var r := StripEnd(s);
      r == s[..|r|] && (r == [] || !IsSpace(r[|r| - 1]))
      && forall k | |r| <= k < |s| :: IsSpace(s[k])
  {
    if s != [] && IsSpace(s[|s| - 1]) {
      var t := s[..|s| - 1];
      StripEndPrefix(t);
      assert forall k | 0 <= k < |t| :: s[k] == t[k];
    }
  }

  /** What strip() keeps is the infix between a whitespace prefix and a whitespace suffix. */
  lemma StripInfix(s: string) returns (a: nat)
    ensures a + |Strip(s)| <= |s| && Strip(s) == s[a..a + |Strip(s)|]
    ensures forall k | 0 <= k < a :: IsSpace(s[k])
    ensures forall k | a + |Strip(s)| <= k < |s| :: IsSpace(s[k])
  {
    var t := StripStart(s);
    StripStartSuffix(s);
    StripEndPrefix(t);
    a := |s| - |t|;
    var n := |Strip(s)|;
    assert Strip(s) == t[..n] == s[a..a + n];
    assert forall k | n <= k < |t| :: t[k] == s[a + k];
  }

  /** strip() leaves nothing exactly when the text is all whitespace. */
  lemma StripEmptyIff(s: string)
    ensures Strip(s) == [] <==> IsBlank(s)
  {
    var a := StripInfix(s);
    StripEnds(s);
  }

  /** What strip() keeps begins and ends with non-whitespace. */
  lemma StripEnds(s: string)
    ensures var r := Strip(s); r == [] || (!IsSpace(r[0]) && !IsSpace(r[|r| - 1]))
  {
    var t := StripStart(s);
    StripStartSuffix(s);
    StripEndPrefix(t);
    var r := StripEnd(t);
    if r != [] {
      assert r[0] == t[0];
    }
  }

  /** Strip leaves text that already begins and ends with non-whitespace as it is. */
  lemma StripOfTrimmed(s: string)
    requires s == [] || (!IsSpace(s[0]) && !IsSpace(s[|s| - 1]))
    ensures Strip(s) == s
  {
  }

  /** Stripping twice is stripping once. */
  lemma StripIdempotent(s: string)
    ensures Strip(Strip(s)) == Strip(s)
  {
    StripEnds(s);
    StripOfTrimmed(Strip(s));
  }

  /** A character that no infix of s can contain. */
  lemma StripKeepsAbsence(s: string, c: char)
    requires c !in s
    ensures c !in Strip(s)
  {
    var r := Strip(s);
    var a := StripInfix(s);
    forall k | 0 <= k < |r| ensures r[k] != c {
      assert r[k] == s[a + k];
    }
  }

  /** The first index at or after i whose character is not whitespace (or |s|). */
  function SkipSpace(s: string, i: nat): (r: nat)
    requires i <= |s|
    ensures i <= r <= |s|
    ensures r < |s| ==> !IsSpace(s[r])
    decreases |s| - i
  {
    if i < |s| && IsSpace(s[i]) then SkipSpace(s, i + 1) else i
  }

  /** Everything SkipSpace passes over is whitespace. */
  lemma {:induction false} SkipSpaceRun(s: string, i: nat)
    requires i <= |s|
    ensures forall k | i <= k < SkipSpace(s, i) :: IsSpace(s[k])
    decreases |s| - i
  {
    if i < |s| && IsSpace(s[i]) {
      SkipSpaceRun(s, i + 1);
    }
  }

  /** Skipping from inside a whitespace run ends where skipping from its start does. */
  lemma {:induction false} SkipSpaceFromInside(s: string, i: nat, k: nat)
    requires i <= |s| && i <= k <= SkipSpace(s, i)
    ensures SkipSpace(s, k) == SkipSpace(s, i)
    decreases k - i
  {
    if i < k {
      SkipSpaceFromInside(s, i + 1, k);
    }
  }

  /** Skipping from the start of a whitespace run goes at least to its end. */
  lemma {:induction false} SkipSpaceOverRun(s: string, i: nat, b: nat)
    requires i <= b <= |s|
    requires forall k | i <= k < b :: IsSpace(s[k])
    ensures b <= SkipSpace(s, i)
    decreases b - i
  {
    if i < b {
      SkipSpaceOverRun(s, i + 1, b);
    }
  }

  /** The line boundaries of str.splitlines(). */
  predicate IsLineBoundary(c: char)
  {
    c == '\n' || c == '\r' || c == '\U{0b}' || c == '\U{0c}'
    || c == '\U{1c}' || c == '\U{1d}' || c == '\U{1e}'
    || c == '\U{85}' || c == '\U{2028}' || c == '\U{2029}'
  }

  predicate SingleLine(s: string)
  {
    forall k | 0 <= k < |s| :: !IsLineBoundary(s[k])
  }

  /** Length of the longest prefix without a line boundary. */
  function LineLength(s: string): (n: nat)
    ensures n <= |s| && SingleLine(s[..n])
    ensures n < |s| ==> IsLineBoundary(s[n])
  {
    if s == [] || IsLineBoundary(s[0]) then 0
    else
      var n := 1 + LineLength(s[1..]);
      assert s[..n] == [s[0]] + s[1..][..n - 1];
      n
  }

  /** s.splitlines(): "\r\n" is one boundary and a final boundary opens no empty line. */
  function SplitLines(s: string): seq<string>
    decreases |s|
  {
    if s == [] then []
    else
      var n := LineLength(s);
      if n == |s| then [s]
      else
        var next := if s[n] == '\r' && n + 1 < |s| && s[n + 1] == '\n' then n + 2 else n + 1;
        [s[..n]] + SplitLines(s[next..])
  }

  /** No line that splitlines() returns holds a line boundary. */
  lemma {:induction false} SplitLinesAreSingle(s: string)
    ensures forall k | 0 <= k < |SplitLines(s)| :: SingleLine(SplitLines(s)[k])
    decreases |s|
  {
    if s != [] {
      var n := LineLength(s);
      var line := s[..n];
      assert SingleLine(line);
      if n == |s| {
        assert line == s;
        assert SplitLines(s) == [line];
      } else {
        var next := if s[n] == '\r' && n + 1 < |s| && s[n + 1] == '\n' then n + 2 else n + 1;
        var rest := SplitLines(s[next..]);
        SplitLinesAreSingle(s[next..]);
        assert SplitLines(s) == [line] + rest;
        forall k | 0 <= k < |SplitLines(s)| ensures SingleLine(SplitLines(s)[k]) {
          if k > 0 {
            assert SplitLines(s)[k] == rest[k - 1];
          }
        }
      }
    }
  }

  /** Stripping cannot introduce a line boundary. */
  lemma StripKeepsSingleLine(s: string)
    requires SingleLine(s)
    ensures SingleLine(Strip(s))
  {
    var r := Strip(s);
    var a := StripInfix(s);
    forall k | 0 <= k < |r| ensures !IsLineBoundary(r[k]) {
      assert r[k] == s[a + k];
    }
  }

  /** The index of the first c in s. */
  function FirstIndex(s: string, c: char): (r: Option<nat>)
    ensures r.None? <==> c !in s
    ensures r.Some? ==> r.value < |s| && s[r.value] == c && c !in s[..r.value]
    ensures r.Some? ==> forall k | 0 <= k < r.value :: s[k] != c
  {
    if s == [] then None
    else if s[0] == c then Some(0)
    else match FirstIndex(s[1..], c)
      case None => None
      case Some(i) =>
        assert s[..i + 1] == [s[0]] + s[1..][..i];
        Some(i + 1)
  }

  /** An occurrence with none before it is the one FirstIndex finds. */
  lemma FirstIndexUnique(s: string, c: char)
    ensures forall i | 0 <= i < |s| && s[i] == c && c !in s[..i] :: FirstIndex(s, c) == Some(i)
  {
  }

  /** The index of the last c in s. */
  function LastIndex(s: string, c: char): (r: Option<nat>)
    ensures r.None? <==> c !in s
    ensures r.Some? ==> r.value < |s| && s[r.value] == c && c !in s[r.value + 1..]
    ensures r.Some? ==> forall k | r.value < k < |s| :: s[k] != c
  {
    if s == [] then None
    else if s[|s| - 1] == c then Some(|s| - 1)
    else
      var r := LastIndex(s[..|s| - 1], c);
      if r.Some? then
        assert s[r.value + 1..] == s[..|s| - 1][r.value + 1..] + [s[|s| - 1]];
        r
      else
        assert s == s[..|s| - 1] + [s[|s| - 1]];
        r
  }

  /** sep.join(parts) for a one-character separator. */
  function Join(sep: char, parts: seq<string>): string
  {
    if parts == [] then []
    else if |parts| == 1 then parts[0]
    else parts[0] + [sep] + Join(sep, parts[1..])
  }

  /** s.split(sep) for a one-character separator: never an empty list. */
  function SplitOn(s: string, sep: char): (parts: seq<string>)
    ensures |parts| >= 1
    decreases |s|
  {
    match FirstIndex(s, sep)
    case None => [s]
    case Some(i) => [s[..i]] + SplitOn(s[i + 1..], sep)
  }

  /** Splitting a join of parts free of the separator gives the parts back. */
  lemma {:induction false} SplitJoin(parts: seq<string>, sep: char)
    requires |parts| >= 1
    requires forall k | 0 <= k < |parts| :: sep !in parts[k]
    ensures SplitOn(Join(sep, parts), sep) == parts
    decreases |parts|
  {
    if |parts| > 1 {
      var s := Join(sep, parts);
      var p := parts[0];
      assert s == p + [sep] + Join(sep, parts[1..]);
      assert s[|p|] == sep;
      assert s[..|p|] == p;
      assert FirstIndex(s, sep) == Some(|p|);
      assert s[|p| + 1..] == Join(sep, parts[1..]);
      SplitJoin(parts[1..], sep);
    }
  }

  function DigitValue(c: char): nat
    requires IsDigit(c)
  {
    c as int - '0' as int
  }

  function DigitChar(d: nat): (c: char)
    requires d < 10
    ensures IsDigit(c) && DigitValue(c) == d
  {
    ('0' as int + d) as char
  }

  predicate AllDigits(s: string)
  {
    forall k | 0 <= k < |s| :: IsDigit(s[k])
  }

  /** int(s) for a string of ASCII digits (leading zeros allowed). */
  function DigitsValue(s: string): nat
    requires AllDigits(s)
  {
    if s == [] then 0
    else DigitsValue(s[..|s| - 1]) * 10 + DigitValue(s[|s| - 1])
  }

  /** str(n) for a natural number. */
  function NatToDecimal(n: nat): (s: string)
    ensures |s| >= 1 && AllDigits(s)
  {
    if n < 10 then [DigitChar(n)] else NatToDecimal(n / 10) + [DigitChar(n % 10)]
  }

  /** int(str(n)) == n. */
  lemma {:induction false} DecimalRoundTrip(n: nat)
    ensures DigitsValue(NatToDecimal(n)) == n
  {
    var s := NatToDecimal(n);
    if n >= 10 {
      DecimalRoundTrip(n / 10);
      assert s[..|s| - 1] == NatToDecimal(n / 10);
    }
  }

  /** str(i) for any int. */
  function IntToDecimal(i: int): (s: string)
    ensures |s| >= 1
    ensures i >= 0 ==> AllDigits(s) && DigitsValue(s) == i
    ensures i < 0 ==> s[0] == '-' && AllDigits(s[1..]) && DigitsValue(s[1..]) == -i
  {
    if i < 0 then
      DecimalRoundTrip(-i);
      assert ("-" + NatToDecimal(-i))[1..] == NatToDecimal(-i);
      "-" + NatToDecimal(-i)
    else
      DecimalRoundTrip(i);
      NatToDecimal(i)
  }

  /** Python's xs[:k], negative k counting from the end. */
  function PyTake<T>(xs: seq<T>, k: int): seq<T>
  {
    if k >= 0 then xs[..if k < |xs| then k else |xs|]
    else xs[..if |xs| + k > 0 then |xs| + k else 0]
  }

  /** Is t an infix of s (Python's `t in s` on strings)? */
  predicate IsInfix(t: string, s: string)
    decreases |s|
  {
    (|t| <= |s| && s[..|t|] == t) || (s != [] && IsInfix(t, s[1..]))
  }
}
