/** The parts of Python's `str` type that vmarkdown.py relies on, over Dafny strings. */
module PyStr {

  datatype Option<T> = None | Some(value: T)

  /** `c.isspace()` for one character: the characters Python treats as whitespace. */
  predicate IsSpaceChar(c: char) {
    || ('\U{9}' <= c <= '\U{D}')
    || ('\U{1C}' <= c <= '\U{1F}')
    || c == ' ' || c == '\U{85}' || c == '\U{A0}' || c == '\U{1680}'
    || ('\U{2000}' <= c <= '\U{200A}')
    || c == '\U{2028}' || c == '\U{2029}' || c == '\U{202F}' || c == '\U{205F}' || c == '\U{3000}'
  }

  predicate AllSpace(s: string) {
    forall i :: 0 <= i < |s| ==> IsSpaceChar(s[i])
  }

  /** `s.isspace()`: true only for a non-empty string of whitespace. */
  predicate IsSpace(s: string) {
    |s| > 0 && AllSpace(s)
  }

  predicate StartsWith(s: string, prefix: string) {
    |prefix| <= |s| && s[..|prefix|] == prefix
  }

  predicate EndsWith(s: string, suffix: string) {
    |suffix| <= |s| && s[|s| - |suffix|..] == suffix
  }

  /** Is `sub` a substring of `s` starting at some position. */
  predicate Occurs(s: string, sub: string) {
    exists i :: 0 <= i <= |s| && StartsWith(s[i..], sub)
  }

  function Concat(parts: seq<string>): (r: string)
    ensures parts == [] ==> r == ""
  {
    if parts == [] then "" else Concat(parts[..|parts| - 1]) + parts[|parts| - 1]
  }

  // ---------------------------------------------------------------------------
  // str.lower()

  /**
   * The lower-case form of one character. Besides A-Z, exactly two characters
   * lower-case into ASCII: KELVIN SIGN becomes 'k' and LATIN CAPITAL LETTER I
   * WITH DOT ABOVE becomes 'i' followed by COMBINING DOT ABOVE. Every other
   * character is kept as it is (its true lower-case form is outside ASCII
   * whenever the character itself is).
   */
  function LowerChar(c: char): string {
    if 'A' <= c <= 'Z' then [(c as int + 32) as char]
    else if c == '\U{212A}' then "k"
    else if c == '\U{130}' then "i\U{307}"
    else [c]
  }

  function Lower(s: string): string {
    if s == [] then [] else LowerChar(s[0]) + Lower(s[1..])
  }

  lemma {:induction false} LowerAppend(a: string, b: string)
    ensures Lower(a + b) == Lower(a) + Lower(b)
  {
    if a == [] {
      assert a + b == b;
    } else {
      assert (a + b)[0] == a[0];
      assert (a + b)[1..] == a[1..] + b;
      LowerAppend(a[1..], b);
    }
  }

  /** Lower-casing leaves a string without upper-case letters unchanged. */
  lemma {:induction false} LowerOfLower(s: string)
    requires forall i :: 0 <= i < |s| ==> !('A' <= s[i] <= 'Z') && s[i] != '\U{212A}' && s[i] != '\U{130}'
    ensures Lower(s) == s
  {
    if s != [] {
      LowerOfLower(s[1..]);
    }
  }

  // ---------------------------------------------------------------------------
  // str(n) for a natural number, and its inverse

  function DigitChar(d: nat): (c: char)
    requires d < 10
    ensures '0' <= c <= '9'
  {
    (48 + d) as char
  }

  function DigitValue(c: char): (d: nat)
    requires '0' <= c <= '9'
    ensures d < 10 && DigitChar(d) == c
  {
    c as int - 48
  }

  predicate IsDigits(s: string) {
    forall i :: 0 <= i < |s| ==> '0' <= s[i] <= '9'
  }

  /** `str(n)`: decimal digits, no leading zero. */
  function NatToString(n: nat): (s: string)
    ensures |s| > 0 && IsDigits(s)
  {
    if n < 10 then [DigitChar(n)] else NatToString(n / 10) + [DigitChar(n % 10)]
  }

  /** `int(s)` for a string of decimal digits. */
  function ParseDecimal(s: string): nat
    requires IsDigits(s)
  {
    if s == [] then 0 else ParseDecimal(s[..|s| - 1]) * 10 + DigitValue(s[|s| - 1])
  }

  lemma {:induction false} ParseNatToString(n: nat)
    ensures ParseDecimal(NatToString(n)) == n
  {
    if n >= 10 {
      var s := NatToString(n);
      assert s[..|s| - 1] == NatToString(n / 10);
      ParseNatToString(n / 10);
    } else {
      assert NatToString(n)[..0] == [];
    }
  }

  lemma NatToStringInjective(a: nat, b: nat)
    requires NatToString(a) == NatToString(b)
    ensures a == b
  {
    ParseNatToString(a);
    ParseNatToString(b);
  }

  // ---------------------------------------------------------------------------
  // str.replace, str.split and str.join

  /**
   * `s.replace(pattern, replacement)`: scan left to right, replace every
   * occurrence that does not overlap an earlier replaced one.
   */
  function ReplaceAll(s: string, pattern: string, replacement: string): string
    requires |pattern| > 0
    decreases |s|
  {
    if StartsWith(s, pattern) then replacement + ReplaceAll(s[|pattern|..], pattern, replacement)
    else if s == [] then []
    else [s[0]] + ReplaceAll(s[1..], pattern, replacement)
  }

  /** `s.split(sep)`, with `current` the piece gathered so far. */
  function SplitFrom(s: string, sep: string, current: string): (pieces: seq<string>)
    requires |sep| > 0
    ensures |pieces| > 0
    decreases |s|
  {
    if StartsWith(s, sep) then [current] + SplitFrom(s[|sep|..], sep, [])
    else if s == [] then [current]
    else SplitFrom(s[1..], sep, current + [s[0]])
  }

  function Split(s: string, sep: string): seq<string>
    requires |sep| > 0
  {
    SplitFrom(s, sep, [])
  }

  /** `sep.join(pieces)`. */
  function Join(pieces: seq<string>, sep: string): string {
    if pieces == [] then ""
    else if |pieces| == 1 then pieces[0]
    else pieces[0] + sep + Join(pieces[1..], sep)
  }

  lemma JoinCons(piece: string, pieces: seq<string>, sep: string)
    requires pieces != []
    ensures Join([piece] + pieces, sep) == piece + sep + Join(pieces, sep)
  {
    assert ([piece] + pieces)[1..] == pieces;
  }

  lemma {:induction false} ReplaceAllFrom(s: string, pattern: string, replacement: string, current: string)
    requires |pattern| > 0
    ensures current + ReplaceAll(s, pattern, replacement) == Join(SplitFrom(s, pattern, current), replacement)
    decreases |s|
  {
    if StartsWith(s, pattern) {
      ReplaceAllFrom(s[|pattern|..], pattern, replacement, []);
      ReplaceAllFromMatch(s, pattern, replacement, current);
    } else if s != [] {
      ReplaceAllFrom(s[1..], pattern, replacement, current + [s[0]]);
      ReplaceAllFromOther(s, pattern, replacement, current);
    } else {
      assert current + [] == current;
    }
  }

  /** The step of ReplaceAllFrom at an occurrence of the pattern. */
  lemma ReplaceAllFromMatch(s: string, pattern: string, replacement: string, current: string)
    requires |pattern| > 0 && StartsWith(s, pattern)
    requires [] + ReplaceAll(s[|pattern|..], pattern, replacement) == Join(SplitFrom(s[|pattern|..], pattern, []), replacement)
    ensures current + ReplaceAll(s, pattern, replacement) == Join(SplitFrom(s, pattern, current), replacement)
  {
    var tail := ReplaceAll(s[|pattern|..], pattern, replacement);
    var rest := SplitFrom(s[|pattern|..], pattern, []);
    assert [] + tail == tail;
    assert SplitFrom(s, pattern, current) == [current] + rest;
    JoinCons(current, rest, replacement);
    assert current + (replacement + tail) == current + replacement + tail;
  }

  /** The step of ReplaceAllFrom at a character that does not start the pattern. */
  lemma ReplaceAllFromOther(s: string, pattern: string, replacement: string, current: string)
    requires |pattern| > 0 && !StartsWith(s, pattern) && s != []
    requires (current + [s[0]]) + ReplaceAll(s[1..], pattern, replacement) == Join(SplitFrom(s[1..], pattern, current + [s[0]]), replacement)
    ensures current + ReplaceAll(s, pattern, replacement) == Join(SplitFrom(s, pattern, current), replacement)
  {
    var tail := ReplaceAll(s[1..], pattern, replacement);
    assert ReplaceAll(s, pattern, replacement) == [s[0]] + tail;
    assert current + ([s[0]] + tail) == (current + [s[0]]) + tail;
  }

  /** `s.replace(p, r)` is `r.join(s.split(p))`. */
  lemma ReplaceAllIsJoinOfSplit(s: string, pattern: string, replacement: string)
    requires |pattern| > 0
    ensures ReplaceAll(s, pattern, replacement) == Join(Split(s, pattern), replacement)
  {
    ReplaceAllFrom(s, pattern, replacement, []);
    assert [] + ReplaceAll(s, pattern, replacement) == ReplaceAll(s, pattern, replacement);
  }

  lemma {:induction false} ReplaceAllBySelf(s: string, pattern: string)
    requires |pattern| > 0
    ensures ReplaceAll(s, pattern, pattern) == s
    decreases |s|
  {
    if StartsWith(s, pattern) {
      ReplaceAllBySelf(s[|pattern|..], pattern);
      assert s == s[..|pattern|] + s[|pattern|..];
    } else if s != [] {
      ReplaceAllBySelf(s[1..], pattern);
      assert s == [s[0]] + s[1..];
    }
  }

  /** Round trip: joining the pieces of a split with the separator gives the string back. */
  lemma SplitJoinRoundTrip(s: string, sep: string)
    requires |sep| > 0
    ensures Join(Split(s, sep), sep) == s
  {
    ReplaceAllIsJoinOfSplit(s, sep, sep);
    ReplaceAllBySelf(s, sep);
  }

  /** A string in which the pattern does not occur is left unchanged by replace. */
  lemma {:induction false} ReplaceAllAbsent(s: string, pattern: string, replacement: string)
    requires |pattern| > 0 && !Occurs(s, pattern)
    ensures ReplaceAll(s, pattern, replacement) == s
    decreases |s|
  {
    assert !StartsWith(s[0..], pattern);
    assert s[0..] == s;
    if s != [] {
      forall i | 0 <= i <= |s[1..]| ensures !StartsWith(s[1..][i..], pattern) {
        assert s[1..][i..] == s[i + 1..];
      }
      ReplaceAllAbsent(s[1..], pattern, replacement);
      assert s == [s[0]] + s[1..];
    }
  }

  // ---------------------------------------------------------------------------
  // str.strip()

  /** The length of the run of whitespace at the front. */
  function LeadingSpaces(s: string): (n: nat)
    ensures n <= |s|
    ensures forall i :: 0 <= i < n ==> IsSpaceChar(s[i])
    ensures n == |s| || !IsSpaceChar(s[n])
  {
    if s != [] && IsSpaceChar(s[0]) then 1 + LeadingSpaces(s[1..]) else 0
  }

  /** Where the run of whitespace at the end begins. */
  function TrailingStart(s: string): (n: nat)
    ensures n <= |s|
    ensures forall i :: n <= i < |s| ==> IsSpaceChar(s[i])
    ensures n == 0 || !IsSpaceChar(s[n - 1])
  {
    if s != [] && IsSpaceChar(s[|s| - 1]) then TrailingStart(s[..|s| - 1]) else |s|
  }

  /** `s.lstrip()`: drop leading whitespace. */
  function StripLeft(s: string): (r: string)
    ensures |r| <= |s| && r == s[|s| - |r|..]
    ensures AllSpace(s[..|s| - |r|])
    ensures r == [] || !IsSpaceChar(r[0])
  {
    s[LeadingSpaces(s)..]
  }

  /** `s.rstrip()`: drop trailing whitespace. */
  function StripRight(s: string): (r: string)
    ensures |r| <= |s| && r == s[..|r|]
    ensures AllSpace(s[|r|..])
    ensures r == [] || !IsSpaceChar(r[|r| - 1])
  {
    s[..TrailingStart(s)]
  }

  /** `s.strip()`: drop leading and trailing whitespace. */
  function Strip(s: string): string {
    StripRight(StripLeft(s))
  }
}
