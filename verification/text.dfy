/** String primitives of the Java and JavaScript runtimes the system relies on,
    written over `seq<char>`: searching, prefix/suffix tests, trimming,
    blank tests, lower-casing and decimal rendering. */
module Text {

  // ---------------------------------------------------------------------
  // Searching
  // ---------------------------------------------------------------------

  /** Java `s.indexOf(c, from)`: the first position at or after `from` holding
      `c`, or -1. */
  function IndexOfFrom(s: string, c: char, from: nat): (r: int)
    decreases |s| - from
    ensures r == -1 || (from <= r < |s| && s[r] == c)
    ensures r == -1 <==> forall k :: from <= k < |s| ==> s[k] != c
    ensures r != -1 ==> forall k :: from <= k < r ==> s[k] != c
  {
    if from >= |s| then -1
    else if s[from] == c then from
    else IndexOfFrom(s, c, from + 1)
  }

  /** Java `s.indexOf(c)`. */
  function IndexOf(s: string, c: char): (r: int)
    ensures r == -1 <==> c !in s
    ensures r != -1 ==> 0 <= r < |s| && s[r] == c && c !in s[..r]
  {
    IndexOfFrom(s, c, 0)
  }

  /** The first occurrence is determined by the prefix before it. */
  lemma IndexOfAt(s: string, c: char, i: nat)
    requires i < |s| && s[i] == c && c !in s[..i]
    ensures IndexOf(s, c) == i
  {
    assert forall k :: 0 <= k < i ==> s[..i][k] == s[k];
    assert IndexOfFrom(s, c, 0) != -1;
  }

  /** Java `s.lastIndexOf(c)`. */
  function LastIndexOf(s: string, c: char): (r: int)
    ensures r == -1 <==> c !in s
    ensures r != -1 ==> 0 <= r < |s| && s[r] == c && c !in s[r + 1..]
  {
    if |s| == 0 then -1
    else if s[|s| - 1] == c then |s| - 1
    else
      var r := LastIndexOf(s[..|s| - 1], c);
      assert s[..|s| - 1] + [s[|s| - 1]] == s;
      assert r != -1 ==> s[r + 1..] == s[..|s| - 1][r + 1..] + [s[|s| - 1]];
      r
  }

  predicate StartsWith(s: string, prefix: string)
  {
    prefix <= s
  }

  predicate EndsWith(s: string, suffix: string)
  {
    |suffix| <= |s| && s[|s| - |suffix|..] == suffix
  }

  /** Java `s.contains(sub)` / JavaScript `s.includes(sub)`. */
  predicate Contains(s: string, sub: string)
    decreases |s|
  {
    sub <= s || (|s| > 0 && Contains(s[1..], sub))
  }

  lemma ContainsPrefix(sub: string, rest: string)
    ensures Contains(sub + rest, sub)
  {
    assert sub <= sub + rest;
  }

  lemma {:induction false} ContainsAppendLeft(a: string, s: string, sub: string)
    requires Contains(s, sub)
    ensures Contains(a + s, sub)
    decreases |a|
  {
    if |a| == 0 {
      assert a + s == s;
    } else {
      assert (a + s)[1..] == a[1..] + s;
      ContainsAppendLeft(a[1..], s, sub);
    }
  }

  lemma {:induction false} ContainsAppendRight(s: string, b: string, sub: string)
    requires Contains(s, sub)
    ensures Contains(s + b, sub)
    decreases |s|
  {
    if sub <= s {
      assert sub <= s + b;
    } else {
      assert (s + b)[1..] == s[1..] + b;
      ContainsAppendRight(s[1..], b, sub);
    }
  }

  /** A string that does not hold the first character of a non-empty `sub`
      does not contain `sub`. */
  lemma {:induction false} NotContainsWithoutFirstChar(s: string, sub: string)
    requires |sub| > 0 && sub[0] !in s
    ensures !Contains(s, sub)
    decreases |s|
  {
    if |s| > 0 {
      assert s[0] in s;
      assert forall c :: c in s[1..] ==> c in s;
      NotContainsWithoutFirstChar(s[1..], sub);
    }
  }

  // ---------------------------------------------------------------------
  // Trimming and blank tests
  // ---------------------------------------------------------------------

  /** Java `String.trim` removes every character up to U+0020 from both ends. */
  predicate IsJavaTrimmed(c: char)
  {
    c <= ' '
  }

  function JavaTrimStart(s: string): string
  {
    if |s| > 0 && IsJavaTrimmed(s[0]) then JavaTrimStart(s[1..]) else s
  }

  /** `JavaTrimStart` drops the longest prefix of trimmed characters. */
  lemma {:induction false} JavaTrimStartShape(s: string)
    ensures var r := JavaTrimStart(s);
      |r| <= |s| && r == s[|s| - |r|..]
      && (|r| > 0 ==> !IsJavaTrimmed(r[0]))
      && forall k :: 0 <= k < |s| - |r| ==> IsJavaTrimmed(s[k])
    decreases |s|
  {
    if |s| > 0 && IsJavaTrimmed(s[0]) {
      JavaTrimStartShape(s[1..]);
    }
  }

  function JavaTrimEnd(s: string): string
  {
    if |s| > 0 && IsJavaTrimmed(s[|s| - 1]) then JavaTrimEnd(s[..|s| - 1]) else s
  }

  /** `JavaTrimEnd` drops the longest suffix of trimmed characters. */
  lemma {:induction false} JavaTrimEndShape(s: string)
    ensures var r := JavaTrimEnd(s);
      |r| <= |s| && r == s[..|r|]
      && (|r| > 0 ==> !IsJavaTrimmed(r[|r| - 1]))
      && forall k :: |r| <= k < |s| ==> IsJavaTrimmed(s[k])
    decreases |s|
  {
    if |s| > 0 && IsJavaTrimmed(s[|s| - 1]) {
      JavaTrimEndShape(s[..|s| - 1]);
    }
  }

  /** Java `s.trim()`. */
  function JavaTrim(s: string): string
  {
    JavaTrimEnd(JavaTrimStart(s))
  }

  /** A Java string is empty after `trim()` exactly when all of its characters
      are trimmed away. */
  lemma JavaTrimEmpty(s: string)
    ensures JavaTrim(s) == [] <==> forall k :: 0 <= k < |s| ==> IsJavaTrimmed(s[k])
  {
    var t := JavaTrimStart(s);
    JavaTrimStartShape(s);
    JavaTrimEndShape(t);
    if JavaTrim(s) == [] {
      assert t == [];
    }
  }

  /** A string without leading or trailing trimmed characters is its own trim. */
  lemma JavaTrimIdentity(s: string)
    requires |s| > 0 ==> !IsJavaTrimmed(s[0]) && !IsJavaTrimmed(s[|s| - 1])
    ensures JavaTrim(s) == s
  {
  }

  /** Java `Character.isWhitespace`, the test behind `String.isBlank`: the
      Unicode space, line and paragraph separators other than the
      non-breaking ones, plus U+0009..U+000D and U+001C..U+001F. */
  predicate IsJavaWhitespace(c: char)
  {
    var u := c as int;
    (0x09 <= u <= 0x0D) || (0x1C <= u <= 0x20) || u == 0x1680
    || (0x2000 <= u <= 0x2006) || (0x2008 <= u <= 0x200A)
    || u == 0x2028 || u == 0x2029 || u == 0x205F || u == 0x3000
  }

  /** Java `s.isBlank()`. */
  predicate JavaIsBlank(s: string)
  {
    forall k :: 0 <= k < |s| ==> IsJavaWhitespace(s[k])
  }

  /** JavaScript WhiteSpace and LineTerminator code points, the set that
      `String.prototype.trim` and numeric conversion skip. */
  predicate IsJsSpace(c: char)
  {
    var u := c as int;
    (0x09 <= u <= 0x0D) || u == 0x20 || u == 0xA0 || u == 0x1680
    || (0x2000 <= u <= 0x200A) || u == 0x2028 || u == 0x2029 || u == 0x202F
    || u == 0x205F || u == 0x3000 || u == 0xFEFF
  }

  function JsTrimStart(s: string): string
  {
    if |s| > 0 && IsJsSpace(s[0]) then JsTrimStart(s[1..]) else s
  }

  /** `JsTrimStart` drops the longest prefix of white space. */
  lemma {:induction false} JsTrimStartShape(s: string)
    ensures var r := JsTrimStart(s);
      |r| <= |s| && r == s[|s| - |r|..]
      && (|r| > 0 ==> !IsJsSpace(r[0]))
      && forall k :: 0 <= k < |s| - |r| ==> IsJsSpace(s[k])
    decreases |s|
  {
    if |s| > 0 && IsJsSpace(s[0]) {
      JsTrimStartShape(s[1..]);
    }
  }

  function JsTrimEnd(s: string): string
  {
    if |s| > 0 && IsJsSpace(s[|s| - 1]) then JsTrimEnd(s[..|s| - 1]) else s
  }

  /** `JsTrimEnd` drops the longest suffix of white space. */
  lemma {:induction false} JsTrimEndShape(s: string)
    ensures var r := JsTrimEnd(s);
      |r| <= |s| && r == s[..|r|]
      && (|r| > 0 ==> !IsJsSpace(r[|r| - 1]))
      && forall k :: |r| <= k < |s| ==> IsJsSpace(s[k])
    decreases |s|
  {
    if |s| > 0 && IsJsSpace(s[|s| - 1]) {
      JsTrimEndShape(s[..|s| - 1]);
    }
  }

  /** JavaScript `s.trim()`. */
  function JsTrim(s: string): string
  {
    JsTrimEnd(JsTrimStart(s))
  }

  /** A JavaScript string is empty after `trim()` exactly when every character
      is white space. */
  lemma JsTrimEmpty(s: string)
    ensures JsTrim(s) == [] <==> forall k :: 0 <= k < |s| ==> IsJsSpace(s[k])
  {
    var t := JsTrimStart(s);
    JsTrimStartShape(s);
    JsTrimEndShape(t);
    if JsTrim(s) == [] {
      assert t == [];
    }
  }

  // ---------------------------------------------------------------------
  // Case mapping
  // ---------------------------------------------------------------------

  /** Lower-casing of the Latin and basic Cyrillic capitals. These are the only
      capitals whose lower-case forms occur in the keywords the system searches
      for, so a keyword test on the result agrees with full Unicode lower-casing. */
  function LowerChar(c: char): char
  {
    if 'A' <= c <= 'Z' then (c as int + 32) as char
    else if 'А' <= c <= 'Я' then (c as int + 32) as char
    else if c == 'Ё' then 'ё'
    else c
  }

  function ToLower(s: string): (r: string)
    ensures |r| == |s|
    ensures forall k :: 0 <= k < |s| ==> r[k] == LowerChar(s[k])
  {
    if |s| == 0 then [] else [LowerChar(s[0])] + ToLower(s[1..])
  }

  /** The Basic Latin capital a character is equal to under Java's
      `equalsIgnoreCase` (upper-case, then lower-case, compare): the Latin
      small letters, the dotless i, the dotted capital I, the long s and the
      Kelvin sign fold to a Latin capital; every other character stands for
      itself. */
  function FoldLatin(c: char): char
  {
    if 'a' <= c <= 'z' then (c as int - 32) as char
    else if c == '\U{131}' || c == '\U{130}' then 'I'
    else if c == '\U{17F}' then 'S'
    else if c == '\U{212A}' then 'K'
    else c
  }

  /** Java `a.equalsIgnoreCase(b)`, exact whenever `b` is Basic Latin text. */
  predicate EqualsIgnoreCase(a: string, b: string)
  {
    |a| == |b| && forall k :: 0 <= k < |a| ==> FoldLatin(a[k]) == FoldLatin(b[k])
  }

  // ---------------------------------------------------------------------
  // Decimal rendering
  // ---------------------------------------------------------------------

  predicate IsDigit(c: char)
  {
    '0' <= c <= '9'
  }

  predicate AllDigits(s: string)
  {
    forall k :: 0 <= k < |s| ==> IsDigit(s[k])
  }

  function DigitChar(d: nat): char
    requires d < 10
  {
    ('0' as int + d) as char
  }

  function DigitValue(c: char): nat
    requires IsDigit(c)
  {
    c as int - '0' as int
  }

  /** The value of a string of decimal digits. */
  function DigitsValue(s: string): nat
    requires AllDigits(s)
  {
    if |s| == 0 then 0 else DigitsValue(s[..|s| - 1]) * 10 + DigitValue(s[|s| - 1])
  }

  /** Exactly `width` decimal digits of `n`, the least significant last
      (`String.format("%0<width>d")` for a value that fits). */
  function PadDigits(n: nat, width: nat): (r: string)
    ensures |r| == width
    ensures AllDigits(r)
  {
    if width == 0 then [] else PadDigits(n / 10, width - 1) + [DigitChar(n % 10)]
  }

  /** Reading the padded digits back gives the number, when it fits. */
  lemma {:induction false} PadDigitsValue(n: nat, width: nat)
    requires n < Pow10(width)
    ensures DigitsValue(PadDigits(n, width)) == n
  {
    if width > 0 {
      var r := PadDigits(n, width);
      assert r[..|r| - 1] == PadDigits(n / 10, width - 1);
      PadDigitsValue(n / 10, width - 1);
    }
  }

  /** Reading digits and writing them back at the same width is the
      identity, and the value fits in that width. */
  lemma {:induction false} DigitsPadRoundTrip(s: string)
    requires AllDigits(s)
    ensures DigitsValue(s) < Pow10(|s|)
    ensures PadDigits(DigitsValue(s), |s|) == s
  {
    if |s| > 0 {
      var front := s[..|s| - 1];
      DigitsPadRoundTrip(front);
      var n := DigitsValue(s);
      assert n / 10 == DigitsValue(front) && n % 10 == DigitValue(s[|s| - 1]);
      assert s == front + [s[|s| - 1]];
    }
  }

  function Pow10(k: nat): (r: nat)
    ensures r >= 1
  {
    if k == 0 then 1 else 10 * Pow10(k - 1)
  }

  /** The shortest decimal rendering of a natural number (Java `Long.toString`,
      JavaScript `String(n)` for integers). */
  function NatToString(n: nat): (r: string)
    ensures |r| > 0 && AllDigits(r)
    decreases n
  {
    if n < 10 then [DigitChar(n)] else NatToString(n / 10) + [DigitChar(n % 10)]
  }

  lemma {:induction false} NatToStringValue(n: nat)
    ensures DigitsValue(NatToString(n)) == n
    decreases n
  {
    if n >= 10 {
      var r := NatToString(n);
      assert r[..|r| - 1] == NatToString(n / 10);
      NatToStringValue(n / 10);
    }
  }

  function IntToString(i: int): (r: string)
    ensures |r| > 0
  {
    if i < 0 then "-" + NatToString(-i) else NatToString(i)
  }

  /** Java `String.join(sep, parts)` / JavaScript `parts.join(sep)`. */
  function Join(parts: seq<string>, sep: string): string
  {
    if |parts| == 0 then []
    else if |parts| == 1 then parts[0]
    else parts[0] + sep + Join(parts[1..], sep)
  }

  // ---------------------------------------------------------------------
  // Splitting at a single character
  // ---------------------------------------------------------------------

  /** Every piece between occurrences of `c`, empty ones included
      (JavaScript `s.split(c)`). */
  function SplitAll(s: string, c: char): (r: seq<string>)
    decreases |s|
    ensures |r| >= 1
    ensures forall k :: 0 <= k < |r| ==> c !in r[k]
  {
    if c !in s then [s]
    else
      var i := IndexOf(s, c);
      [s[..i]] + SplitAll(s[i + 1..], c)
  }

  /** Joining the pieces with `c` gives the text back. */
  lemma {:induction false} JoinSplitAll(s: string, c: char)
    decreases |s|
    ensures Join(SplitAll(s, c), [c]) == s
  {
    if c in s {
      var i := IndexOf(s, c);
      var rest := SplitAll(s[i + 1..], c);
      var r := SplitAll(s, c);
      assert r == [s[..i]] + rest;
      assert r[0] == s[..i] && r[1..] == rest;
      JoinSplitAll(s[i + 1..], c);
      calc {
        Join(r, [c]);
        r[0] + [c] + Join(r[1..], [c]);
        s[..i] + [c] + s[i + 1..];
        s;
      }
    }
  }

  /** The last piece is what follows the last `c`. */
  predicate LastPieceFollowsLast(s: string, c: char)
  {
    var r := SplitAll(s, c); r[|r| - 1] == s[LastIndexOf(s, c) + 1..]
  }

  lemma {:induction false} SplitAllLast(s: string, c: char)
    decreases |s|
    ensures LastPieceFollowsLast(s, c)
  {
    var i := IndexOf(s, c);
    if i >= 0 {
      SplitAllLast(s[i + 1..], c);
      SplitAllLastStep(s, c, i);
    } else {
      assert SplitAll(s, c) == [s] && s[0..] == s;
    }
  }

  /** The inductive step: the last piece of `s` is the last piece of what
      follows its first `c`. */
  lemma SplitAllLastStep(s: string, c: char, i: nat)
    requires c in s && i == IndexOf(s, c)
    requires LastPieceFollowsLast(s[i + 1..], c)
    ensures LastPieceFollowsLast(s, c)
  {
    var rest := SplitAll(s[i + 1..], c);
    assert SplitAll(s, c) == [s[..i]] + rest;
    LastOfCons(s[..i], rest);
    LastIndexOfTail(s, c, i);
  }

  lemma LastOfCons<T>(x: T, rest: seq<T>)
    requires |rest| > 0
    ensures ([x] + rest)[|rest|] == rest[|rest| - 1]
  {
  }

  /** What follows the last `c` of `s` is what follows the last `c` of the
      text after any one of them. */
  lemma LastIndexOfTail(s: string, c: char, i: nat)
    requires i < |s| && s[i] == c
    ensures s[LastIndexOf(s, c) + 1..] == s[i + 1..][LastIndexOf(s[i + 1..], c) + 1..]
  {
    var j := LastIndexOf(s[i + 1..], c);
    if j == -1 {
      LastIndexOfAt(s, c, i);
    } else {
      LastInTail(s, c, i + 1, j);
    }
  }

  /** A last occurrence at `j` in `s[a..]` is one at `a + j` in `s`. */
  lemma LastInTail(s: string, c: char, a: nat, j: nat)
    requires a <= |s| && j < |s| - a && s[a..][j] == c && c !in s[a..][j + 1..]
    ensures LastIndexOf(s, c) == a + j && s[a + j + 1..] == s[a..][j + 1..]
  {
    assert s[a + j + 1..] == s[a..][j + 1..];
    LastIndexOfAt(s, c, a + j);
  }

  /** The last occurrence is determined by the suffix after it. */
  lemma LastIndexOfAt(s: string, c: char, i: nat)
    requires i < |s| && s[i] == c && c !in s[i + 1..]
    ensures LastIndexOf(s, c) == i
  {
    var r := LastIndexOf(s, c);
    assert forall k :: i < k < |s| ==> s[i + 1..][k - i - 1] == s[k];
    assert forall k :: r < k < |s| ==> s[r + 1..][k - r - 1] == s[k];
  }

  /** A trailing `c` adds one empty piece at the end. */
  lemma {:induction false} SplitAllTrailing(s: string, c: char)
    decreases |s|
    ensures SplitAll(s + [c], c) == SplitAll(s, c) + [[]]
  {
    var t := s + [c];
    assert t[|s|] == c;
    if c in s {
      var i := IndexOf(s, c);
      assert t[..i] == s[..i];
      IndexOfAt(t, c, i);
      assert t[i + 1..] == s[i + 1..] + [c];
      SplitAllTrailing(s[i + 1..], c);
      calc {
        SplitAll(t, c);
        [t[..i]] + SplitAll(t[i + 1..], c);
        [s[..i]] + (SplitAll(s[i + 1..], c) + [[]]);
        ([s[..i]] + SplitAll(s[i + 1..], c)) + [[]];
        SplitAll(s, c) + [[]];
      }
    } else {
      assert t[..|s|] == s;
      IndexOfAt(t, c, |s|);
      assert t[|s| + 1..] == [];
      assert SplitAll(t, c) == [s] + SplitAll([], c);
    }
  }

  /** The pieces without the empty ones at the end. */
  function DropTrailingEmpty(parts: seq<string>): (r: seq<string>)
    ensures r <= parts
    ensures |r| == 0 || r[|r| - 1] != []
    ensures forall k :: |r| <= k < |parts| ==> parts[k] == []
  {
    if |parts| > 0 && parts[|parts| - 1] == [] then DropTrailingEmpty(parts[..|parts| - 1])
    else parts
  }

  /** Java `s.split(c)` for a one-character literal pattern: the pieces with
      trailing empty ones removed, or `[s]` when `c` does not occur. */
  function JavaSplit(s: string, c: char): (r: seq<string>)
    ensures c !in s ==> r == [s]
    ensures c in s ==> r == DropTrailingEmpty(SplitAll(s, c))
    ensures forall k :: 0 <= k < |r| ==> c !in r[k]
  {
    if c !in s then [s] else DropTrailingEmpty(SplitAll(s, c))
  }

  /** Without a trailing `c`, Java's last piece is what follows the last `c`. */
  lemma JavaSplitLast(s: string, c: char)
    requires |s| > 0 && s[|s| - 1] != c
    ensures |JavaSplit(s, c)| > 0
    ensures JavaSplit(s, c)[|JavaSplit(s, c)| - 1] == s[LastIndexOf(s, c) + 1..]
  {
    var last := LastIndexOf(s, c);
    assert |s[last + 1..]| > 0 by {
      assert last < |s| - 1;
    }
    if c in s {
      var parts := SplitAll(s, c);
      SplitAllLast(s, c);
      assert parts[|parts| - 1] == s[last + 1..];
      assert DropTrailingEmpty(parts) == parts;
      assert JavaSplit(s, c) == parts;
    } else {
      assert s[last + 1..] == s;
    }
  }

  /** A trailing `c` does not change Java's pieces of a text that does not
      already end in `c`. */
  lemma JavaSplitTrailing(s: string, c: char)
    requires |s| > 0 && s[|s| - 1] != c
    ensures JavaSplit(s + [c], c) == JavaSplit(s, c)
  {
    var parts := SplitAll(s, c);
    SplitAllTrailing(s, c);
    assert (s + [c])[|s|] == c;
    SplitAllLast(s, c);
    var last := LastIndexOf(s, c);
    assert |s[last + 1..]| > 0 by {
      assert last < |s| - 1;
    }
    assert (parts + [[]])[..|parts|] == parts;
    assert DropTrailingEmpty(parts + [[]]) == DropTrailingEmpty(parts);
    assert DropTrailingEmpty(parts) == parts;
    if c !in s {
      assert parts == [s];
    }
  }

  // ---------------------------------------------------------------------
  // Length in UTF-16 code units
  // ---------------------------------------------------------------------

  /** Java's `length()` and JavaScript's `length`: UTF-16 code units, two
      for a character outside the Basic Multilingual Plane. */
  function Utf16Length(s: string): (n: nat)
    ensures n >= |s|
  {
    if |s| == 0 then 0 else (if s[0] as int >= 0x1_0000 then 2 else 1) + Utf16Length(s[1..])
  }

  /** A string of Basic Multilingual Plane characters is as long to
      Java and JavaScript as it is here. */
  lemma {:induction false} Utf16LengthBmp(s: string)
    requires forall k :: 0 <= k < |s| ==> s[k] as int < 0x1_0000
    ensures Utf16Length(s) == |s|
  {
    if |s| > 0 {
      Utf16LengthBmp(s[1..]);
    }
  }
}
