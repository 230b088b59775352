/** String operations the two core files rely on: Python's `in` and `str.lower()`
    on the failure text, Python's `str.strip()` on the answer, JavaScript's
    `String.prototype.trim()` on the question, and Python's `str(int)` in the
    storage directory name. */
module Text {

  // ---------------------------------------------------------------------------
  // Substring test
  // ---------------------------------------------------------------------------

  /** `t` occurs in `s` at position `i`. */
  predicate OccursAt(s: string, t: string, i: int) {
    0 <= i && i + |t| <= |s| && s[i..i + |t|] == t
  }

  /** Python's `t in s` for strings. */
  predicate Contains(s: string, t: string) {
    exists i | 0 <= i <= |s| - |t| :: OccursAt(s, t, i)
  }

  // ---------------------------------------------------------------------------
  // Lower-casing
  // ---------------------------------------------------------------------------

  function LowerChar(c: char): char {
    if 'A' <= c <= 'Z' then (c as int + 32) as char else c
  }

  function UpperChar(c: char): char
    requires 'a' <= c <= 'z'
  {
    (c as int - 32) as char
  }

  /** Python's `str.lower()`, restricted to the ASCII letters. */
  function LowerAscii(s: string): string {
    seq(|s|, i requires 0 <= i < |s| => LowerChar(s[i]))
  }

  /** Only a letter itself and its capital lower-case to a lower-case letter. */
  lemma LowerCharOnto(c: char, x: char)
    requires 'a' <= x <= 'z' && LowerChar(c) == x
    ensures c == x || c == UpperChar(x)
  {
  }

  /** A needle holding a letter that the haystack holds in neither case does not
      occur in the lower-cased haystack. */
  lemma NotContainsWithout(e: string, t: string, k: int)
    requires 0 <= k < |t| && 'a' <= t[k] <= 'z'
    requires t[k] !in e && UpperChar(t[k]) !in e
    ensures !Contains(LowerAscii(e), t)
  {
    var s := LowerAscii(e);
    forall i | 0 <= i <= |s| - |t| ensures !OccursAt(s, t, i) {
      assert s[i..i + |t|][k] == s[i + k] == LowerChar(e[i + k]);
      if LowerChar(e[i + k]) == t[k] {
        LowerCharOnto(e[i + k], t[k]);
      }
    }
  }

  /** A needle letter that the haystack `a + [m] + b` holds, in either case, only
      at the spot `m`, where the next character does not match the needle's next
      one: the needle does not occur in the lower-cased haystack. */
  lemma NotContainsAroundSpot(a: string, m: char, b: string, t: string, k: int)
    requires 0 <= k && k + 1 < |t| && 'a' <= t[k] <= 'z' && b != []
    requires t[k] !in a && UpperChar(t[k]) !in a && t[k] !in b && UpperChar(t[k]) !in b
    requires LowerChar(b[0]) != t[k + 1]
    ensures !Contains(LowerAscii(a + [m] + b), t)
  {
    var e := a + [m] + b;
    var s := LowerAscii(e);
    forall i | 0 <= i <= |s| - |t| ensures !OccursAt(s, t, i) {
      assert s[i..i + |t|][k] == s[i + k] == LowerChar(e[i + k]);
      assert s[i..i + |t|][k + 1] == s[i + k + 1] == LowerChar(e[i + k + 1]);
      if LowerChar(e[i + k]) == t[k] {
        LowerCharOnto(e[i + k], t[k]);
        if i + k == |a| {
          assert e[i + k + 1] == b[0];
        }
      }
    }
  }

  // ---------------------------------------------------------------------------
  // Stripping whitespace from both ends
  // ---------------------------------------------------------------------------

  /** Python's `str.isspace()` characters, the set `str.strip()` removes. */
  const PyWhitespace: set<char> := {
    '\t', '\n', '\U{B}', '\U{C}', '\r', '\U{1C}', '\U{1D}', '\U{1E}', '\U{1F}', ' ',
    '\U{85}', '\U{A0}', '\U{1680}',
    '\U{2000}', '\U{2001}', '\U{2002}', '\U{2003}', '\U{2004}', '\U{2005}',
    '\U{2006}', '\U{2007}', '\U{2008}', '\U{2009}', '\U{200A}',
    '\U{2028}', '\U{2029}', '\U{202F}', '\U{205F}', '\U{3000}'
  }

  /** ECMAScript WhiteSpace and LineTerminator code points, the set `trim()` removes. */
  const JsWhitespace: set<char> := {
    '\t', '\n', '\U{B}', '\U{C}', '\r', ' ', '\U{A0}', '\U{1680}',
    '\U{2000}', '\U{2001}', '\U{2002}', '\U{2003}', '\U{2004}', '\U{2005}',
    '\U{2006}', '\U{2007}', '\U{2008}', '\U{2009}', '\U{200A}',
    '\U{2028}', '\U{2029}', '\U{202F}', '\U{205F}', '\U{3000}', '\U{FEFF}'
  }

  /** Drops the leading characters that are in `ws`: what is left is a suffix of
      `s`, everything dropped is in `ws`, and what is left does not start with one. */
  function TrimStart(s: string, ws: set<char>): (r: string)
    ensures |r| <= |s| && r == s[|s| - |r|..]
    ensures forall k :: 0 <= k < |s| - |r| ==> s[k] in ws
    ensures r != [] ==> r[0] !in ws
  {
    if s != [] && s[0] in ws then TrimStart(s[1..], ws) else s
  }

  /** Drops the trailing characters that are in `ws`, symmetrically. */
  function TrimEnd(s: string, ws: set<char>): (r: string)
    ensures |r| <= |s| && r == s[..|r|]
    ensures forall k :: |r| <= k < |s| ==> s[k] in ws
    ensures r != [] ==> r[|r| - 1] !in ws
  {
    if s != [] && s[|s| - 1] in ws then TrimEnd(s[..|s| - 1], ws) else s
  }

  /** Both ends stripped. */
  function Strip(s: string, ws: set<char>): string {
    TrimEnd(TrimStart(s, ws), ws)
  }

  /** `r` is the slice `s[i..j]` of `s`, only `ws` characters lie outside it, and
      it neither starts nor ends with a `ws` character. */
  ghost predicate StrippedAt(r: string, s: string, ws: set<char>, i: int, j: int) {
    0 <= i <= j <= |s| && r == s[i..j]
    && (forall k :: 0 <= k < i ==> s[k] in ws)
    && (forall k :: j <= k < |s| ==> s[k] in ws)
    && (r != [] ==> r[0] !in ws && r[|r| - 1] !in ws)
  }

  /** `r` is `s` with every leading and trailing `ws` character removed and
      nothing else. */
  ghost predicate IsStripOf(r: string, s: string, ws: set<char>) {
    exists i, j :: StrippedAt(r, s, ws, i, j)
  }

  /** Strip meets the positional description. */
  lemma StripMeetsSpec(s: string, ws: set<char>)
    ensures IsStripOf(Strip(s, ws), s, ws)
  {
    var t := TrimStart(s, ws);
    var r := TrimEnd(t, ws);
    var i := |s| - |t|;
    var j := i + |r|;
    assert r == s[i..j];
    forall k | j <= k < |s| ensures s[k] in ws {
      assert s[k] == t[k - i];
    }
    if r != [] {
      assert r[0] == t[0];
    }
    assert StrippedAt(r, s, ws, i, j);
  }

  /** The positional description determines the stripped string uniquely, so
      it is an independent definition of Strip. */
  lemma StripSpecUnique(s: string, ws: set<char>, r1: string, r2: string)
    requires IsStripOf(r1, s, ws) && IsStripOf(r2, s, ws)
    ensures r1 == r2
  {
    var i1, j1 :| StrippedAt(r1, s, ws, i1, j1);
    var i2, j2 :| StrippedAt(r2, s, ws, i2, j2);
    if r1 != [] && r2 != [] {
      assert s[i1] == r1[0] && s[i2] == r2[0];
      assert s[j1 - 1] == r1[|r1| - 1] && s[j2 - 1] == r2[|r2| - 1];
    }
  }

  /** The stripped string is empty exactly when every character is in `ws`. */
  lemma StripEmptyIff(s: string, ws: set<char>)
    ensures Strip(s, ws) == [] <==> forall k :: 0 <= k < |s| ==> s[k] in ws
  {
  }

  // ---------------------------------------------------------------------------
  // Decimal rendering of integers
  // ---------------------------------------------------------------------------

  predicate IsDigit(c: char) {
    '0' <= c <= '9'
  }

  function DigitChar(d: nat): (c: char)
    requires d < 10
    ensures IsDigit(c)
  {
    (48 + d) as char
  }

  /** The decimal digits of `n`, most significant first, no leading zero. */
  function DecimalDigits(n: nat): (r: string)
    ensures r != []
    ensures forall k :: 0 <= k < |r| ==> IsDigit(r[k])
    decreases n
  {
    if n < 10 then [DigitChar(n)] else DecimalDigits(n / 10) + [DigitChar(n % 10)]
  }

  function DigitValue(c: char): (d: nat)
    requires IsDigit(c)
    ensures d < 10
  {
    c as int - '0' as int
  }

  /** Reads a string of decimal digits back as a number. */
  function DecimalValue(s: string): nat
    requires forall k :: 0 <= k < |s| ==> IsDigit(s[k])
  {
    if s == [] then 0
    else DecimalValue(s[..|s| - 1]) * 10 + DigitValue(s[|s| - 1])
  }

  /** Reading back the rendered digits gives the number. */
  lemma {:induction false} DecimalRoundTrip(n: nat)
    ensures DecimalValue(DecimalDigits(n)) == n
    decreases n
  {
    if n >= 10 {
      DecimalRoundTrip(n / 10);
      var r := DecimalDigits(n);
      assert r[..|r| - 1] == DecimalDigits(n / 10);
    }
  }

  /** Python's `str(i)` for an integer. */
  function IntToString(i: int): string {
    if i < 0 then "-" + DecimalDigits(-i) else DecimalDigits(i)
  }

  /** A rendering starts with a minus sign exactly when the integer is negative. */
  lemma SignChar(i: int)
    ensures IntToString(i) != [] && (IntToString(i)[0] == '-' <==> i < 0)
  {
    if i >= 0 {
      assert IsDigit(IntToString(i)[0]);
    }
  }

  /** Different integers render differently. */
  lemma IntToStringInjective(a: int, b: int)
    requires IntToString(a) == IntToString(b)
    ensures a == b
  {
    SignChar(a);
    SignChar(b);
    if a < 0 && b < 0 {
      assert IntToString(a)[1..] == DecimalDigits(-a);
      assert IntToString(b)[1..] == DecimalDigits(-b);
      DecimalRoundTrip(-a);
      DecimalRoundTrip(-b);
    } else if a >= 0 && b >= 0 {
      assert IntToString(a) == DecimalDigits(a) && IntToString(b) == DecimalDigits(b);
      DecimalRoundTrip(a);
      DecimalRoundTrip(b);
    }
  }
}
