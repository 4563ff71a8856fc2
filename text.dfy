/**
 * The handful of Python `str` operations the exporter relies on, written
 * out with Python's own semantics: clamped slicing with negative indices,
 * `find`/`rfind` returning -1, `strip` over the characters `str.isspace`
 * accepts, `"*" * n` for any integer `n`, and `str(int)` / `int(str)`.
 */
module Text {
  import opened Wrappers

  // ---------------------------------------------------------------------
  // Character classes
  // ---------------------------------------------------------------------

  predicate IsDigit(c: char) { '0' <= c <= '9' }

  predicate IsLetter(c: char) { 'a' <= c <= 'z' || 'A' <= c <= 'Z' }

  /** The characters for which Python's `str.isspace()` holds. */
  predicate IsSpace(c: char) {
    || '\t' <= c <= '\r'
    || '\U{1c}' <= c <= '\U{1f}'
    || c == ' '
    || c == '\U{85}'
    || c == '\U{a0}'
    || c == '\U{1680}'
    || '\U{2000}' <= c <= '\U{200a}'
    || c == '\U{2028}'
    || c == '\U{2029}'
    || c == '\U{202f}'
    || c == '\U{205f}'
    || c == '\U{3000}'
  }

  predicate AllSpace(s: string) {
    forall k :: 0 <= k < |s| ==> IsSpace(s[k])
  }

  /** Neither end of `s` is a whitespace character. */
  predicate Trimmed(s: string) {
    s == [] || (!IsSpace(s[0]) && !IsSpace(s[|s| - 1]))
  }

  function LowerChar(c: char): char {
    if 'A' <= c <= 'Z' then (c as int + 32) as char else c
  }

  /** `s.lower()` on the ASCII letters. */
  function Lower(s: string): string {
    seq(|s|, k requires 0 <= k < |s| => LowerChar(s[k]))
  }

  // ---------------------------------------------------------------------
  // Prefixes, suffixes, substrings
  // ---------------------------------------------------------------------

  predicate StartsWith(s: string, prefix: string) {
    |prefix| <= |s| && s[..|prefix|] == prefix
  }

  predicate EndsWith(s: string, suffix: string) {
    |suffix| <= |s| && s[|s| - |suffix|..] == suffix
  }

  predicate OccursAt(s: string, sub: string, i: nat) {
    i + |sub| <= |s| && s[i..i + |sub|] == sub
  }

  /** Python's `sub in s`. */
  predicate Contains(s: string, sub: string) {
    exists i: nat :: i <= |s| && OccursAt(s, sub, i)
  }

  /** `"*" * n`: the empty string when `n <= 0`. */
  function Stars(n: int): (r: string)
    ensures |r| == if n <= 0 then 0 else n
    ensures forall k :: 0 <= k < |r| ==> r[k] == '*'
  {
    if n <= 0 then "" else seq(n, _ => '*')
  }

  /** `s.find(c)`: an index of `c`, or -1. */
  function IndexOf(s: string, c: char): (r: int)
    ensures -1 <= r < |s|
    ensures r >= 0 ==> s[r] == c
  {
    if s == [] then -1
    else if s[0] == c then 0
    else var r := IndexOf(s[1..], c); if r < 0 then -1 else r + 1
  }

  /** The index `find` gives is the first one: no `c` comes before it, and -1 means none at all. */
  lemma {:induction false} IndexOfFirst(s: string, c: char)
    ensures forall k :: 0 <= k < |s| && (IndexOf(s, c) < 0 || k < IndexOf(s, c)) ==> s[k] != c
  {
    if s != [] && s[0] != c {
      IndexOfFirst(s[1..], c);
      assert forall k :: 1 <= k < |s| ==> s[k] == s[1..][k - 1];
    }
  }

  /** `s.rfind(c)`: the last index of `c`, or -1. */
  function RFind(s: string, c: char): (r: int)
    ensures -1 <= r < |s|
    ensures r >= 0 ==> s[r] == c
    ensures forall k :: r < k < |s| ==> s[k] != c
  {
    if s == [] then -1
    else if s[|s| - 1] == c then |s| - 1
    else RFind(s[..|s| - 1], c)
  }

  /** The last occurrence of `c` is at `d` when `c` is at `d` and not after it. */
  lemma RFindAt(s: string, c: char, d: int)
    requires 0 <= d < |s| && s[d] == c
    requires forall k :: d < k < |s| ==> s[k] != c
    ensures RFind(s, c) == d
  {
  }

  /** The last occurrence of `c` comes before `k` when `c` is neither at `k` nor after it. */
  lemma RFindBelow(s: string, c: char, k: int)
    requires 0 <= k < |s|
    requires forall m :: k <= m < |s| ==> s[m] != c
    ensures RFind(s, c) < k
  {
  }

  /** The position Python uses for slice bound `i` on a sequence of length `n`. */
  function SliceBound(n: nat, i: int): (r: nat)
    ensures r <= n
  {
    if i < 0 then (if i + n < 0 then 0 else i + n) else (if i > n then n else i)
  }

  /** `s[lo:hi]` with Python's treatment of negative and out-of-range bounds. */
  function PySlice(s: string, lo: int, hi: int): string {
    var a, b := SliceBound(|s|, lo), SliceBound(|s|, hi);
    if a < b then s[a..b] else ""
  }

  /** `s.split(c)[0]`: everything before the first `c`. */
  function SplitFirst(s: string, c: char): (r: string)
    ensures StartsWith(s, r)
    ensures forall k :: 0 <= k < |r| ==> r[k] != c
    ensures |r| < |s| ==> s[|r|] == c
  {
    IndexOfFirst(s, c);
    var i := IndexOf(s, c);
    if i < 0 then s else s[..i]
  }

  /** `sep.join(parts)`. */
  function Join(parts: seq<string>, sep: string): string {
    if parts == [] then ""
    else if |parts| == 1 then parts[0]
    else parts[0] + sep + Join(parts[1..], sep)
  }

  // ---------------------------------------------------------------------
  // strip()
  // ---------------------------------------------------------------------

  function LStrip(s: string): (r: string)
    ensures |r| <= |s| && r == s[|s| - |r|..]
    ensures r == [] || !IsSpace(r[0])
    ensures forall k :: 0 <= k < |s| - |r| ==> IsSpace(s[k])
  {
    if |s| > 0 && IsSpace(s[0]) then LStrip(s[1..]) else s
  }

  function RStrip(s: string): (r: string)
    ensures |r| <= |s| && r == s[..|r|]
    ensures r == [] || !IsSpace(r[|r| - 1])
    ensures forall k :: |r| <= k < |s| ==> IsSpace(s[k])
  {
    if |s| > 0 && IsSpace(s[|s| - 1]) then RStrip(s[..|s| - 1]) else s
  }

  /** `s.strip()`: drop leading and trailing whitespace. */
  function Strip(s: string): (r: string)
    ensures Trimmed(r)
  {
    RStrip(LStrip(s))
  }

  lemma {:induction false} LStripSpacePrefix(w: string, t: string)
    requires AllSpace(w)
    ensures LStrip(w + t) == LStrip(t)
  {
    if w != [] {
      assert (w + t)[0] == w[0];
      assert (w + t)[1..] == w[1..] + t;
      assert IsSpace((w + t)[0]);
      assert LStrip(w + t) == LStrip(w[1..] + t);
      LStripSpacePrefix(w[1..], t);
    } else {
      assert w + t == t;
    }
  }

  lemma {:induction false} RStripSpaceSuffix(t: string, w: string)
    requires AllSpace(w)
    ensures RStrip(t + w) == RStrip(t)
  {
    if w != [] {
      var n := |w| - 1;
      assert (t + w)[|t + w| - 1] == w[n];
      assert (t + w)[..|t + w| - 1] == t + w[..n];
      assert IsSpace((t + w)[|t + w| - 1]);
      assert RStrip(t + w) == RStrip(t + w[..n]);
      RStripSpaceSuffix(t, w[..n]);
    } else {
      assert t + w == t;
    }
  }

  /** Whitespace around a trimmed core is exactly what `strip()` removes. */
  lemma StripPadded(w1: string, core: string, w2: string)
    requires AllSpace(w1) && AllSpace(w2) && Trimmed(core)
    ensures Strip(w1 + core + w2) == core
  {
    assert w1 + core + w2 == w1 + (core + w2);
    LStripSpacePrefix(w1, core + w2);
    if core == [] {
      assert core + w2 == w2 + [];
      LStripSpacePrefix(w2, []);
    } else {
      assert LStrip(core + w2) == core + w2;
      RStripSpaceSuffix(core, w2);
    }
  }

  lemma StripTrimmed(s: string)
    requires Trimmed(s)
    ensures Strip(s) == s
  {
    StripPadded([], s, []);
    assert [] + s + [] == s;
  }

  // ---------------------------------------------------------------------
  // Lower-casing and substrings
  // ---------------------------------------------------------------------

  lemma LowerAppend(a: string, b: string)
    ensures Lower(a + b) == Lower(a) + Lower(b)
  {
  }

  /** A substring without upper-case letters survives lower-casing: `"kyu" in s` implies `"kyu" in s.lower()`. */
  lemma ContainsLower(s: string, sub: string)
    requires Contains(s, sub) && Lower(sub) == sub
    ensures Contains(Lower(s), sub)
  {
    var i: nat :| i <= |s| && OccursAt(s, sub, i);
    assert Lower(s)[i..i + |sub|] == Lower(s[i..i + |sub|]);
    assert OccursAt(Lower(s), sub, i);
  }

  lemma ContainsAppend(a: string, b: string, sub: string)
    requires Contains(b, sub)
    ensures Contains(a + b, sub)
  {
    var i: nat :| i <= |b| && OccursAt(b, sub, i);
    assert (a + b)[|a| + i..|a| + i + |sub|] == b[i..i + |sub|];
    assert OccursAt(a + b, sub, |a| + i);
  }

  lemma ContainsPrepend(a: string, b: string, sub: string)
    requires Contains(a, sub)
    ensures Contains(a + b, sub)
  {
    var i: nat :| i <= |a| && OccursAt(a, sub, i);
    assert (a + b)[i..i + |sub|] == a[i..i + |sub|];
    assert OccursAt(a + b, sub, i);
  }

  // ---------------------------------------------------------------------
  // str(int) and int(str)
  // ---------------------------------------------------------------------

  function DigitChar(d: nat): char
    requires d < 10
  {
    (d + '0' as int) as char
  }

  function DigitValue(c: char): nat
    requires IsDigit(c)
  {
    c as int - '0' as int
  }

  predicate AllDigits(s: string) {
    forall k :: 0 <= k < |s| ==> IsDigit(s[k])
  }

  /** The number an all-digit string denotes in base ten. */
  function DigitsValue(s: string): nat
    requires AllDigits(s)
  {
    if s == [] then 0 else DigitsValue(s[..|s| - 1]) * 10 + DigitValue(s[|s| - 1])
  }

  /** `str(n)` for a non-negative `n`: no sign, no leading zero. */
  function NatToString(n: nat): (r: string)
    ensures |r| >= 1 && AllDigits(r)
    ensures |r| > 1 ==> r[0] != '0'
  {
    if n < 10 then [DigitChar(n)] else NatToString(n / 10) + [DigitChar(n % 10)]
  }

  /** `str(n)`. */
  function IntToString(n: int): (r: string)
    ensures |r| >= 1
    ensures forall k :: 0 <= k < |r| ==> IsDigit(r[k]) || (k == 0 && r[k] == '-')
  {
    if n < 0 then "-" + NatToString(-n) else NatToString(n)
  }

  lemma {:induction false} NatToStringValue(n: nat)
    ensures DigitsValue(NatToString(n)) == n
  {
    if n >= 10 {
      NatToStringValue(n / 10);
      var s := NatToString(n);
      assert s[..|s| - 1] == NatToString(n / 10);
    }
  }

  lemma {:induction false} NatToStringInjective(m: nat, n: nat)
    requires NatToString(m) == NatToString(n)
    ensures m == n
  {
    NatToStringValue(m);
    NatToStringValue(n);
  }

  /** The digits and single underscores between digits that `int()` accepts in base ten. */
  predicate WellFormedDigits(s: string) {
    && |s| > 0
    && IsDigit(s[0])
    && IsDigit(s[|s| - 1])
    && (forall k :: 0 <= k < |s| ==> IsDigit(s[k]) || s[k] == '_')
    && (forall k :: 0 <= k < |s| - 1 ==> !(s[k] == '_' && s[k + 1] == '_'))
  }

  function RemoveUnderscores(s: string): (r: string)
    ensures (forall k :: 0 <= k < |s| ==> IsDigit(s[k]) || s[k] == '_') ==> AllDigits(r)
  {
    if s == [] then []
    else if s[|s| - 1] == '_' then RemoveUnderscores(s[..|s| - 1])
    else RemoveUnderscores(s[..|s| - 1]) + [s[|s| - 1]]
  }

  lemma {:induction false} RemoveUnderscoresNone(s: string)
    requires AllDigits(s)
    ensures RemoveUnderscores(s) == s
  {
    if s != [] {
      RemoveUnderscoresNone(s[..|s| - 1]);
    }
  }

  /**
   * The whitespace `int()` skips around a literal: the ASCII characters
   * " \t\n\v\f\r", and from U+007F up every character `isspace()` accepts.
   * The separators U+001C to U+001F are not among them.
   */
  predicate IntSpace(c: char) {
    ('\t' <= c <= '\r') || c == ' ' || (c >= '\U{7f}' && IsSpace(c))
  }

  function IntLStrip(s: string): (r: string)
    ensures |r| <= |s| && r == s[|s| - |r|..]
    ensures r == [] || !IntSpace(r[0])
    ensures forall k :: 0 <= k < |s| - |r| ==> IntSpace(s[k])
  {
    if |s| > 0 && IntSpace(s[0]) then IntLStrip(s[1..]) else s
  }

  function IntRStrip(s: string): (r: string)
    ensures |r| <= |s| && r == s[..|r|]
    ensures r == [] || !IntSpace(r[|r| - 1])
    ensures forall k :: |r| <= k < |s| ==> IntSpace(s[k])
  {
    if |s| > 0 && IntSpace(s[|s| - 1]) then IntRStrip(s[..|s| - 1]) else s
  }

  /** What `int()` strips from both ends of its argument. */
  function IntStrip(s: string): string {
    IntRStrip(IntLStrip(s))
  }

  /** Text that neither starts nor ends with such whitespace is left as it is. */
  lemma IntStripUnpadded(s: string)
    requires s == [] || (!IntSpace(s[0]) && !IntSpace(s[|s| - 1]))
    ensures IntStrip(s) == s
  {
  }

  /**
   * `int(s)` in base ten: the whitespace of IntSpace around an optional
   * sign, then ASCII digits with single underscores between them; None
   * where Python raises ValueError.
   */
  function ParseInt(s: string): Option<int> {
    ParseSigned(IntStrip(s))
  }

  /** A file separator (U+001C) is not whitespace to `int()`. */
  lemma ParseIntSpacing()
    ensures ParseInt("\U{1c}5") == None
  {
    var t := "\U{1c}5";
    assert t[0] == '\U{1c}' && t[|t| - 1] == '5';
    ParseIntBadStart(t);
  }

  /** Whitespace before and after a run of digits does not change its value. */
  lemma ParseIntPadded(pre: string, d: string, post: string)
    requires forall k :: 0 <= k < |pre| ==> IntSpace(pre[k])
    requires forall k :: 0 <= k < |post| ==> IntSpace(post[k])
    requires |d| >= 1 && AllDigits(d)
    ensures ParseInt(pre + d + post) == Some(DigitsValue(d))
  {
    assert IsDigit(d[0]) && IsDigit(d[|d| - 1]);
    IntStripPadded(pre, d, post);
    SignedPlain(d);
  }

  /** Stripping removes exactly the whitespace around unpadded text. */
  lemma IntStripPadded(pre: string, d: string, post: string)
    requires forall k :: 0 <= k < |pre| ==> IntSpace(pre[k])
    requires forall k :: 0 <= k < |post| ==> IntSpace(post[k])
    requires |d| >= 1 && !IntSpace(d[0]) && !IntSpace(d[|d| - 1])
    ensures IntStrip(pre + d + post) == d
  {
    assert pre + d + post == pre + (d + post);
    assert (d + post)[0] == d[0];
    IntLStripSpaces(pre, d + post);
    IntRStripSpaces(d, post);
  }

  /** Leading whitespace is removed up to the first other character. */
  lemma {:induction false} IntLStripSpaces(pre: string, rest: string)
    requires forall k :: 0 <= k < |pre| ==> IntSpace(pre[k])
    requires rest == [] || !IntSpace(rest[0])
    ensures IntLStrip(pre + rest) == rest
    decreases |pre|
  {
    if pre == [] {
      assert pre + rest == rest;
    } else {
      assert (pre + rest)[0] == pre[0];
      assert (pre + rest)[1..] == pre[1..] + rest;
      IntLStripSpaces(pre[1..], rest);
    }
  }

  /** Trailing whitespace is removed back to the last other character. */
  lemma {:induction false} IntRStripSpaces(rest: string, post: string)
    requires forall k :: 0 <= k < |post| ==> IntSpace(post[k])
    requires rest == [] || !IntSpace(rest[|rest| - 1])
    ensures IntRStrip(rest + post) == rest
    decreases |post|
  {
    if post == [] {
      assert rest + post == rest;
    } else {
      var s := rest + post;
      assert s[|s| - 1] == post[|post| - 1];
      assert s[..|s| - 1] == rest + post[..|post| - 1];
      IntRStripSpaces(rest, post[..|post| - 1]);
    }
  }

  /**
   * Text that starts with a character that is neither whitespace, a sign
   * nor a digit, and does not end in whitespace, is no literal.
   */
  lemma ParseIntBadStart(t: string)
    requires |t| > 0 && !IntSpace(t[0]) && !IntSpace(t[|t| - 1])
    requires t[0] != '-' && t[0] != '+' && !IsDigit(t[0])
    ensures ParseInt(t) == None
  {
    IntStripUnpadded(t);
    assert !WellFormedDigits(t);
  }

  /** The stripped text: an optional sign, then the digits. */
  function ParseSigned(t: string): Option<int> {
    var negative := |t| > 0 && t[0] == '-';
    var body := if |t| > 0 && (t[0] == '-' || t[0] == '+') then t[1..] else t;
    if !WellFormedDigits(body) then None
    else
      var v: int := DigitsValue(RemoveUnderscores(body));
      Some(if negative then -v else v)
  }

  /** `int(str(n)) == n`. */
  lemma ParseIntOfIntToString(n: int)
    ensures ParseInt(IntToString(n)) == Some(n)
  {
    var m: nat := if n < 0 then -n else n;
    NatToStringValue(m);
    if n < 0 {
      ParseNegative(NatToString(m));
    } else {
      ParseUnsigned(NatToString(m));
    }
  }

  /** A plain run of digits reads as its value. */
  lemma ParseUnsigned(d: string)
    requires |d| >= 1 && AllDigits(d)
    ensures ParseInt(d) == Some(DigitsValue(d))
  {
    IntStripUnpadded(d);
    SignedPlain(d);
  }

  /** "-" followed by a run of digits reads as minus its value. */
  lemma ParseNegative(d: string)
    requires |d| >= 1 && AllDigits(d)
    ensures var v: int := DigitsValue(d); ParseInt("-" + d) == Some(-v)
  {
    var s := "-" + d;
    assert s[|s| - 1] == d[|d| - 1];
    IntStripUnpadded(s);
    assert s[1..] == d;
    SignedMinus(s, d);
  }

  lemma SignedPlain(d: string)
    requires |d| >= 1 && AllDigits(d)
    ensures ParseSigned(d) == Some(DigitsValue(d))
  {
    DigitsWellFormed(d);
  }

  lemma SignedMinus(t: string, d: string)
    requires |d| >= 1 && AllDigits(d)
    requires |t| >= 1 && t[0] == '-' && t[1..] == d
    ensures var v: int := DigitsValue(d); ParseSigned(t) == Some(-v)
  {
    DigitsWellFormed(d);
  }

  lemma DigitsWellFormed(d: string)
    requires |d| >= 1 && AllDigits(d)
    ensures WellFormedDigits(d) && RemoveUnderscores(d) == d
  {
    RemoveUnderscoresNone(d);
  }
}
