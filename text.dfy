/**
 * The parts of Python's `str` the repository relies on: `isspace` (also the regex
 * class `\s`), `strip`/`rstrip`, `split` on one separator, ASCII digits,
 * `int()` of a digit run, and code-point lexicographic comparison.
 */
module Text {
  import opened Wrappers

  /** `c.isspace()`, which is also what the regex class `\s` matches. */
  predicate IsSpace(c: char) {
    ('\t' <= c <= '\r') || ('\U{1c}' <= c <= ' ') || c == '\U{85}' || c == '\U{a0}' ||
    c == '\U{1680}' || ('\U{2000}' <= c <= '\U{200a}') || c == '\U{2028}' || c == '\U{2029}' ||
    c == '\U{202f}' || c == '\U{205f}' || c == '\U{3000}'
  }

  predicate IsDigit(c: char) {
    '0' <= c <= '9'
  }

  predicate AllSpace(s: string) {
    forall i :: 0 <= i < |s| ==> IsSpace(s[i])
  }

  predicate AllDigits(s: string) {
    forall i :: 0 <= i < |s| ==> IsDigit(s[i])
  }

  /** `s.lstrip()`. */
  function LStrip(s: string): (r: string)
    ensures |r| <= |s| && r == s[|s| - |r|..]
    ensures r == [] || !IsSpace(r[0])
    ensures AllSpace(s[..|s| - |r|])
  {
    if s != [] && IsSpace(s[0]) then
      var r := LStrip(s[1..]);
      assert s[..|s| - |r|] == [s[0]] + s[1..][..|s[1..]| - |r|];
      r
    else s
  }

  /** `s.rstrip()`. */
  function RStrip(s: string): (r: string)
    ensures |r| <= |s| && r == s[..|r|]
    ensures r == [] || !IsSpace(r[|r| - 1])
    ensures AllSpace(s[|r|..])
  {
    if s != [] && IsSpace(s[|s| - 1]) then
      var r := RStrip(s[..|s| - 1]);
      assert s[|r|..] == s[..|s| - 1][|r|..] + [s[|s| - 1]];
      r
    else s
  }

  /** `s.strip()`. */
  function Strip(s: string): string {
    LStrip(RStrip(s))
  }

  /** The index of the first occurrence of `sep` in `s`, or `|s|`. */
  function IndexOf(s: string, sep: char): (i: nat)
    ensures i <= |s| && sep !in s[..i] && (i < |s| ==> s[i] == sep)
  {
    if s == [] then 0 else if s[0] == sep then 0 else 1 + IndexOf(s[1..], sep)
  }

  /** `s.split(sep)` for a one-character separator: one more field than separators. */
  function Split(s: string, sep: char): (r: seq<string>)
    ensures |r| >= 1
    ensures forall k :: 0 <= k < |r| ==> sep !in r[k]
    decreases |s|
  {
    var i := IndexOf(s, sep);
    if i == |s| then [s] else [s[..i]] + Split(s[i + 1..], sep)
  }

  /** The longest prefix of ASCII digits. */
  function DigitPrefix(s: string): (r: string)
    ensures AllDigits(r) && |r| <= |s| && r == s[..|r|]
    ensures |r| < |s| ==> !IsDigit(s[|r|])
  {
    if s != [] && IsDigit(s[0]) then [s[0]] + DigitPrefix(s[1..]) else []
  }

  /** `int()` of a string of ASCII digits. */
  function DigitsValue(s: string): (n: nat)
    requires AllDigits(s)
  {
    if s == [] then 0 else DigitsValue(s[..|s| - 1]) * 10 + (s[|s| - 1] as int - '0' as int)
  }

  /** `s.lstrip(c)` for one character, as `re.sub('^c+', '', s)` does. */
  function DropLeading(s: string, c: char): (r: string)
    ensures |r| <= |s| && r == s[|s| - |r|..]
    ensures r == [] || r[0] != c
    ensures forall i :: 0 <= i < |s| - |r| ==> s[i] == c
  {
    if s != [] && s[0] == c then DropLeading(s[1..], c) else s
  }

  /** `n * [c]`, the string of `n` copies of `c`. */
  function Repeat(c: char, n: nat): (r: string)
    ensures |r| == n && forall i :: 0 <= i < n ==> r[i] == c
  {
    if n == 0 then [] else [c] + Repeat(c, n - 1)
  }

  /** `('0' * width + s)[-max(width, len(s)):]`: `s` left-padded with zeros to `width`. */
  function PadLeft(s: string, width: nat): (r: string)
    ensures |r| == if |s| < width then width else |s|
    ensures r[|r| - |s|..] == s
    ensures forall i :: 0 <= i < |r| - |s| ==> r[i] == '0'
  {
    if |s| < width then Repeat('0', width - |s|) + s else s
  }

  /** `needle in hay` for strings. */
  predicate Contains(hay: string, needle: string)
    decreases |hay|
  {
    |needle| <= |hay| && (hay[..|needle|] == needle || Contains(hay[1..], needle))
  }

  /** `a <= b` for Python strings: code-point lexicographic order. */
  predicate LexLe(a: string, b: string) {
    a == [] || (b != [] && (a[0] < b[0] || (a[0] == b[0] && LexLe(a[1..], b[1..]))))
  }

  lemma {:induction false} LexTotal(a: string, b: string)
    ensures LexLe(a, b) || LexLe(b, a)
  {
    if a != [] && b != [] && a[0] == b[0] {
      LexTotal(a[1..], b[1..]);
    }
  }

  lemma {:induction false} LexTransitive(a: string, b: string, c: string)
    requires LexLe(a, b) && LexLe(b, c)
    ensures LexLe(a, c)
  {
    if a != [] && b != [] && c != [] && a[0] == b[0] && b[0] == c[0] {
      LexTransitive(a[1..], b[1..], c[1..]);
    }
  }

  lemma {:induction false} LexAntisymmetric(a: string, b: string)
    requires LexLe(a, b) && LexLe(b, a)
    ensures a == b
  {
    if a != [] && b != [] {
      LexAntisymmetric(a[1..], b[1..]);
      assert a == [a[0]] + a[1..];
      assert b == [b[0]] + b[1..];
    }
  }

  /** What `.*` matches at the start of `s`: everything up to the first line break. */
  function FirstLine(s: string): (r: string)
    ensures |r| <= |s| && r == s[..|r|] && '\n' !in r
    ensures |r| < |s| ==> s[|r|] == '\n'
  {
    s[..IndexOf(s, '\n')]
  }

  /** The digit run of `a + b` is `a` when `a` is all digits and `b` does not start with one. */
  lemma {:induction false} DigitPrefixAppend(a: string, b: string)
    requires AllDigits(a) && (b == [] || !IsDigit(b[0]))
    ensures DigitPrefix(a + b) == a
  {
    if a != [] {
      assert (a + b)[1..] == a[1..] + b;
      DigitPrefixAppend(a[1..], b);
    }
  }

  /** Leading zeros do not change the value `int()` reads. */
  lemma {:induction false} LeadingZerosValue(z: string, s: string)
    requires forall i :: 0 <= i < |z| ==> z[i] == '0'
    requires AllDigits(s)
    ensures AllDigits(z + s) && DigitsValue(z + s) == DigitsValue(s)
    decreases |s|
  {
    if s == [] {
      assert z + s == z;
      ZerosValue(z);
    } else {
      var init := s[..|s| - 1];
      assert (z + s)[..|z + s| - 1] == z + init;
      LeadingZerosValue(z, init);
    }
  }

  lemma {:induction false} ZerosValue(z: string)
    requires forall i :: 0 <= i < |z| ==> z[i] == '0'
    ensures AllDigits(z) && DigitsValue(z) == 0
  {
    if z != [] {
      ZerosValue(z[..|z| - 1]);
    }
  }

  function Pow10(w: nat): (p: nat)
    ensures p >= 1
  {
    if w == 0 then 1 else 10 * Pow10(w - 1)
  }

  /** `'%0*d' % (w, n)` for `n < 10^w`: the last `w` decimal digits of `n`. */
  function Digits(n: nat, w: nat): (s: string)
    ensures |s| == w && AllDigits(s)
  {
    if w == 0 then [] else Digits(n / 10, w - 1) + [('0' as int + n % 10) as char]
  }

  /** Reading back the digits of a number that fits the width gives the number. */
  lemma {:induction false} DigitsRoundTrip(n: nat, w: nat)
    requires n < Pow10(w)
    ensures DigitsValue(Digits(n, w)) == n
  {
    if w > 0 {
      var s := Digits(n, w);
      assert s[..|s| - 1] == Digits(n / 10, w - 1);
      assert n / 10 < Pow10(w - 1);
      DigitsRoundTrip(n / 10, w - 1);
      assert (n / 10) * 10 + n % 10 == n;
    }
  }

  /** A digit string is the digits of its value, at its own width. */
  lemma {:induction false} ValueRoundTrip(s: string)
    requires AllDigits(s)
    ensures DigitsValue(s) < Pow10(|s|)
    ensures Digits(DigitsValue(s), |s|) == s
  {
    if s != [] {
      var init := s[..|s| - 1];
      var d := s[|s| - 1] as int - '0' as int;
      ValueRoundTrip(init);
      var v := DigitsValue(init);
      assert DigitsValue(s) == v * 10 + d;
      assert (v * 10 + d) / 10 == v && (v * 10 + d) % 10 == d;
      assert v * 10 + d < 10 * Pow10(|init|);
      assert s == init + [s[|s| - 1]];
    }
  }

  /** The magnitude of an integer. */
  function Abs(n: int): (m: nat)
    ensures m == n || m == -n
  {
    if n < 0 then -n else n
  }

  /**
   * `t` is one way of writing `n` that `int()` accepts: an optional `+` or `-`, with `-`
   * whenever `n` is negative and `+` never for a negative number, then a non-empty run of
   * ASCII digits that spells the magnitude of `n`, leading zeros allowed.
   */
  ghost predicate Spells(t: string, n: int) {
    var signed := t != [] && (t[0] == '+' || t[0] == '-');
    var d := if signed then t[1..] else t;
    && d != [] && AllDigits(d)
    && Digits(Abs(n), |d|) == d
    && (n < 0 ==> signed && t[0] == '-')
    && (n > 0 && signed ==> t[0] == '+')
  }

  /**
   * `int(s)` on text: white space around an optional sign and ASCII digits; `None` where
   * `int` raises `ValueError`.
   */
  function IntOf(s: string): (r: Option<int>)
    ensures r.Some? ==> Spells(Strip(s), r.value)
  {
    IntOfStripped(Strip(s))
  }

  /** `int()` of text without surrounding white space. */
  function IntOfStripped(t: string): (r: Option<int>)
    ensures r.Some? ==> Spells(t, r.value)
  {
    var signed := t != [] && (t[0] == '+' || t[0] == '-');
    var d := if signed then t[1..] else t;
    if d != [] && AllDigits(d) then
      var v: int := if signed && t[0] == '-' then 0 - DigitsValue(d) as int else DigitsValue(d) as int;
      SignedSpells(t, signed, d, v);
      Some(v)
    else None
  }

  /** A digit run spells its value, under the sign in front of it. */
  lemma SignedSpells(t: string, signed: bool, d: string, v: int)
    requires signed == (t != [] && (t[0] == '+' || t[0] == '-'))
    requires d == (if signed then t[1..] else t) && d != [] && AllDigits(d)
    requires v == if signed && t[0] == '-' then 0 - DigitsValue(d) as int else DigitsValue(d) as int
    ensures Spells(t, v)
  {
    ValueRoundTrip(d);
    assert Abs(v) == DigitsValue(d);
  }

  /** `int()` raises exactly on text that spells no integer. */
  lemma IntOfRejects(s: string, n: int)
    requires IntOf(s).None?
    ensures !Spells(Strip(s), n)
  {
  }

  /** Text that neither starts nor ends with white space strips to itself. */
  lemma StripNoSpace(s: string)
    requires s != [] && !IsSpace(s[0]) && !IsSpace(s[|s| - 1])
    ensures Strip(s) == s
  {
    assert RStrip(s) == s;
  }

  /** `int()` of text that strips to an optional minus sign and a digit run. */
  lemma IntOfParts(s: string, d: string, neg: bool)
    requires d != [] && AllDigits(d) && Strip(s) == (if neg then "-" else "") + d
    ensures IntOf(s) == Some(if neg then 0 - DigitsValue(d) as int else DigitsValue(d))
  {
    StrippedParts(Strip(s), d, neg);
  }

  lemma StrippedParts(t: string, d: string, neg: bool)
    requires d != [] && AllDigits(d) && t == (if neg then "-" else "") + d
    ensures IntOfStripped(t) == Some(if neg then 0 - DigitsValue(d) as int else DigitsValue(d))
  {
    assert IsDigit(d[0]);
    if neg {
      assert t[0] == '-' && t[1..] == d;
    } else {
      assert t == d && t[0] != '+' && t[0] != '-';
    }
  }

  /** `str(n)`, or any zero-padded form of it, is read back by `int()`. */
  lemma IntOfDigits(n: int, w: nat)
    requires 1 <= w && Abs(n) < Pow10(w)
    ensures IntOf((if n < 0 then "-" else "") + Digits(Abs(n), w)) == Some(n)
  {
    var d := Digits(Abs(n), w);
    var s := (if n < 0 then "-" else "") + d;
    assert s[|s| - 1] == d[w - 1] && IsDigit(d[0]);
    StripNoSpace(s);
    IntOfParts(s, d, n < 0);
    DigitsRoundTrip(Abs(n), w);
  }

  /** The number of decimal digits `str(n)` writes for `n >= 0`. */
  function DigitCount(n: nat): (w: nat)
    ensures 1 <= w && n < Pow10(w)
  {
    if n < 10 then 1 else 1 + DigitCount(n / 10)
  }

  /** `str(n)`. */
  function Decimal(n: int): (s: string)
    ensures IntOf(s) == Some(n)
  {
    IntOfDigits(n, DigitCount(Abs(n)));
    (if n < 0 then "-" else "") + Digits(Abs(n), DigitCount(Abs(n)))
  }

  /** Concatenation regroups; called where the solver would otherwise search for it. */
  lemma Associates<T>(a: seq<T>, b: seq<T>, c: seq<T>)
    ensures (a + b) + c == a + (b + c)
  {
  }
}
