/**
 * The self-contained rules of the security helpers: the block padding that precedes AES
 * encryption and its removal after decryption, the password-strength check, and the shape of
 * generated passwords. The cipher, the hash and the random source are not modelled; the
 * random choices are a parameter.
 */
module Security {
  import opened Wrappers
  import opened Text

  newtype byte = x: int | 0 <= x < 256

  // ---------------------------------------------------------------------------------------
  // Padding
  // ---------------------------------------------------------------------------------------

  /** `__block_size`: the padding block, in bytes. */
  const BlockSize: nat := 32

  /** `n` copies of the byte `b`. */
  function Fill(b: byte, n: nat): (r: seq<byte>)
    ensures |r| == n && forall i :: 0 <= i < n ==> r[i] == b
  {
    if n == 0 then [] else [b] + Fill(b, n - 1)
  }

  /** The number of bytes `_padding` appends: from 1 to a whole block. */
  function PadCount(len: nat): (n: nat)
    ensures 1 <= n <= BlockSize && (len + n) % BlockSize == 0
  {
    BlockSize - len % BlockSize
  }

  /** `_padding(s)`: append `n` bytes of value `n`, with `n` what fills the last block. */
  function Pad(s: seq<byte>): (r: seq<byte>)
    ensures |r| % BlockSize == 0 && |s| < |r| <= |s| + BlockSize
    ensures r[..|s|] == s
    ensures forall i :: |s| <= i < |r| ==> r[i] as int == |r| - |s|
  {
    var n := PadCount(|s|);
    s + Fill(n as byte, n)
  }

  /**
   * `_unpadding(s)`: drop as many bytes as the value of the last one says. An empty input
   * raises `TypeError` (`ord` of an empty string); a last byte of 0, or one at least as long
   * as the input, leaves nothing, as Python's `s[:-k]` does.
   */
  function Unpad(s: seq<byte>): (r: Result<seq<byte>, Exception>)
    ensures r.Err? <==> s == []
    ensures r.Err? ==> r.error == TypeError
    ensures r.Ok? ==> |r.value| < |s| && r.value == s[..|r.value|]
  {
    if s == [] then Err(TypeError)
    else
      var k := s[|s| - 1] as int;
      if k == 0 || k >= |s| then Ok([]) else Ok(s[..|s| - k])
  }

  /** Removing the padding gives back what was padded. */
  lemma UnpadPad(s: seq<byte>)
    ensures Unpad(Pad(s)) == Ok(s)
  {
    var r := Pad(s);
    assert r[|r| - 1] as int == |r| - |s|;
  }

  /** Padding is one-to-one: different plaintexts never share a padded form. */
  lemma PadInjective(s: seq<byte>, t: seq<byte>)
    requires Pad(s) == Pad(t)
    ensures s == t
  {
    UnpadPad(s);
    UnpadPad(t);
  }

  // ---------------------------------------------------------------------------------------
  // Password strength
  // ---------------------------------------------------------------------------------------

  /** The value handed to `is_safe_as_password`: `None`, a string, or anything else (by its `str`). */
  datatype Candidate = Missing | Text(s: string) | Other(shown: string)

  /** How many characters at the start of `s` equal `c`. */
  function RunOf(s: string, c: char): (n: nat)
    ensures n <= |s| && (forall i :: 0 <= i < n ==> s[i] == c) && (n < |s| ==> s[n] != c)
  {
    if s != [] && s[0] == c then 1 + RunOf(s[1..], c) else 0
  }

  /** How many characters at the start of `s` the class `\d` matches. */
  function DecimalRun(s: string, decimal: char -> bool): (n: nat)
    ensures n <= |s| && (forall i :: 0 <= i < n ==> decimal(s[i])) && (n < |s| ==> !decimal(s[n]))
  {
    if s != [] && decimal(s[0]) then 1 + DecimalRun(s[1..], decimal) else 0
  }

  /** The regex `$` at position `e`: the end of `s`, or just before a final newline. */
  predicate AtEnd(s: string, e: nat) {
    e == |s| || (e + 1 == |s| && s[e] == '\n')
  }

  /** A greedy repetition that reached `e` backtracks one character at a time down to `least`, looking for `$`. */
  predicate Backtrack(s: string, e: nat, least: nat)
    decreases e
  {
    least <= e && (AtEnd(s, e) || (e > 0 && Backtrack(s, e - 1, least)))
  }

  /** `re.match(r'(.)\1+$', s)`: `.` takes a character other than a newline, `\1+` one or more copies of it. */
  predicate MatchesRepeat(s: string) {
    s != [] && s[0] != '\n' && Backtrack(s, 1 + RunOf(s[1..], s[0]), 2)
  }

  /** `re.match(r'\d+$', s)`. */
  predicate MatchesDecimal(s: string, decimal: char -> bool) {
    Backtrack(s, DecimalRun(s, decimal), 1)
  }

  /** `s` is one character, not a newline, written at least twice, perhaps followed by a newline. */
  ghost predicate SingleCharacter(s: string) {
    exists c: char, k: nat :: k >= 2 && c != '\n' && (s == Repeat(c, k) || s == Repeat(c, k) + "\n")
  }

  /** `s` is a non-empty run of decimal digits, perhaps followed by a newline. */
  ghost predicate AllDecimal(s: string, decimal: char -> bool) {
    exists k: nat :: 1 <= k <= |s| && (forall i :: 0 <= i < k ==> decimal(s[i])) && AtEnd(s, k)
  }

  /** Backtracking below the greedy end finds `$` only at a position it could have reached greedily. */
  lemma {:induction false} BacktrackAt(s: string, e: nat, least: nat)
    requires e <= |s| && forall i :: least <= i < e ==> s[i] != '\n'
    ensures Backtrack(s, e, least) <==> least <= e && AtEnd(s, e)
    decreases e
  {
    if e > 0 && least <= e - 1 {
      BacktrackAt(s, e - 1, least);
    }
  }

  /** The greedy run of `(.)\1+` from the start of `s`: every character before `e` is `s[0]`. */
  lemma RepeatRun(s: string)
    requires s != []
    ensures var e := 1 + RunOf(s[1..], s[0]);
      e <= |s| && (forall i :: 0 <= i < e ==> s[i] == s[0]) && (e < |s| ==> s[e] != s[0])
  {
    var e := 1 + RunOf(s[1..], s[0]);
    forall i | 0 <= i < e ensures s[i] == s[0] {
      if i > 0 {
        assert s[i] == s[1..][i - 1];
      }
    }
    if e < |s| {
      assert s[e] == s[1..][e - 1];
    }
  }

  /** The regex engine's search for `(.)\1+$` finds exactly the single-character strings. */
  lemma MatchesRepeatMeaning(s: string)
    ensures MatchesRepeat(s) <==> SingleCharacter(s)
  {
    if MatchesRepeat(s) {
      var c := s[0];
      var e := 1 + RunOf(s[1..], c);
      RepeatRun(s);
      BacktrackAt(s, e, 2);
      assert s[..e] == Repeat(c, e);
      if e == |s| {
        assert s == Repeat(c, e);
      } else {
        assert s == Repeat(c, e) + "\n";
      }
    }
    if SingleCharacter(s) {
      var c, k :| k >= 2 && c != '\n' && (s == Repeat(c, k) || s == Repeat(c, k) + "\n");
      assert |s| >= k && s[0] == c;
      var e := 1 + RunOf(s[1..], c);
      RepeatRun(s);
      assert forall i :: 0 <= i < k ==> s[i] == c;
      assert k < |s| ==> s[k] != c;
      assert e == k;
      BacktrackAt(s, e, 2);
    }
  }

  /** The regex engine's search for `\d+$` finds exactly the digit strings, a newline alone not being a digit. */
  lemma MatchesDecimalMeaning(s: string, decimal: char -> bool)
    requires !decimal('\n')
    ensures MatchesDecimal(s, decimal) <==> AllDecimal(s, decimal)
  {
    var e := DecimalRun(s, decimal);
    BacktrackAt(s, e, 1);
    if AllDecimal(s, decimal) {
      var k :| 1 <= k <= |s| && (forall i :: 0 <= i < k ==> decimal(s[i])) && AtEnd(s, k);
      assert k < |s| ==> !decimal(s[k]);
      assert e == k;
    }
  }

  /**
   * `is_safe_as_password(raw)`, as written: `None` is refused, a non-string raises
   * `AttributeError` (the code calls `trim`, which `str` does not have), and a string is
   * accepted when it has at least 8 characters, is not one character repeated and is not
   * all digits. `decimal` is the regex class `\d`, Unicode's decimal digits.
   */
  function IsSafeAsPassword(raw: Candidate, decimal: char -> bool): (r: Result<bool, Exception>)
    requires !decimal('\n')
    ensures r.Err? <==> raw.Other?
    ensures r.Err? ==> r.error == AttributeError
    ensures r == Ok(true) <==>
      (raw.Text? && |raw.s| >= 8 && !SingleCharacter(raw.s) && !AllDecimal(raw.s, decimal))
  {
    match raw
    case Missing => Ok(false)
    case Other(_) => Err(AttributeError)
    case Text(s) =>
      MatchesRepeatMeaning(s);
      MatchesDecimalMeaning(s, decimal);
      Ok(|s| >= 8 && !MatchesRepeat(s) && !MatchesDecimal(s, decimal))
  }

  /** Any value that is not a string makes the check raise, among them the number 12345678. */
  lemma NonStringRaises()
    ensures IsSafeAsPassword(Other("12345678"), IsDigit) == Err(AttributeError)
  {
  }

  /** The check as evidently meant: a non-string is judged by its `str`, stripped (`strip`, not `trim`). */
  function IsSafeIntended(raw: Candidate, decimal: char -> bool): (r: bool)
    requires !decimal('\n')
  {
    match raw
    case Missing => false
    case Text(s) => IsSafeAsPassword(raw, decimal).value
    case Other(shown) => IsSafeAsPassword(Text(Strip(shown)), decimal).value
  }

  /** The intended check never raises, and refuses exactly what the string check refuses. */
  lemma IntendedJudgesText(raw: Candidate, decimal: char -> bool)
    requires !decimal('\n')
    ensures raw.Other? ==> (IsSafeIntended(raw, decimal) <==>
      (|Strip(raw.shown)| >= 8 && !SingleCharacter(Strip(raw.shown)) && !AllDecimal(Strip(raw.shown), decimal)))
    ensures IsSafeIntended(Other("12345678"), decimal) == IsSafeAsPassword(Text("12345678"), decimal).value
  {
    assert Strip("12345678") == "12345678" by {
      assert RStrip("12345678") == "12345678";
    }
  }

  // ---------------------------------------------------------------------------------------
  // Generated passwords
  // ---------------------------------------------------------------------------------------

  /** `string.ascii_letters + string.digits`. */
  const Alphabet: string := Run('a', 26) + Run('A', 26) + Run('0', 10)

  /** `n` consecutive characters from `c` on. */
  function Run(c: char, n: nat): (r: string)
    requires c as int + n <= 0xD800
    ensures |r| == n && forall i :: 0 <= i < n ==> r[i] == (c as int + i) as char
  {
    seq(n, i requires 0 <= i < n => (c as int + i) as char)
  }

  predicate Alphanumeric(c: char) {
    'a' <= c <= 'z' || 'A' <= c <= 'Z' || '0' <= c <= '9'
  }

  /**
   * `generate_passwd(len(picks))` with the random draws as a parameter: each draw is what
   * `random.randint(0, len(chars) - 1)` returned and selects one character of the alphabet.
   */
  function GeneratePasswd(picks: seq<nat>): (r: string)
    requires forall i :: 0 <= i < |picks| ==> picks[i] < |Alphabet|
    ensures |r| == |picks|
    ensures forall i :: 0 <= i < |r| ==> Alphanumeric(r[i])
  {
    if picks == [] then []
    else
      AlphabetAlphanumeric(picks[0]);
      [Alphabet[picks[0]]] + GeneratePasswd(picks[1..])
  }

  lemma AlphabetAlphanumeric(i: nat)
    requires i < |Alphabet|
    ensures Alphanumeric(Alphabet[i])
  {
    if i < 26 {
      assert Alphabet[i] == Run('a', 26)[i];
    } else if i < 52 {
      assert Alphabet[i] == Run('A', 26)[i - 26];
    } else {
      assert Alphabet[i] == Run('0', 10)[i - 52];
    }
  }

  /** The draw that selects `c`. */
  function PickOf(c: char): (i: nat)
    requires Alphanumeric(c)
    ensures i < |Alphabet| && Alphabet[i] == c
  {
    if 'a' <= c <= 'z' then
      var i := c as int - 'a' as int;
      assert Alphabet[i] == Run('a', 26)[i];
      i
    else if 'A' <= c <= 'Z' then
      var i := c as int - 'A' as int;
      assert Alphabet[26 + i] == Run('A', 26)[i];
      26 + i
    else
      var i := c as int - '0' as int;
      assert Alphabet[52 + i] == Run('0', 10)[i];
      52 + i
  }

  /** Every letters-and-digits string of the length asked for is a possible result. */
  lemma {:induction false} EveryPasswordPossible(w: string)
    requires forall i :: 0 <= i < |w| ==> Alphanumeric(w[i])
    ensures var picks := seq(|w|, i requires 0 <= i < |w| => PickOf(w[i]));
      (forall i :: 0 <= i < |picks| ==> picks[i] < |Alphabet|) && GeneratePasswd(picks) == w
  {
    var picks := seq(|w|, i requires 0 <= i < |w| => PickOf(w[i]));
    if w != [] {
      EveryPasswordPossible(w[1..]);
      assert picks[1..] == seq(|w[1..]|, i requires 0 <= i < |w[1..]| => PickOf(w[1..][i]));
    }
  }

  // ---------------------------------------------------------------------------------------
  // Masking
  // ---------------------------------------------------------------------------------------

  /**
   * `random_mask(s)` with the coin flips as a parameter: character `i` is kept when
   * `keep[i]` (the draw of `random.random()` was below 0.5) and becomes `*` otherwise.
   */
  function RandomMask(s: string, keep: seq<bool>): (r: string)
    requires |keep| >= |s|
    ensures |r| == |s|
    ensures forall i :: 0 <= i < |s| ==> r[i] == (if keep[i] then s[i] else '*')
  {
    if s == [] then [] else [if keep[0] then s[0] else '*'] + RandomMask(s[1..], keep[1..])
  }

  /**
   * `re.match(r'(.*?)@(.*)', m)`: the part before the first `@`, when no line break comes
   * first (`.` does not match one), and the rest of that line after the `@`.
   */
  function SplitMail(m: string): (r: Option<(string, string)>)
    ensures r.Some? <==> '@' in m && '\n' !in m[..IndexOf(m, '@')]
    ensures r.Some? ==> var i := IndexOf(m, '@');
      r.value.0 == m[..i] && r.value.1 == FirstLine(m[i + 1..])
  {
    var i := IndexOf(m, '@');
    if i < |m| && '\n' !in m[..i] then Some((m[..i], FirstLine(m[i + 1..]))) else None
  }

  /**
   * `mask_mail_address(m)`: both sides of the `@` masked, the local part with the first
   * flips and the domain with the following ones; an address without a usable `@` is
   * masked whole.
   */
  function MaskMailAddress(m: string, keep: seq<bool>): (r: string)
    requires |keep| >= |m|
    ensures SplitMail(m).None? ==> r == RandomMask(m, keep)
    ensures SplitMail(m).Some? ==> var (a, b) := SplitMail(m).value;
      r == RandomMask(a, keep) + "@" + RandomMask(b, keep[|a|..])
  {
    match SplitMail(m)
    case None => RandomMask(m, keep)
    case Some((a, b)) => RandomMask(a, keep) + "@" + RandomMask(b, keep[|a|..])
  }

  /** The masked address keeps the `@` and every other character is the original or `*`. */
  lemma MaskKeepsShape(m: string, keep: seq<bool>)
    requires |keep| >= |m| && SplitMail(m).Some?
    ensures var r := MaskMailAddress(m, keep); var i := IndexOf(m, '@');
      i < |r| && r[i] == '@' && |r| <= |m| &&
      forall j :: 0 <= j < |r| ==> r[j] == m[j] || r[j] == '*'
  {
    var i := IndexOf(m, '@');
    var a, b := m[..i], FirstLine(m[i + 1..]);
    var r := MaskMailAddress(m, keep);
    var ra, rb := RandomMask(a, keep), RandomMask(b, keep[|a|..]);
    assert r == ra + "@" + rb;
    forall j | 0 <= j < |r| ensures r[j] == m[j] || r[j] == '*' {
      if j > i {
        assert r[j] == rb[j - i - 1];
        assert b[j - i - 1] == m[i + 1..][j - i - 1];
      }
    }
  }

  /** Flips that all keep leave a string as it was. */
  lemma MaskKeepAll(s: string, keep: seq<bool>)
    requires |keep| >= |s| && forall i :: 0 <= i < |keep| ==> keep[i]
    ensures RandomMask(s, keep) == s
  {
  }

  /** With every flip keeping its character, the address comes back up to its first line break. */
  lemma KeepAllUnmasked(m: string, keep: seq<bool>)
    requires |keep| >= |m| && forall i :: 0 <= i < |keep| ==> keep[i]
    ensures SplitMail(m).None? ==> MaskMailAddress(m, keep) == m
    ensures SplitMail(m).Some? ==> MaskMailAddress(m, keep) == FirstLine(m)
  {
    MaskKeepAll(m, keep);
    if SplitMail(m).Some? {
      var a, b := SplitMail(m).value.0, SplitMail(m).value.1;
      MaskKeepAll(a, keep);
      MaskKeepAll(b, keep[|a|..]);
      MailLine(m);
    }
  }

  /** The two parts of a usable address, with the `@` between them, are its first line. */
  lemma MailLine(m: string)
    requires SplitMail(m).Some?
    ensures FirstLine(m) == SplitMail(m).value.0 + "@" + SplitMail(m).value.1
  {
    var i := IndexOf(m, '@');
    var a, rest := m[..i], m[i + 1..];
    var b := FirstLine(rest);
    var line := a + "@" + b;
    assert line == m[..|line|] by {
      assert m == a + "@" + rest;
      assert b == rest[..|b|];
    }
    assert forall j :: 0 <= j < |line| ==> line[j] != '\n' by {
      forall j | 0 <= j < |line| ensures line[j] != '\n' {
        if j < i {
          assert line[j] == a[j];
        } else if j > i {
          assert line[j] == b[j - i - 1];
        }
      }
    }
    if |line| < |m| {
      assert m[|line|] == rest[|b|];
    }
    FirstLineOf(m, |line|);
  }

  /** `FirstLine` ends at the first line break. */
  lemma FirstLineOf(s: string, n: nat)
    requires n <= |s| && (forall j :: 0 <= j < n ==> s[j] != '\n') && (n < |s| ==> s[n] == '\n')
    ensures FirstLine(s) == s[..n]
  {
    var k := IndexOf(s, '\n');
    assert forall j :: 0 <= j < k ==> s[j] != '\n' by {
      forall j | 0 <= j < k ensures s[j] != '\n' {
        assert s[..k][j] == s[j];
      }
    }
    assert k == n;
  }
}
