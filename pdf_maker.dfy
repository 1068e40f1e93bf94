/**
 * Text measurement and line wrapping for the PDF output. Widths are counted in half units:
 * a character whose East Asian width is F, W or A counts 2, any other 1, so a width here is
 * twice `text_width`. A wrapping length enters as `limit`, the largest whole number of half
 * units within it, which is what the comparison `text_width(...) <= length` can tell apart.
 */
module PdfMaker {
  import opened Wrappers
  import opened Text

  // ---------------------------------------------------------------------------------------
  // Widths
  // ---------------------------------------------------------------------------------------

  /** A character's width: `wide` is the test `unicodedata.east_asian_width(c) in ('F', 'W', 'A')`. */
  function CharWidth(c: char, wide: char -> bool): (w: nat)
    ensures w == 1 || w == 2
    ensures w == 2 <==> wide(c)
  {
    if wide(c) then 2 else 1
  }

  /** The width of `s`, character by character from the left. */
  function Width(s: string, wide: char -> bool): nat {
    if s == [] then 0 else Width(s[..|s| - 1], wide) + CharWidth(s[|s| - 1], wide)
  }

  /** Widths add up over concatenation. */
  lemma {:induction false} WidthAppend(a: string, b: string, wide: char -> bool)
    ensures Width(a + b, wide) == Width(a, wide) + Width(b, wide)
    decreases |b|
  {
    if b != [] {
      var ab := a + b;
      assert ab[..|ab| - 1] == a + b[..|b| - 1];
      assert ab[|ab| - 1] == b[|b| - 1];
      WidthAppend(a, b[..|b| - 1], wide);
      assert Width(ab, wide) == Width(ab[..|ab| - 1], wide) + CharWidth(ab[|ab| - 1], wide);
      assert Width(b, wide) == Width(b[..|b| - 1], wide) + CharWidth(b[|b| - 1], wide);
    } else {
      assert a + b == a;
    }
  }

  /** Every character counts one or two half units. */
  lemma {:induction false} WidthBounds(s: string, wide: char -> bool)
    ensures |s| <= Width(s, wide) <= 2 * |s|
  {
    if s != [] {
      WidthBounds(s[..|s| - 1], wide);
    }
  }

  /** `text_width(text)`: the sum over the characters, and 0 for a value that is not a string (`None` here). */
  method TextWidth(text: Option<string>, wide: char -> bool) returns (halves: nat)
    ensures text.None? ==> halves == 0
    ensures text.Some? ==> halves == Width(text.value, wide)
  {
    if text.None? {
      return 0;
    }
    var s := text.value;
    halves := 0;
    for i := 0 to |s|
      invariant halves == Width(s[..i], wide)
    {
      assert s[..i + 1][..i] == s[..i];
      halves := halves + CharWidth(s[i], wide);
    }
    assert s[..|s|] == s;
  }

  // ---------------------------------------------------------------------------------------
  // Breaking into paragraphs
  // ---------------------------------------------------------------------------------------

  predicate IsBreak(c: char) {
    c == '\r' || c == '\n'
  }

  predicate NoBreak(s: string) {
    forall j :: 0 <= j < |s| ==> !IsBreak(s[j])
  }

  /** `re.fullmatch(r'[\r\n]+', s)`. */
  predicate AllBreaks(s: string) {
    s != [] && forall j :: 0 <= j < |s| ==> IsBreak(s[j])
  }

  /** The first line-break character of `s`, or `|s|`. */
  function BreakIndex(s: string): (i: nat)
    ensures i <= |s| && (forall j :: 0 <= j < i ==> !IsBreak(s[j])) && (i < |s| ==> IsBreak(s[i]))
  {
    if s == [] || IsBreak(s[0]) then 0 else 1 + BreakIndex(s[1..])
  }

  /**
   * `re.split(r'(\r\n|\r|\n)', s)`: the paragraphs with the separators between them, a
   * carriage return followed by a line feed being one separator.
   */
  function ReSplit(s: string): (r: seq<string>)
    ensures |r| % 2 == 1
    decreases |s|
  {
    var i := BreakIndex(s);
    if i == |s| then [s]
    else
      var n := SeparatorLength(s, i);
      [s[..i], s[i..i + n]] + ReSplit(s[i + n..])
  }

  /** The length of the separator at a line-break character: 2 for a carriage return and line feed. */
  function SeparatorLength(s: string, i: nat): (n: nat)
    requires i < |s|
    ensures 1 <= n <= 2 && i + n <= |s|
  {
    if s[i] == '\r' && i + 1 < |s| && s[i + 1] == '\n' then 2 else 1
  }

  predicate Separator(p: string) {
    p == "\r\n" || p == "\r" || p == "\n"
  }

  /** Paragraphs without line breaks at the even places, separators at the odd ones. */
  predicate Alternating(r: seq<string>) {
    && (forall k :: 0 <= k < |r| && k % 2 == 0 ==> NoBreak(r[k]))
    && (forall k :: 0 <= k < |r| && k % 2 == 1 ==> Separator(r[k]))
  }

  /** The pieces alternate: paragraphs without line breaks, and separators. */
  lemma {:induction false} ReSplitShape(s: string)
    ensures Alternating(ReSplit(s))
    decreases |s|
  {
    var i := BreakIndex(s);
    if i == |s| {
      assert s[..i] == s;
    } else {
      var n := SeparatorLength(s, i);
      ReSplitShape(s[i + n..]);
      assert NoBreak(s[..i]) by {
        forall j | 0 <= j < i ensures !IsBreak(s[..i][j]) {
          assert s[..i][j] == s[j];
        }
      }
      SeparatorShape(s, i);
      AlternatingCons(s[..i], s[i..i + n], ReSplit(s[i + n..]));
    }
  }

  lemma SeparatorShape(s: string, i: nat)
    requires i < |s| && IsBreak(s[i])
    ensures Separator(s[i..i + SeparatorLength(s, i)])
  {
    if SeparatorLength(s, i) == 2 {
      assert s[i..i + 2] == [s[i], s[i + 1]];
    } else {
      assert s[i..i + 1] == [s[i]];
    }
  }

  /** A paragraph and a separator in front of alternating pieces keep them alternating. */
  lemma AlternatingCons(x: string, y: string, rest: seq<string>)
    requires NoBreak(x) && Separator(y) && Alternating(rest)
    ensures Alternating([x, y] + rest)
  {
    var r := [x, y] + rest;
    forall k | 0 <= k < |r| && k % 2 == 0 ensures NoBreak(r[k]) {
      if k >= 2 {
        assert r[k] == rest[k - 2] && (k - 2) % 2 == 0;
      }
    }
    forall k | 0 <= k < |r| && k % 2 == 1 ensures Separator(r[k]) {
      if k >= 2 {
        assert r[k] == rest[k - 2] && (k - 2) % 2 == 1;
      }
    }
  }

  /** Every piece is a paragraph without line breaks or a separator of line breaks only. */
  lemma ReSplitPieces(s: string)
    ensures forall k :: 0 <= k < |ReSplit(s)| ==> NoBreak(ReSplit(s)[k]) || AllBreaks(ReSplit(s)[k])
  {
    ReSplitShape(s);
  }

  function Concat(ls: seq<string>): string {
    if ls == [] then [] else ls[0] + Concat(ls[1..])
  }

  lemma {:induction false} ConcatAppend(a: seq<string>, b: seq<string>)
    ensures Concat(a + b) == Concat(a) + Concat(b)
  {
    if a != [] {
      assert (a + b)[0] == a[0] && (a + b)[1..] == a[1..] + b;
      ConcatAppend(a[1..], b);
    } else {
      assert a + b == b;
    }
  }

  /** The paragraphs and separators together are the text. */
  lemma {:induction false} ReSplitJoins(s: string)
    ensures Concat(ReSplit(s)) == s
    decreases |s|
  {
    var i := BreakIndex(s);
    if i == |s| {
      assert Concat([s]) == s + Concat([]);
    } else {
      var n := SeparatorLength(s, i);
      var x, y, rest := s[..i], s[i..i + n], ReSplit(s[i + n..]);
      ReSplitJoins(s[i + n..]);
      ConcatAppend([x, y], rest);
      assert Concat([x, y]) == x + Concat([y]);
      assert Concat([y]) == y + Concat([]);
      assert s == x + y + s[i + n..];
    }
  }

  // ---------------------------------------------------------------------------------------
  // One line
  // ---------------------------------------------------------------------------------------

  /** `c in (',', '.', '、', '。', '・')`: the punctuation a line may take past the margin. */
  predicate Punctuation(c: char) {
    c == ',' || c == '.' || c == '、' || c == '。' || c == '・'
  }

  /** How many characters the greedy loop takes from `t` with `room` half units left. */
  function Fit(t: string, room: nat, wide: char -> bool): (n: nat)
    ensures n <= |t|
  {
    if t != [] && CharWidth(t[0], wide) <= room then 1 + Fit(t[1..], room - CharWidth(t[0], wide), wide) else 0
  }

  /**
   * The punctuation loop: the punctuation it moves onto the line, and what is left of `t`;
   * after each mark the whitespace that follows is dropped (`re.sub(r'^\s+', '', t)`).
   */
  function Absorb(t: string): (r: (string, string))
    ensures |r.1| <= |t| && (t != [] && Punctuation(t[0]) ==> |r.1| < |t|)
    ensures forall i :: 0 <= i < |r.0| ==> Punctuation(r.0[i])
    ensures r.1 == [] || !Punctuation(r.1[0])
    decreases |t|
  {
    if t != [] && Punctuation(t[0]) then
      var a := Absorb(LStrip(t[1..]));
      ([t[0]] + a.0, a.1)
    else ([], t)
  }

  /** One turn of the outer loop of `wrap_text` as written: the line it appends and what is left. */
  function Step(t: string, limit: nat, wide: char -> bool): (string, string) {
    var n := Fit(t, limit, wide);
    var a := Absorb(t[n..]);
    (t[..n] + a.0, a.1)
  }

  /**
   * How many characters the corrected turn puts on the line before the punctuation: what
   * fits, and one character when none fits and the punctuation loop would take nothing.
   */
  function Taken(t: string, limit: nat, wide: char -> bool): (n: nat)
    ensures n <= |t|
  {
    var n := Fit(t, limit, wide);
    if n == 0 && t != [] && !Punctuation(t[0]) then 1 else n
  }

  /** One turn of the corrected loop. */
  function IntendedStep(t: string, limit: nat, wide: char -> bool): (r: (string, string))
    requires t != []
    ensures |r.1| < |t|
  {
    var n := Taken(t, limit, wide);
    var a := Absorb(t[n..]);
    (t[..n] + a.0, a.1)
  }

  /** A one-character string is as wide as its character. */
  lemma WidthOne(c: char, wide: char -> bool)
    ensures Width([c], wide) == CharWidth(c, wide)
  {
    assert [c][..0] == [];
  }

  /** The greedy loop stops at the longest prefix that fits. */
  lemma {:induction false} FitMaximal(t: string, room: nat, wide: char -> bool)
    ensures var n := Fit(t, room, wide);
      Width(t[..n], wide) <= room && (n < |t| ==> Width(t[..n + 1], wide) > room)
  {
    var n := Fit(t, room, wide);
    if t != [] {
      var w := CharWidth(t[0], wide);
      WidthOne(t[0], wide);
      if w <= room {
        FitMaximal(t[1..], room - w, wide);
        assert t[..n] == [t[0]] + t[1..][..n - 1];
        WidthAppend([t[0]], t[1..][..n - 1], wide);
        if n < |t| {
          assert t[..n + 1] == [t[0]] + t[1..][..n];
          WidthAppend([t[0]], t[1..][..n], wide);
        }
      } else {
        assert t[..1] == [t[0]];
      }
    }
  }

  /** A string that fits is taken whole. */
  lemma {:induction false} FitAll(t: string, room: nat, wide: char -> bool)
    requires Width(t, wide) <= room
    ensures Fit(t, room, wide) == |t|
  {
    if t != [] {
      assert t == [t[0]] + t[1..];
      WidthAppend([t[0]], t[1..], wide);
      WidthOne(t[0], wide);
      FitAll(t[1..], room - CharWidth(t[0], wide), wide);
    }
  }

  /**
   * A corrected line is the longest prefix that fits, or one character too wide to fit on
   * any line, followed by punctuation only.
   */
  lemma StepShape(t: string, limit: nat, wide: char -> bool)
    requires t != []
    ensures var n := Taken(t, limit, wide); var line := IntendedStep(t, limit, wide).0;
      && n <= |line| && line[..n] == t[..n]
      && (Width(t[..n], wide) <= limit || (n == 1 && CharWidth(t[0], wide) > limit))
      && (n < |t| ==> Width(t[..n + 1], wide) > limit)
      && (n >= 1 || Punctuation(t[0]))
      && forall i :: n <= i < |line| ==> Punctuation(line[i])
  {
    var n := Taken(t, limit, wide);
    var f := Fit(t, limit, wide);
    FitMaximal(t, limit, wide);
    var line := IntendedStep(t, limit, wide).0;
    var a := Absorb(t[n..]);
    assert line == t[..n] + a.0;
    if n != f {
      assert t[..1] == [t[0]];
      WidthOne(t[0], wide);
      if 1 < |t| {
        assert t[..2] == [t[0]] + [t[1]];
        WidthAppend([t[0]], [t[1]], wide);
      }
    }
    forall i | n <= i < |line| ensures Punctuation(line[i]) {
      assert line[i] == a.0[i - n];
    }
  }

  // ---------------------------------------------------------------------------------------
  // The as-written loop stalls
  // ---------------------------------------------------------------------------------------

  /**
   * As written, a turn that meets a character wider than the limit, not punctuation,
   * appends an empty line and leaves `t` as it was, so the loop `while t != ''` never ends.
   */
  lemma StallsAsWritten(t: string, limit: nat, wide: char -> bool)
    requires t != [] && CharWidth(t[0], wide) > limit && !Punctuation(t[0])
    ensures Step(t, limit, wide) == ("", t)
  {
    assert t[0..] == t;
    assert t[..0] + Absorb(t).0 == "";
  }

  /** Half a full-width character's room (a `length` from 0.5 up to 1.0) stalls on a full-width character. */
  lemma StallsOnWideCharacter()
    ensures Step("漢字", 1, c => c == '漢' || c == '字') == ("", "漢字")
  {
    StallsAsWritten("漢字", 1, c => c == '漢' || c == '字');
  }

  /** Whenever the written turn makes progress, the corrected one does the same thing. */
  lemma IntendedAgrees(t: string, limit: nat, wide: char -> bool)
    requires t != [] && Step(t, limit, wide).1 != t
    ensures IntendedStep(t, limit, wide) == Step(t, limit, wide)
  {
    assert Fit(t, limit, wide) == 0 && !Punctuation(t[0]) ==> Step(t, limit, wide).1 == t by {
      assert t[0..] == t;
    }
  }

  /** With a `length` of at least 1.0 (two half units) every turn takes a character, so as written it ends. */
  lemma WideLimitProgresses(t: string, limit: nat, wide: char -> bool)
    requires t != [] && limit >= 2
    ensures IntendedStep(t, limit, wide) == Step(t, limit, wide)
    ensures |Step(t, limit, wide).1| < |t|
  {
    assert Fit(t, limit, wide) >= 1;
  }

  // ---------------------------------------------------------------------------------------
  // Whole paragraphs and texts
  // ---------------------------------------------------------------------------------------

  /** The lines the corrected loop makes of a non-empty paragraph. */
  function Lines(t: string, limit: nat, wide: char -> bool): seq<string>
    decreases |t|
  {
    if t == [] then [] else
      var s := IntendedStep(t, limit, wide);
      [s.0] + Lines(s.1, limit, wide)
  }

  /** The lines one piece of `re.split` contributes: none for a separator, one empty line for an empty paragraph. */
  function PieceLines(p: string, limit: nat, wide: char -> bool): seq<string> {
    if AllBreaks(p) then [] else if p == [] then [""] else Lines(p, limit, wide)
  }

  function WrapPieces(ps: seq<string>, limit: nat, wide: char -> bool): seq<string> {
    if ps == [] then [] else WrapPieces(ps[..|ps| - 1], limit, wide) + PieceLines(ps[|ps| - 1], limit, wide)
  }

  /** `wrap_text(text, length)`, with a turn that always takes a character. */
  function Wrap(text: string, limit: nat, wide: char -> bool): seq<string> {
    WrapPieces(ReSplit(text), limit, wide)
  }

  /** One turn of the corrected outer loop of `wrap_text`: the line it appends and what is left of `t`. */
  method NextLine(t: string, limit: nat, wide: char -> bool) returns (line: string, rest: string)
    requires t != ""
    ensures (line, rest) == IntendedStep(t, limit, wide)
  {
    line, rest := "", t;
    while rest != "" && Width(line + [rest[0]], wide) <= limit
      invariant |line| <= |t| && line == t[..|line|] && rest == t[|line|..]
      invariant Width(line, wide) <= limit
      invariant Fit(t, limit, wide) == |line| + Fit(rest, limit - Width(line, wide), wide)
      decreases |rest|
    {
      WidthAppend(line, [rest[0]], wide);
      WidthOne(rest[0], wide);
      line := line + [rest[0]];
      rest := rest[1..];
    }
    if rest != "" {
      WidthAppend(line, [rest[0]], wide);
      WidthOne(rest[0], wide);
    }
    // the correction: a character too wide for any line goes on a line of its own
    if line == "" && rest != "" && !Punctuation(rest[0]) {
      line := [rest[0]];
      rest := rest[1..];
    }
    ghost var n := Taken(t, limit, wide);
    assert line == t[..n] && rest == t[n..];
    line, rest := TakePunctuation(line, rest);
  }

  /** The punctuation loop of `wrap_text`: moves punctuation from `rest` onto `line`, dropping the whitespace after each mark. */
  method TakePunctuation(line0: string, rest0: string) returns (line: string, rest: string)
    ensures line == line0 + Absorb(rest0).0 && rest == Absorb(rest0).1
  {
    line, rest := line0, rest0;
    while rest != "" && Punctuation(rest[0])
      invariant line + Absorb(rest).0 == line0 + Absorb(rest0).0 && Absorb(rest).1 == Absorb(rest0).1
      decreases |rest|
    {
      assert line + Absorb(rest).0 == line + [rest[0]] + Absorb(LStrip(rest[1..])).0;
      line := line + [rest[0]];
      rest := LStrip(rest[1..]);
    }
    assert Absorb(rest) == ([], rest);
  }

  /**
   * `wrap_text(text, length)`, corrected to put at least one character on each line (as
   * written it loops forever when a character is wider than the length).
   */
  method WrapText(text: string, limit: nat, wide: char -> bool) returns (lines: seq<string>)
    ensures lines == Wrap(text, limit, wide)
  {
    var pieces := ReSplit(text);
    lines := [];
    for k := 0 to |pieces|
      invariant lines == WrapPieces(pieces[..k], limit, wide)
    {
      assert pieces[..k + 1][..k] == pieces[..k];
      var t := pieces[k];
      if AllBreaks(t) {
      } else if t == "" {
        lines := lines + [""];
      } else {
        ghost var whole, before := t, lines;
        while t != ""
          invariant lines + Lines(t, limit, wide) == before + Lines(whole, limit, wide)
          decreases |t|
        {
          ghost var t0 := t;
          var line;
          line, t := NextLine(t, limit, wide);
          assert Lines(t0, limit, wide) == [line] + Lines(t, limit, wide);
          Associates(lines, [line], Lines(t, limit, wide));
          lines := lines + [line];
        }
        assert lines + [] == lines;
      }
    }
    assert pieces[..|pieces|] == pieces;
  }

  // ---------------------------------------------------------------------------------------
  // What the lines keep of the text
  // ---------------------------------------------------------------------------------------

  /** `o` is `t` with some of its whitespace characters left out. */
  predicate Thinned(o: string, t: string)
    decreases |t|
  {
    if t == [] then o == []
    else (o != [] && o[0] == t[0] && Thinned(o[1..], t[1..])) || (IsSpace(t[0]) && Thinned(o, t[1..]))
  }

  lemma {:induction false} ThinnedSelf(t: string)
    ensures Thinned(t, t)
  {
    if t != [] {
      ThinnedSelf(t[1..]);
    }
  }

  lemma {:induction false} ThinnedAppend(o1: string, t1: string, o2: string, t2: string)
    requires Thinned(o1, t1) && Thinned(o2, t2)
    ensures Thinned(o1 + o2, t1 + t2)
    decreases |t1|
  {
    if t1 == [] {
      assert o1 + o2 == o2 && t1 + t2 == t2;
    } else {
      assert (t1 + t2)[0] == t1[0] && (t1 + t2)[1..] == t1[1..] + t2;
      if o1 != [] && o1[0] == t1[0] && Thinned(o1[1..], t1[1..]) {
        ThinnedAppend(o1[1..], t1[1..], o2, t2);
        assert (o1 + o2)[1..] == o1[1..] + o2;
      } else {
        ThinnedAppend(o1, t1[1..], o2, t2);
      }
    }
  }

  lemma ThinnedSplit(o1: string, o2: string, t: string, n: nat)
    requires n <= |t| && Thinned(o1, t[..n]) && Thinned(o2, t[n..])
    ensures Thinned(o1 + o2, t)
  {
    ThinnedAppend(o1, t[..n], o2, t[n..]);
    assert t[..n] + t[n..] == t;
  }

  /** Dropping a run of whitespace thins. */
  lemma {:induction false} ThinnedSpaces(o: string, s: string, t: string)
    requires AllSpace(s) && Thinned(o, t)
    ensures Thinned(o, s + t)
    decreases |s|
  {
    if s != [] {
      ThinnedSpaces(o, s[1..], t);
      assert (s + t)[0] == s[0] && IsSpace(s[0]);
      assert (s + t)[1..] == s[1..] + t;
    } else {
      assert s + t == t;
    }
  }

  lemma ThinnedCons(o: string, t: string)
    requires t != [] && Thinned(o, t[1..])
    ensures Thinned([t[0]] + o, t)
  {
    assert ([t[0]] + o)[1..] == o;
  }

  /** Dropping leading whitespace thins. */
  lemma LStripThins(o: string, s: string)
    requires Thinned(o, LStrip(s))
    ensures Thinned(o, s)
  {
    var k := |s| - |LStrip(s)|;
    assert s == s[..k] + LStrip(s);
    ThinnedSpaces(o, s[..k], LStrip(s));
  }

  /** Keeping a leading mark and dropping the whitespace after it thins. */
  lemma MarkThins(u: string, o: string)
    requires u != [] && Thinned(o, LStrip(u[1..]))
    ensures Thinned([u[0]] + o, u)
  {
    LStripThins(o, u[1..]);
    ThinnedCons(o, u);
  }

  /** The punctuation loop keeps the characters it passes, except the whitespace it drops. */
  lemma {:induction false} AbsorbThins(u: string, x: string)
    requires Thinned(x, Absorb(u).1)
    ensures Thinned(Absorb(u).0 + x, u)
    decreases |u|
  {
    if u != [] && Punctuation(u[0]) {
      var v := LStrip(u[1..]);
      AbsorbThins(v, x);
      AbsorbMarkThins(u, v, x);
    } else {
      AbsorbNothing(u, x);
    }
  }

  /** At a mark the loop takes it, drops the whitespace after it and goes on, keeping what it passes. */
  lemma AbsorbMarkThins(u: string, v: string, x: string)
    requires u != [] && Punctuation(u[0]) && v == LStrip(u[1..]) && Thinned(Absorb(v).0 + x, v)
    ensures Thinned(Absorb(u).0 + x, u)
  {
    var a := Absorb(v).0;
    assert Absorb(u).0 == [u[0]] + a;
    MarkThins(u, a + x);
    Associates([u[0]], a, x);
  }

  /** Without a leading mark the loop takes nothing. */
  lemma AbsorbNothing(u: string, x: string)
    requires !(u != [] && Punctuation(u[0])) && Thinned(x, Absorb(u).1)
    ensures Thinned(Absorb(u).0 + x, u)
  {
    assert Absorb(u) == ([], u);
    assert Absorb(u).0 + x == x;
  }

  /** Joined, the lines of a paragraph are the paragraph less some whitespace after punctuation. */
  lemma {:induction false} LinesThin(t: string, limit: nat, wide: char -> bool)
    ensures Thinned(Concat(Lines(t, limit, wide)), t)
    decreases |t|
  {
    if t != [] {
      var s := IntendedStep(t, limit, wide);
      var rest := Concat(Lines(s.1, limit, wide));
      LinesThin(s.1, limit, wide);
      StepThins(t, limit, wide, rest);
      ConcatCons(s.0, Lines(s.1, limit, wide));
    }
  }

  /** One line followed by what thins the rest of the paragraph thins the paragraph. */
  lemma StepThins(t: string, limit: nat, wide: char -> bool, rest: string)
    requires t != [] && Thinned(rest, IntendedStep(t, limit, wide).1)
    ensures Thinned(IntendedStep(t, limit, wide).0 + rest, t)
  {
    var n := Taken(t, limit, wide);
    var head, a := t[..n], Absorb(t[n..]).0;
    AbsorbThins(t[n..], rest);
    ThinnedSelf(head);
    ThinnedSplit(head, a + rest, t, n);
    assert IntendedStep(t, limit, wide).0 == head + a;
    Associates(head, a, rest);
  }

  lemma ConcatCons(x: string, ls: seq<string>)
    ensures Concat([x] + ls) == x + Concat(ls)
  {
    assert ([x] + ls)[1..] == ls;
  }

  /** The character at `i` is punctuation and the one after it whitespace. */
  predicate SpaceAfterPunctuation(t: string, i: int) {
    0 <= i && i + 1 < |t| && Punctuation(t[i]) && IsSpace(t[i + 1])
  }

  /** No punctuation mark of `t` is followed by whitespace. */
  ghost predicate Tight(t: string) {
    forall i :: !SpaceAfterPunctuation(t, i)
  }

  /** A suffix of a tight string is tight. */
  lemma TightSuffix(t: string, n: nat)
    requires n <= |t| && Tight(t)
    ensures Tight(t[n..])
  {
    forall i ensures !SpaceAfterPunctuation(t[n..], i) {
      assert !SpaceAfterPunctuation(t, i + n);
    }
  }

  /** In a tight string, the punctuation loop strips nothing after a leading mark. */
  lemma TightStripsNothing(u: string)
    requires u != [] && Punctuation(u[0]) && Tight(u)
    ensures LStrip(u[1..]) == u[1..] && Tight(u[1..])
  {
    if |u| > 1 {
      assert !SpaceAfterPunctuation(u, 0);
    }
    TightSuffix(u, 1);
  }

  lemma {:induction false} AbsorbExact(u: string)
    requires Tight(u)
    ensures Absorb(u).0 + Absorb(u).1 == u && Tight(Absorb(u).1)
    decreases |u|
  {
    if u != [] && Punctuation(u[0]) {
      TightStripsNothing(u);
      AbsorbExact(u[1..]);
      ConsJoin(u, Absorb(u[1..]).0, Absorb(u[1..]).1);
    }
  }

  lemma SplitJoin(t: string, n: nat, a: string, b: string)
    requires n <= |t| && a + b == t[n..]
    ensures (t[..n] + a) + b == t
  {
    assert (t[..n] + a) + b == t[..n] + (a + b);
    assert t[..n] + t[n..] == t;
  }

  lemma ConsJoin(u: string, a: string, b: string)
    requires u != [] && a + b == u[1..]
    ensures ([u[0]] + a) + b == u
  {
    assert ([u[0]] + a) + b == [u[0]] + (a + b);
  }

  /** Without whitespace after punctuation, the lines of a paragraph join back into it exactly. */
  lemma {:induction false} LinesExact(t: string, limit: nat, wide: char -> bool)
    requires Tight(t)
    ensures Concat(Lines(t, limit, wide)) == t
    decreases |t|
  {
    if t != [] {
      var n := Taken(t, limit, wide);
      var s := IntendedStep(t, limit, wide);
      TightSuffix(t, n);
      AbsorbExact(t[n..]);
      LinesExact(s.1, limit, wide);
      assert Concat(Lines(t, limit, wide)) == s.0 + s.1;
      SplitJoin(t, n, Absorb(t[n..]).0, s.1);
    }
  }

  /** The punctuation loop passes no line break on that was not in its input. */
  lemma {:induction false} AbsorbNoBreak(u: string)
    requires NoBreak(u)
    ensures NoBreak(Absorb(u).0) && NoBreak(Absorb(u).1)
    decreases |u|
  {
    if u != [] && Punctuation(u[0]) {
      var s := u[1..];
      NoBreakSuffix(u, 1);
      NoBreakSuffix(s, |s| - |LStrip(s)|);
      AbsorbNoBreak(LStrip(s));
      NoBreakConcat([u[0]], Absorb(LStrip(s)).0);
    }
  }

  lemma NoBreakSuffix(s: string, k: nat)
    requires NoBreak(s) && k <= |s|
    ensures NoBreak(s[k..]) && NoBreak(s[..k])
  {
    assert forall j :: 0 <= j < |s| - k ==> s[k..][j] == s[k + j];
    assert forall j :: 0 <= j < k ==> s[..k][j] == s[j];
  }

  lemma NoBreakConcat(a: string, b: string)
    requires NoBreak(a) && NoBreak(b)
    ensures NoBreak(a + b)
  {
    assert forall j :: |a| <= j < |a + b| ==> (a + b)[j] == b[j - |a|];
  }

  lemma EachNoBreakCons(x: string, ls: seq<string>)
    requires NoBreak(x) && forall i :: 0 <= i < |ls| ==> NoBreak(ls[i])
    ensures forall i :: 0 <= i < |[x] + ls| ==> NoBreak(([x] + ls)[i])
  {
    forall i | 0 <= i < |[x] + ls| ensures NoBreak(([x] + ls)[i]) {
      if i > 0 {
        assert ([x] + ls)[i] == ls[i - 1];
      }
    }
  }

  lemma {:induction false} LinesNoBreak(t: string, limit: nat, wide: char -> bool)
    requires NoBreak(t)
    ensures forall i :: 0 <= i < |Lines(t, limit, wide)| ==> NoBreak(Lines(t, limit, wide)[i])
    decreases |t|
  {
    if t != [] {
      var n := Taken(t, limit, wide);
      var s := IntendedStep(t, limit, wide);
      NoBreakSuffix(t, n);
      AbsorbNoBreak(t[n..]);
      NoBreakConcat(t[..n], Absorb(t[n..]).0);
      LinesNoBreak(s.1, limit, wide);
      EachNoBreakCons(s.0, Lines(s.1, limit, wide));
    }
  }

  /** No line `wrap_text` returns holds a carriage return or a line feed. */
  lemma {:induction false} WrapNoBreak(text: string, limit: nat, wide: char -> bool)
    ensures forall i :: 0 <= i < |Wrap(text, limit, wide)| ==> NoBreak(Wrap(text, limit, wide)[i])
  {
    ReSplitPieces(text);
    PiecesNoBreak(ReSplit(text), limit, wide);
  }

  lemma {:induction false} PiecesNoBreak(ps: seq<string>, limit: nat, wide: char -> bool)
    requires forall k :: 0 <= k < |ps| ==> NoBreak(ps[k]) || AllBreaks(ps[k])
    ensures forall i :: 0 <= i < |WrapPieces(ps, limit, wide)| ==> NoBreak(WrapPieces(ps, limit, wide)[i])
  {
    if ps != [] {
      var p := ps[|ps| - 1];
      PiecesNoBreak(ps[..|ps| - 1], limit, wide);
      if !AllBreaks(p) && p != [] {
        LinesNoBreak(p, limit, wide);
      }
    }
  }

  /** A paragraph without line breaks that fits the length comes back as the one line. */
  lemma FitsOneLine(t: string, limit: nat, wide: char -> bool)
    requires t != [] && NoBreak(t) && Width(t, wide) <= limit
    ensures Wrap(t, limit, wide) == [t]
  {
    FitAll(t, limit, wide);
    assert ReSplit(t) == [t];
    assert !AllBreaks(t) by {
      assert !IsBreak(t[0]);
    }
    assert t[..|t|] == t && t[|t|..] == [];
    assert Taken(t, limit, wide) == |t|;
    assert Absorb(t[|t|..]) == ([], []);
    var r := IntendedStep(t, limit, wide);
    assert r.0 == t[..|t|] + [] && r.1 == [];
    assert r.0 == t;
    assert Lines(r.1, limit, wide) == [];
    assert Lines(t, limit, wide) == [r.0] + Lines(r.1, limit, wide);
    assert WrapPieces([t], limit, wide) == WrapPieces([], limit, wide) + PieceLines(t, limit, wide);
  }

  /** An empty text is one empty line. */
  lemma EmptyTextKept(limit: nat, wide: char -> bool)
    ensures Wrap("", limit, wide) == [""]
  {
    assert ReSplit("") == [""];
    assert WrapPieces([""], limit, wide) == WrapPieces([], limit, wide) + PieceLines("", limit, wide);
  }

  /** Two line feeds split into three empty paragraphs and two separators. */
  lemma SplitTwoLineFeeds()
    ensures ReSplit("\n\n") == ["", "\n", "", "\n", ""]
  {
    var one, two := "\n", "\n\n";
    assert BreakIndex(one) == 0 && BreakIndex(two) == 0;
    assert SeparatorLength(one, 0) == 1 && SeparatorLength(two, 0) == 1;
    assert one[..0] == "" && one[0..1] == one && one[1..] == "";
    assert ReSplit("") == [""];
    assert ReSplit(one) == ["", "\n"] + ReSplit("");
    assert two[..0] == "" && two[0..1] == one && two[1..] == one;
    assert ReSplit(two) == ["", "\n"] + ReSplit(one);
  }

  lemma WrapPiecesSnoc(ps: seq<string>, p: string, limit: nat, wide: char -> bool)
    ensures WrapPieces(ps + [p], limit, wide) == WrapPieces(ps, limit, wide) + PieceLines(p, limit, wide)
  {
    assert (ps + [p])[..|ps|] == ps;
  }

  /** An empty paragraph between two line breaks is kept as an empty line, and so are the two at the ends. */
  lemma EmptyParagraphKept(limit: nat, wide: char -> bool)
    ensures Wrap("\n\n", limit, wide) == ["", "", ""]
  {
    SplitTwoLineFeeds();
    FivePiecesWrap(limit, wide);
  }

  /** The pieces of two line feeds make three empty lines. */
  lemma FivePiecesWrap(limit: nat, wide: char -> bool)
    ensures WrapPieces(["", "\n", "", "\n", ""], limit, wide) == ["", "", ""]
  {
    assert AllBreaks("\n") by {
      assert IsBreak("\n"[0]);
    }
    var e, b := PieceLines("", limit, wide), PieceLines("\n", limit, wide);
    assert e == [""] && b == [];
    var p1 := [""];
    var p2 := p1 + ["\n"];
    var p3 := p2 + [""];
    var p4 := p3 + ["\n"];
    WrapPiecesSnoc([], "", limit, wide);
    WrapPiecesSnoc(p1, "\n", limit, wide);
    WrapPiecesSnoc(p2, "", limit, wide);
    WrapPiecesSnoc(p3, "\n", limit, wide);
    WrapPiecesSnoc(p4, "", limit, wide);
    assert [] + [""] == p1;
    assert p4 + [""] == ["", "\n", "", "\n", ""];
  }
}
