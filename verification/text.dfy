/** The pieces of Python's `str` that the bot relies on: stripping, lower-casing,
    splitting, joining, `splitlines()`, `int()` and `str()` of integers. */
module Text {
  import opened Wrappers
  import Seqs

  // ---------------------------------------------------------------- characters

  /** Python's `str.isspace()`: the characters `strip()` removes and `\s` matches. */
  predicate IsSpace(c: char) {
    c == ' ' || ('\t' <= c <= '\r') || ('\U{1C}' <= c <= '\U{1F}') || c == '\U{85}' || c == '\U{A0}'
    || c == '\U{1680}' || ('\U{2000}' <= c <= '\U{200A}') || c == '\U{2028}' || c == '\U{2029}'
    || c == '\U{202F}' || c == '\U{205F}' || c == '\U{3000}'
  }

  predicate IsDigit(c: char) { '0' <= c <= '9' }

  /**
   * `str.isalnum()` restricted to ASCII letters and digits and the letters of the Cyrillic block
   * U+0400..U+04FF, which are all of it except the sign U+0482 and the combining marks U+0483..U+0489.
   */
  predicate IsAlnum(c: char) {
    IsDigit(c) || ('a' <= c <= 'z') || ('A' <= c <= 'Z')
    || ('\U{400}' <= c <= '\U{481}') || ('\U{48A}' <= c <= '\U{4FF}')
  }

  /** The line boundaries of Python's `str.splitlines()` (`\r\n` counts as one). */
  predicate IsLineBreak(c: char) {
    c == '\n' || c == '\r' || c == '\U{B}' || c == '\U{C}' || ('\U{1C}' <= c <= '\U{1E}')
    || c == '\U{85}' || c == '\U{2028}' || c == '\U{2029}'
  }

  /** `str.lower()` on ASCII letters and on the upper-case Cyrillic letters (Ѐ..Џ and А..Я). */
  function LowerChar(c: char): (r: char)
    ensures IsSpace(r) <==> IsSpace(c)
    ensures r == ':' <==> c == ':'
    ensures IsLineBreak(r) <==> IsLineBreak(c)
  {
    if 'A' <= c <= 'Z' then (c as int + 32) as char
    else if '\U{410}' <= c <= '\U{42F}' then (c as int + 32) as char
    else if '\U{400}' <= c <= '\U{40F}' then (c as int + 80) as char
    else c
  }

  lemma LowerCharIdempotent(c: char)
    ensures LowerChar(LowerChar(c)) == LowerChar(c)
  {
  }

  // ---------------------------------------------------------------- strip / lower

  /** `str.lstrip()`. */
  function LStrip(s: string): string {
    if |s| > 0 && IsSpace(s[0]) then LStrip(s[1..]) else s
  }

  /** `str.rstrip()`. */
  function RStrip(s: string): string {
    if |s| > 0 && IsSpace(s[|s| - 1]) then RStrip(s[..|s| - 1]) else s
  }

  /** `lstrip()` removes exactly the leading white space. */
  lemma {:induction false} LStripShape(s: string)
    ensures |LStrip(s)| <= |s| && LStrip(s) == s[|s| - |LStrip(s)|..]
    ensures LStrip(s) == [] || !IsSpace(LStrip(s)[0])
    ensures forall i | 0 <= i < |s| - |LStrip(s)| :: IsSpace(s[i])
    decreases |s|
  {
    if |s| > 0 && IsSpace(s[0]) {
      LStripShape(s[1..]);
      forall i | 0 <= i < |s| - |LStrip(s)| ensures IsSpace(s[i]) {
        if i > 0 {
          assert s[i] == s[1..][i - 1];
        }
      }
    }
  }

  /** `rstrip()` removes exactly the trailing white space. */
  lemma {:induction false} RStripShape(s: string)
    ensures |RStrip(s)| <= |s| && RStrip(s) == s[..|RStrip(s)|]
    ensures RStrip(s) == [] || !IsSpace(RStrip(s)[|RStrip(s)| - 1])
    ensures forall i | |RStrip(s)| <= i < |s| :: IsSpace(s[i])
    decreases |s|
  {
    if |s| > 0 && IsSpace(s[|s| - 1]) {
      RStripShape(s[..|s| - 1]);
      forall i | |RStrip(s)| <= i < |s| ensures IsSpace(s[i]) {
        if i < |s| - 1 {
          assert s[i] == s[..|s| - 1][i];
        }
      }
    }
  }

  /** `str.strip()`. */
  function Strip(s: string): string {
    RStrip(LStrip(s))
  }

  /** A string that `strip()` leaves as it is. */
  predicate Trimmed(s: string) {
    s == [] || (!IsSpace(s[0]) && !IsSpace(s[|s| - 1]))
  }

  lemma StripShape(s: string)
    ensures Trimmed(Strip(s))
    ensures exists i, j | 0 <= i <= j <= |s| :: Strip(s) == s[i..j]
    ensures Strip(s) == [] <==> forall i | 0 <= i < |s| :: IsSpace(s[i])
  {
    var l := LStrip(s);
    var r := RStrip(l);
    LStripShape(s);
    RStripShape(l);
    var i := |s| - |l|;
    assert r == s[i..i + |r|] by {
      assert r == l[..|r|] && l == s[i..];
    }
    assert Strip(s) == r;
    if r != [] {
      assert r[0] == l[0] == s[i];
      assert !IsSpace(s[i]);
    } else {
      assert l == [];
    }
  }

  /** Stripping a string that has no white space at either end changes nothing. */
  lemma StripTrimmed(s: string)
    requires Trimmed(s)
    ensures Strip(s) == s
  {
  }

  lemma StripIdempotent(s: string)
    ensures Strip(Strip(s)) == Strip(s)
  {
    StripShape(s);
    StripTrimmed(Strip(s));
  }

  /** `str.lower()` (see LowerChar for the letters covered). */
  function Lower(s: string): (r: string)
    ensures |r| == |s| && forall i | 0 <= i < |s| :: r[i] == LowerChar(s[i])
  {
    if s == [] then [] else [LowerChar(s[0])] + Lower(s[1..])
  }

  /** Lower-casing a text whose characters are already lower case changes nothing. */
  lemma LowerFixed(s: string)
    requires forall i | 0 <= i < |s| :: LowerChar(s[i]) == s[i]
    ensures Lower(s) == s
  {
  }

  /** `re.sub(r"\s+", "", s)`: the non-space characters of `s`, in order. */
  function RemoveSpaces(s: string): (r: string)
    ensures forall c | c in r :: !IsSpace(c) && c in s
    ensures forall c | c in s && !IsSpace(c) :: c in r
  {
    if s == [] then [] else (if IsSpace(s[0]) then [] else [s[0]]) + RemoveSpaces(s[1..])
  }

  lemma {:induction false} RemoveSpacesNone(s: string)
    requires forall i | 0 <= i < |s| :: !IsSpace(s[i])
    ensures RemoveSpaces(s) == s
    decreases |s|
  {
    if s != [] {
      RemoveSpacesNone(s[1..]);
      assert s == [s[0]] + s[1..];
    }
  }

  // ---------------------------------------------------------------- splitting and joining

  /** `s.split(sep)` for a one-character separator: never empty, one part per separator plus one. */
  function SplitOn(s: string, sep: char): (r: seq<string>)
    ensures |r| >= 1
    ensures forall k | 0 <= k < |r| :: sep !in r[k]
  {
    if s == [] then [""]
    else
      var rest := SplitOn(s[1..], sep);
      if s[0] == sep then [""] + rest else [[s[0]] + rest[0]] + rest[1..]
  }

  /** `sep.join(parts)` for a one-character separator. */
  function Join(parts: seq<string>, sep: char): string {
    if |parts| == 0 then ""
    else if |parts| == 1 then parts[0]
    else parts[0] + [sep] + Join(parts[1..], sep)
  }

  lemma {:induction false} JoinCons(p: string, parts: seq<string>, sep: char)
    requires |parts| >= 1
    ensures Join([p] + parts, sep) == p + [sep] + Join(parts, sep)
  {
    assert ([p] + parts)[1..] == parts;
  }

  lemma {:induction false} JoinAppend(parts: seq<string>, more: seq<string>, sep: char)
    requires |parts| >= 1 && |more| >= 1
    ensures Join(parts + more, sep) == Join(parts, sep) + [sep] + Join(more, sep)
    decreases |parts|
  {
    if |parts| == 1 {
      JoinCons(parts[0], more, sep);
      assert parts + more == [parts[0]] + more;
    } else {
      assert parts + more == [parts[0]] + (parts[1..] + more);
      JoinCons(parts[0], parts[1..] + more, sep);
      JoinAppend(parts[1..], more, sep);
      JoinCons(parts[0], parts[1..], sep);
      assert [parts[0]] + parts[1..] == parts;
    }
  }

  /** Splitting what `Join` produced gives the parts back, provided no part holds the separator. */
  lemma {:induction false} SplitJoin(parts: seq<string>, sep: char)
    requires |parts| >= 1
    requires forall k | 0 <= k < |parts| :: sep !in parts[k]
    ensures SplitOn(Join(parts, sep), sep) == parts
    decreases |parts|
  {
    if |parts| == 1 {
      SplitNoSep(parts[0], sep);
    } else {
      SplitJoin(parts[1..], sep);
      SplitPrefix(parts[0], Join(parts[1..], sep), sep);
      assert [parts[0]] + parts[1..] == parts;
    }
  }

  /** A string without the separator splits into itself alone. */
  lemma {:induction false} SplitNoSep(s: string, sep: char)
    requires sep !in s
    ensures SplitOn(s, sep) == [s]
    decreases |s|
  {
    if s != [] {
      SplitNoSep(s[1..], sep);
      assert [s[0]] + s[1..] == s;
    }
  }

  /** A separator-free prefix followed by the separator becomes the first part. */
  lemma {:induction false} SplitPrefix(p: string, rest: string, sep: char)
    requires sep !in p
    ensures SplitOn(p + [sep] + rest, sep) == [p] + SplitOn(rest, sep)
    decreases |p|
  {
    if p == [] {
      assert p + [sep] + rest == [sep] + rest;
      assert ([sep] + rest)[1..] == rest;
    } else {
      var s := p + [sep] + rest;
      assert s[0] == p[0] && s[1..] == p[1..] + [sep] + rest;
      SplitPrefix(p[1..], rest, sep);
      assert [p[0]] + p[1..] == p;
    }
  }

  /** Joining what `SplitOn` produced restores the string. */
  lemma {:induction false} JoinSplit(s: string, sep: char)
    ensures Join(SplitOn(s, sep), sep) == s
    decreases |s|
  {
    if s != [] {
      JoinSplit(s[1..], sep);
      var rest := SplitOn(s[1..], sep);
      if s[0] == sep {
        JoinCons("", rest, sep);
      } else if |rest| == 1 {
      } else {
        JoinCons(rest[0], rest[1..], sep);
        assert [rest[0]] + rest[1..] == rest;
        JoinCons([s[0]] + rest[0], rest[1..], sep);
      }
    }
  }

  /** The first index of `c` in `s`. */
  function Find(s: string, c: char): (i: nat)
    requires c in s
    ensures i < |s| && s[i] == c && c !in s[..i]
  {
    if s[0] == c then 0 else 1 + Find(s[1..], c)
  }

  /** `Find` is the only index holding `c` with no earlier `c`. */
  lemma FindUnique(s: string, c: char, j: nat)
    requires j < |s| && s[j] == c && c !in s[..j]
    ensures Find(s, c) == j
  {
  }

  /** Index of the first line boundary of `s`, or `|s|` when there is none. */
  function BreakIndex(s: string): (i: nat)
    ensures i <= |s|
    ensures i < |s| ==> IsLineBreak(s[i])
    ensures forall j | 0 <= j < i :: !IsLineBreak(s[j])
  {
    if s == [] then 0 else if IsLineBreak(s[0]) then 0 else 1 + BreakIndex(s[1..])
  }

  /** A text without line boundaries. */
  predicate NoBreaks(s: string) {
    forall j | 0 <= j < |s| :: !IsLineBreak(s[j])
  }

  /** Python's `str.splitlines()`: no trailing empty line, `\r\n` is one boundary, "" has no lines. */
  function SplitLines(s: string): (r: seq<string>)
    ensures forall k | 0 <= k < |r| :: NoBreaks(r[k])
    decreases |s|
  {
    var i := BreakIndex(s);
    if i == |s| then (if s == [] then [] else [s])
    else
      [s[..i]] + SplitLines(s[LineEnd(s, i)..])
  }

  /** Where the next line starts after the boundary at `i`: `\r\n` counts as one. */
  function LineEnd(s: string, i: nat): (next: nat)
    requires i < |s|
    ensures i < next <= |s|
  {
    if s[i] == '\r' && i + 1 < |s| && s[i + 1] == '\n' then i + 2 else i + 1
  }

  /** A text whose only line boundaries are `\n`. */
  predicate OnlyNewlineBreaks(s: string) {
    forall k | 0 <= k < |s| :: IsLineBreak(s[k]) ==> s[k] == '\n'
  }

  /** For a non-empty text whose only boundaries are `\n` and that does not end in one,
      `"\n".join(s.splitlines()) == s`. */
  lemma {:induction false} JoinSplitLines(s: string)
    requires s != [] && s[|s| - 1] != '\n'
    requires OnlyNewlineBreaks(s)
    ensures |SplitLines(s)| >= 1
    ensures Join(SplitLines(s), '\n') == s
    decreases |s|
  {
    var i := BreakIndex(s);
    if i < |s| {
      var rest := s[i + 1..];
      NewlineSplit(s, i);
      JoinSplitLines(rest);
      JoinCons(s[..i], SplitLines(rest), '\n');
    } else {
      SplitLinesWhole(s);
    }
  }

  /** Cutting a text at its first boundary, a `\n`. */
  lemma NewlineSplit(s: string, i: nat)
    requires s != [] && s[|s| - 1] != '\n' && OnlyNewlineBreaks(s)
    requires i == BreakIndex(s) && i < |s|
    ensures s[i + 1..] != [] && s[|s| - 1] == s[i + 1..][|s[i + 1..]| - 1]
    ensures OnlyNewlineBreaks(s[i + 1..])
    ensures s == s[..i] + ['\n'] + s[i + 1..]
    ensures SplitLines(s) == [s[..i]] + SplitLines(s[i + 1..])
  {
    assert s[i] == '\n';
    var rest := s[i + 1..];
    assert rest != [] by { assert i != |s| - 1; }
    assert s[..i + 1] == s[..i] + ['\n'];
    assert s == s[..i + 1] + rest;
    forall k | 0 <= k < |rest| ensures IsLineBreak(rest[k]) ==> rest[k] == '\n' {
      assert rest[k] == s[i + 1 + k];
    }
    SplitLinesAtNewline(s, i);
  }

  lemma SplitLinesWhole(s: string)
    requires s != [] && BreakIndex(s) == |s|
    ensures SplitLines(s) == [s]
  {
  }

  /** Lines free of line boundaries, the last one non-empty, joined with `\n` and split
      again with `splitlines()`, come back as they were. */
  lemma {:induction false} SplitLinesJoin(lines: seq<string>)
    requires |lines| >= 1 && lines[|lines| - 1] != ""
    requires forall k | 0 <= k < |lines| :: NoBreaks(lines[k])
    ensures SplitLines(Join(lines, '\n')) == lines
    decreases |lines|
  {
    var p := lines[0];
    assert NoBreaks(p);
    if |lines| == 1 {
      BreakIndexPrefix(p, []);
      assert p + [] == p;
    } else {
      var rest := lines[1..];
      JoinCons(p, rest, '\n');
      assert [p] + rest == lines;
      forall k | 0 <= k < |rest| ensures NoBreaks(rest[k]) {
        assert rest[k] == lines[k + 1];
      }
      assert rest[|rest| - 1] == lines[|lines| - 1];
      SplitLinesCons(p, Join(rest, '\n'));
      SplitLinesJoin(rest);
    }
  }

  /** A boundary-free line, a `\n`, then more: the line comes first. */
  lemma SplitLinesCons(p: string, t: string)
    requires NoBreaks(p)
    ensures SplitLines(p + ['\n'] + t) == [p] + SplitLines(t)
  {
    var u := ['\n'] + t;
    var s := p + u;
    Seqs.AppendAssoc(p, ['\n'], t);
    Seqs.AppendParts(p, u);
    BreakIndexPrefix(p, u);
    assert BreakIndex(u) == 0;
    assert s[|p|] == u[0] == '\n';
    assert s[|p| + 1..] == u[1..] == t;
    SplitLinesAtNewline(s, |p|);
  }

  /** The first boundary of a text that starts with a boundary-free prefix. */
  lemma {:induction false} BreakIndexPrefix(p: string, t: string)
    requires NoBreaks(p)
    ensures BreakIndex(p + t) == |p| + BreakIndex(t)
    decreases |p|
  {
    if p == [] {
      assert p + t == t;
    } else {
      assert (p + t)[0] == p[0] && (p + t)[1..] == p[1..] + t;
      BreakIndexPrefix(p[1..], t);
    }
  }

  lemma SplitLinesAtNewline(s: string, i: nat)
    requires i == BreakIndex(s) && i < |s| && s[i] == '\n'
    ensures SplitLines(s) == [s[..i]] + SplitLines(s[i + 1..])
  {
    assert LineEnd(s, i) == i + 1;
    assert SplitLines(s) == [s[..i]] + SplitLines(s[LineEnd(s, i)..]);
  }

  /** Each line of `splitlines()` is free of `\n`. */
  lemma SplitLinesNoNewline(s: string)
    ensures forall k | 0 <= k < |SplitLines(s)| :: '\n' !in SplitLines(s)[k]
  {
  }

  // ---------------------------------------------------------------- integers

  function DigitChar(d: nat): char
    requires d < 10
  {
    ('0' as int + d) as char
  }

  /** `str(n)` for a natural number. */
  function NatToString(n: nat): (r: string)
    ensures |r| >= 1 && forall c | c in r :: IsDigit(c)
  {
    if n < 10 then [DigitChar(n)] else NatToString(n / 10) + [DigitChar(n % 10)]
  }

  /** `str(n)`. */
  function IntToString(n: int): string {
    if n < 0 then "-" + NatToString(-n) else NatToString(n)
  }

  /** `s.isdigit()` restricted to ASCII digits: non-empty and every character a digit. */
  predicate IsDigits(s: string) {
    |s| > 0 && forall c | c in s :: IsDigit(c)
  }

  /** The value of a string of digits and underscores, ignoring the underscores. */
  function DigitsValue(s: string): nat
    requires forall c | c in s :: IsDigit(c) || c == '_'
  {
    if s == [] then 0
    else if s[|s| - 1] == '_' then DigitsValue(s[..|s| - 1])
    else
      assert s[|s| - 1] in s;
      assert IsDigit(s[|s| - 1]);
      var d: nat := s[|s| - 1] as int - '0' as int;
      10 * DigitsValue(s[..|s| - 1]) + d
  }

  /** The body Python's `int()` accepts after its sign: digits, single underscores between digits. */
  predicate IsNumeral(s: string) {
    |s| > 0 && IsDigit(s[0]) && IsDigit(s[|s| - 1])
    && (forall c | c in s :: IsDigit(c) || c == '_')
    && (forall i | 0 <= i < |s| - 1 :: !(s[i] == '_' && s[i + 1] == '_'))
  }

  /** Python's `int(s)` for base 10, or None where it raises ValueError. */
  function ParseInt(s: string): Option<int> {
    var t := Strip(s);
    if |t| > 0 && (t[0] == '-' || t[0] == '+') then
      if IsNumeral(t[1..]) then
        var v: int := DigitsValue(t[1..]);
        Some(if t[0] == '-' then -v else v)
      else None
    else if IsNumeral(t) then Some(DigitsValue(t))
    else None
  }

  lemma {:induction false} NatToStringValue(n: nat)
    ensures IsNumeral(NatToString(n))
    ensures DigitsValue(NatToString(n)) == n
    decreases n
  {
    if n >= 10 {
      NatToStringValue(n / 10);
      var s := NatToString(n);
      assert s[..|s| - 1] == NatToString(n / 10);
    }
  }

  /** `int(str(n)) == n`. */
  lemma ParseIntToString(n: int)
    ensures ParseInt(IntToString(n)) == Some(n)
  {
    var s := IntToString(n);
    var d := NatToString(if n < 0 then -n else n);
    NatToStringValue(if n < 0 then -n else n);
    assert Trimmed(s);
    StripTrimmed(s);
    if n < 0 {
      assert s[1..] == d;
    }
  }

  // ---------------------------------------------------------------- substrings

  /** `s.startswith(p)`. */
  predicate StartsWith(s: string, p: string) {
    |p| <= |s| && s[..|p|] == p
  }

  /** `sub in s` for strings. */
  predicate Contains(s: string, sub: string)
    decreases |s|
  {
    sub <= s || (|s| > 0 && Contains(s[1..], sub))
  }

  lemma {:induction false} ContainsAppend(a: string, b: string, sub: string)
    requires Contains(b, sub)
    ensures Contains(a + b, sub)
    decreases |a|
  {
    if a != [] {
      ContainsAppend(a[1..], b, sub);
      assert (a + b)[1..] == a[1..] + b;
    } else {
      assert a + b == b;
    }
  }

  /** `s.replace(pat, "")`: every non-overlapping occurrence, scanned from the left, removed. */
  function RemoveAll(s: string, pat: string): string
    requires |pat| > 0
    decreases |s|
  {
    if |s| < |pat| then s
    else if s[..|pat|] == pat then RemoveAll(s[|pat|..], pat)
    else [s[0]] + RemoveAll(s[1..], pat)
  }

  /** `s.replace(c, rep)` for a one-character pattern. */
  function ReplaceChar(s: string, c: char, rep: string): (r: string)
    ensures c !in rep ==> c !in r
    ensures c !in s ==> r == s
  {
    if s == [] then [] else (if s[0] == c then rep else [s[0]]) + ReplaceChar(s[1..], c, rep)
  }

  /** `s.replace("\r\n", "\n")`. */
  function ReplaceCrLf(s: string): (r: string)
    ensures '\r' !in s ==> r == s
  {
    if |s| >= 2 && s[0] == '\r' && s[1] == '\n' then "\n" + ReplaceCrLf(s[2..])
    else if s == [] then []
    else [s[0]] + ReplaceCrLf(s[1..])
  }
}
