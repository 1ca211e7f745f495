/** The HTML escaping both the bot and the daily report apply to every value they put
    into a message sent with `parse_mode=HTML`. */
module Html {
  import opened Text

  /** `escape_html`: `&` replaced first, then `<`, then `>`. */
  function EscapeHtml(s: string): string {
    ReplaceChar(ReplaceChar(ReplaceChar(s, '&', "&amp;"), '<', "&lt;"), '>', "&gt;")
  }

  /** The entity one character becomes. */
  function EscapeChar(c: char): string {
    if c == '&' then "&amp;" else if c == '<' then "&lt;" else if c == '>' then "&gt;" else [c]
  }

  /** Escaping character by character, in one pass. */
  function EscapeEach(s: string): string {
    if s == [] then [] else EscapeChar(s[0]) + EscapeEach(s[1..])
  }

  /** Reading the three entities back as the characters they stand for. */
  function Unescape(s: string): string
    decreases |s|
  {
    if s == [] then []
    else if |s| >= 5 && s[..5] == "&amp;" then "&" + Unescape(s[5..])
    else if |s| >= 4 && s[..4] == "&lt;" then "<" + Unescape(s[4..])
    else if |s| >= 4 && s[..4] == "&gt;" then ">" + Unescape(s[4..])
    else [s[0]] + Unescape(s[1..])
  }

  lemma {:induction false} ReplaceAppend(a: string, b: string, c: char, rep: string)
    ensures ReplaceChar(a + b, c, rep) == ReplaceChar(a, c, rep) + ReplaceChar(b, c, rep)
    decreases |a|
  {
    if a == [] {
      assert a + b == b;
    } else {
      assert (a + b)[0] == a[0] && (a + b)[1..] == a[1..] + b;
      ReplaceAppend(a[1..], b, c, rep);
    }
  }

  /** The three chained replacements escape each character independently: because `&` goes
      first, the `&` of an entity written by a later replacement is never escaped again. */
  lemma {:induction false} EscapeSinglePass(s: string)
    ensures EscapeHtml(s) == EscapeEach(s)
    decreases |s|
  {
    if s != [] {
      assert s == [s[0]] + s[1..];
      EscapeAppend([s[0]], s[1..]);
      EscapeOne(s[0]);
      EscapeSinglePass(s[1..]);
    }
  }

  /** Escaping distributes over concatenation. */
  lemma EscapeAppend(a: string, b: string)
    ensures EscapeHtml(a + b) == EscapeHtml(a) + EscapeHtml(b)
  {
    ReplaceAppend(a, b, '&', "&amp;");
    var a1 := ReplaceChar(a, '&', "&amp;");
    var b1 := ReplaceChar(b, '&', "&amp;");
    ReplaceAppend(a1, b1, '<', "&lt;");
    ReplaceAppend(ReplaceChar(a1, '<', "&lt;"), ReplaceChar(b1, '<', "&lt;"), '>', "&gt;");
  }

  lemma EscapeOne(c: char)
    ensures EscapeHtml([c]) == EscapeChar(c)
  {
    var r := ReplaceChar([c], c, EscapeChar(c));
    assert [c][1..] == [];
    assert r == EscapeChar(c) + [];
    if c == '&' {
      assert '<' !in r && '>' !in r;
    } else if c == '<' {
      assert '&' !in [c] && '>' !in r;
    } else if c == '>' {
      assert '&' !in [c] && '<' !in [c];
    } else {
      assert '&' !in [c] && '<' !in [c] && '>' !in [c];
    }
  }

  /** No markup character survives escaping. */
  lemma {:induction false} EscapedHasNoMarkup(s: string)
    ensures '<' !in EscapeHtml(s) && '>' !in EscapeHtml(s)
    decreases |s|
  {
    EscapeSinglePass(s);
    EachHasNoMarkup(s);
  }

  lemma {:induction false} EachHasNoMarkup(s: string)
    ensures '<' !in EscapeEach(s) && '>' !in EscapeEach(s)
    decreases |s|
  {
    if s != [] {
      EachHasNoMarkup(s[1..]);
    }
  }

  /** Escaping loses nothing: reading the entities back gives the original text. */
  lemma {:induction false} UnescapeEscape(s: string)
    ensures Unescape(EscapeHtml(s)) == s
  {
    EscapeSinglePass(s);
    UnescapeEach(s);
  }

  lemma {:induction false} UnescapeEach(s: string)
    ensures Unescape(EscapeEach(s)) == s
    decreases |s|
  {
    if s != [] {
      var e := EscapeChar(s[0]);
      var x := EscapeEach(s[1..]);
      UnescapeEach(s[1..]);
      UnescapeHead(e, x, s[0]);
      assert [s[0]] + s[1..] == s;
    }
  }

  /** One escaped character in front of any text is read back as that character. */
  lemma UnescapeHead(e: string, x: string, c: char)
    requires e == EscapeChar(c)
    ensures Unescape(e + x) == [c] + Unescape(x)
  {
    var s := e + x;
    if c == '&' {
      assert s[..5] == "&amp;" && s[5..] == x;
    } else if c == '<' {
      assert s[..4] == "&lt;" && s[4..] == x;
      assert s[1] == 'l';
    } else if c == '>' {
      assert s[..4] == "&gt;" && s[4..] == x;
      assert s[1] == 'g';
    } else {
      assert s[0] == c && s[1..] == x;
    }
  }
}
