/**
 * The gallery's `escapeHtml`: a single left-to-right pass that replaces each
 * of the five characters `& < > " '` by its entity and copies every other
 * character. Replacement text is never rescanned, so the escape is defined
 * character by character.
 */
module Html {

  /** The five characters `escapeHtml` rewrites. */
  predicate IsSpecial(c: char) {
    c == '&' || c == '<' || c == '>' || c == '"' || c == '\''
  }

  /** True of text in which no raw tag delimiter or attribute quote remains. */
  predicate NoRawMarkup(s: string) {
    forall i :: 0 <= i < |s| ==> s[i] != '<' && s[i] != '>' && s[i] != '"' && s[i] != '\''
  }

  /** The replacement table of `escapeHtml`. */
  function EscapeChar(c: char): (r: string)
    ensures IsSpecial(c) ==> |r| >= 4 && r[0] == '&' && r[|r| - 1] == ';'
    ensures !IsSpecial(c) ==> r == [c]
    ensures NoRawMarkup(r)
  {
    match c
    case '&' => "&amp;"
    case '<' => "&lt;"
    case '>' => "&gt;"
    case '"' => "&quot;"
    case '\'' => "&#39;"
    case _ => [c]
  }

  /** `escapeHtml(s)`. */
  function Escape(s: string): (r: string)
    ensures NoRawMarkup(r)
    ensures |s| <= |r|
  {
    if s == [] then [] else EscapeChar(s[0]) + Escape(s[1..])
  }

  /** Escaping distributes over concatenation. */
  lemma {:induction false} EscapeAppend(a: string, b: string)
    ensures Escape(a + b) == Escape(a) + Escape(b)
  {
    if a != [] {
      assert (a + b)[0] == a[0];
      assert (a + b)[1..] == a[1..] + b;
      EscapeAppend(a[1..], b);
    } else {
      assert a + b == b;
    }
  }

  /** Text without any of the five special characters is left unchanged. */
  lemma {:induction false} EscapeIdentity(s: string)
    requires forall i :: 0 <= i < |s| ==> !IsSpecial(s[i])
    ensures Escape(s) == s
  {
    if s != [] {
      EscapeIdentity(s[1..]);
    }
  }

  predicate StartsWith(s: string, prefix: string) {
    |prefix| <= |s| && s[..|prefix|] == prefix
  }

  /** Decodes the five entities produced by `Escape`; any other text is copied. */
  function Unescape(s: string): string
    decreases |s|
  {
    if s == [] then []
    else if s[0] != '&' then [s[0]] + Unescape(s[1..])
    else if StartsWith(s, "&amp;") then "&" + Unescape(s[5..])
    else if StartsWith(s, "&lt;") then "<" + Unescape(s[4..])
    else if StartsWith(s, "&gt;") then ">" + Unescape(s[4..])
    else if StartsWith(s, "&quot;") then "\"" + Unescape(s[6..])
    else if StartsWith(s, "&#39;") then "'" + Unescape(s[5..])
    else [s[0]] + Unescape(s[1..])
  }

  /** Decoding one entity followed by any text. */
  lemma UnescapeEntity(e: string, c: char, rest: string)
    requires e == EscapeChar(c) && IsSpecial(c)
    ensures Unescape(e + rest) == [c] + Unescape(rest)
  {
    var t := e + rest;
    assert t[..|e|] == e;
    assert t[|e|..] == rest;
    if c != '&' {
      assert t[1] == e[1] != 'a';
    }
    if c != '&' && c != '<' {
      assert t[1] == e[1] != 'l';
    }
    if c == '"' || c == '\'' {
      assert t[1] == e[1] != 'g';
    }
    if c == '\'' {
      assert t[1] == e[1] != 'q';
    }
  }

  /** Decoding the escape of one character, followed by any text. */
  lemma UnescapeEscapeChar(c: char, rest: string)
    ensures Unescape(EscapeChar(c) + rest) == [c] + Unescape(rest)
  {
    if IsSpecial(c) {
      UnescapeEntity(EscapeChar(c), c, rest);
    } else {
      var t := EscapeChar(c) + rest;
      assert t[0] == c;
      assert t[1..] == rest;
    }
  }

  /** `Escape` loses nothing: decoding its output gives back the input. */
  lemma {:induction false} UnescapeEscape(s: string)
    ensures Unescape(Escape(s)) == s
  {
    if s != [] {
      UnescapeEscapeChar(s[0], Escape(s[1..]));
      UnescapeEscape(s[1..]);
      assert s == [s[0]] + s[1..];
    }
  }

  /** Two different texts never escape to the same markup. */
  lemma EscapeInjective(a: string, b: string)
    requires Escape(a) == Escape(b)
    ensures a == b
  {
    UnescapeEscape(a);
    UnescapeEscape(b);
  }

  /** The worked example: a bold tag is rendered as literal text. */
  lemma EscapeTagExample()
    ensures Escape("<b>") == "&lt;b&gt;" && Escape("</b>") == "&lt;/b&gt;" && Escape("X") == "X"
    ensures Escape("<b>X</b>") == Escape("<b>") + Escape("X") + Escape("</b>")
  {
    EscapeAppend("<b>", "X");
    EscapeAppend("<b>" + "X", "</b>");
    assert "<b>X</b>" == "<b>" + "X" + "</b>";
  }

  /** The worked example in one piece: `<b>X</b>` is rendered as `&lt;b&gt;X&lt;/b&gt;`. */
  lemma EscapeTagRendered()
    ensures Escape("<b>X</b>") == "&lt;b&gt;X&lt;/b&gt;"
  {
    EscapeTagExample();
    assert "&lt;b&gt;" + "X" + "&lt;/b&gt;" == "&lt;b&gt;X&lt;/b&gt;";
  }
}
