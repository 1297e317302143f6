/**
 * The two string helpers of the command module: `escapeHtml`, a chain of
 * five global one-character replacements, and `formatMarkdown`, which turns
 * newlines into `<br>` and wraps `**bold**`, `*italic*` and `` `code` `` spans
 * in tags.
 */
module Markup {
  import opened Options
  import opened JsText

  // ---------------------------------------------------------------------
  // escapeHtml
  // ---------------------------------------------------------------------

  /** `s.replace(/c/g, r)` for a pattern of one character. */
  function ReplaceChar(s: string, c: char, r: string): string
    decreases |s|
  {
    if s == [] then [] else (if s[0] == c then r else [s[0]]) + ReplaceChar(s[1..], c, r)
  }

  /** Replacing in two runs of text replaces in each. */
  lemma {:induction false} ReplaceCharConcat(a: string, b: string, c: char, r: string)
    ensures ReplaceChar(a + b, c, r) == ReplaceChar(a, c, r) + ReplaceChar(b, c, r)
    decreases |a|
  {
    if a == [] {
      assert a + b == b;
    } else {
      ReplaceCharConcat(a[1..], b, c, r);
      assert (a + b)[1..] == a[1..] + b;
    }
  }

  /** A character in neither the text nor the replacement is not in the result. */
  lemma {:induction false} ReplaceCharAvoids(s: string, c: char, r: string, d: char)
    requires (d !in s || d == c) && d !in r
    ensures d !in ReplaceChar(s, c, r)
    decreases |s|
  {
    if s != [] {
      ReplaceCharAvoids(s[1..], c, r, d);
    }
  }

  /** Text without the pattern character is left as it is. */
  lemma {:induction false} ReplaceCharAbsent(s: string, c: char, r: string)
    requires c !in s
    ensures ReplaceChar(s, c, r) == s
    decreases |s|
  {
    if s != [] {
      ReplaceCharAbsent(s[1..], c, r);
      assert s == [s[0]] + s[1..];
    }
  }

  /** `escapeHtml`: `&` first, then `<`, `>`, `"` and `'`. */
  function EscapeHtml(text: string): string {
    ReplaceChar(ReplaceChar(ReplaceChar(ReplaceChar(ReplaceChar(text,
      '&', "&amp;"), '<', "&lt;"), '>', "&gt;"), '"', "&quot;"), '\'', "&#039;")
  }

  /** The entity for one character, as the lookup-table version of `escapeHtml` gives it. */
  function EscapeChar(c: char): string {
    if c == '&' then "&amp;"
    else if c == '<' then "&lt;"
    else if c == '>' then "&gt;"
    else if c == '"' then "&quot;"
    else if c == '\'' then "&#039;"
    else [c]
  }

  /** `text.replace(/[&<>"']/g, c => table[c])`: every character mapped on its own. */
  function EscapeEach(text: string): string
    decreases |text|
  {
    if text == [] then [] else EscapeChar(text[0]) + EscapeEach(text[1..])
  }

  /** The five characters `escapeHtml` rewrites. */
  predicate Special(c: char) {
    c == '&' || c == '<' || c == '>' || c == '"' || c == '\''
  }

  lemma EscapeHtmlConcat(a: string, b: string)
    ensures EscapeHtml(a + b) == EscapeHtml(a) + EscapeHtml(b)
  {
    var a1, b1 := ReplaceChar(a, '&', "&amp;"), ReplaceChar(b, '&', "&amp;");
    ReplaceCharConcat(a, b, '&', "&amp;");
    var a2, b2 := ReplaceChar(a1, '<', "&lt;"), ReplaceChar(b1, '<', "&lt;");
    ReplaceCharConcat(a1, b1, '<', "&lt;");
    var a3, b3 := ReplaceChar(a2, '>', "&gt;"), ReplaceChar(b2, '>', "&gt;");
    ReplaceCharConcat(a2, b2, '>', "&gt;");
    var a4, b4 := ReplaceChar(a3, '"', "&quot;"), ReplaceChar(b3, '"', "&quot;");
    ReplaceCharConcat(a3, b3, '"', "&quot;");
    ReplaceCharConcat(a4, b4, '\'', "&#039;");
  }

  /**
   * On one character the chain gives that character's entity: the entities
   * hold no character a later step replaces, and `&` goes first so that no
   * entity's own `&` is escaped again.
   */
  lemma EscapeHtmlOneChar(c: char)
    ensures EscapeHtml([c]) == EscapeChar(c)
  {
    if c == '&' {
      EscapeAmpersandChar();
    } else if c == '<' {
      EscapeLessThanChar();
    } else if c == '>' {
      EscapeGreaterThanChar();
    } else if c == '"' {
      EscapeQuoteChar();
    } else if c == '\'' {
      EscapeApostropheChar();
    } else {
      EscapePlainChar(c);
    }
  }

  /** Text holding none of the last four characters goes through the last four replacements unchanged. */
  lemma LastFourKeep(e: string)
    requires '<' !in e && '>' !in e && '"' !in e && '\'' !in e
    ensures ReplaceChar(ReplaceChar(ReplaceChar(ReplaceChar(e, '<', "&lt;"), '>', "&gt;"), '"', "&quot;"), '\'', "&#039;") == e
  {
    ReplaceCharAbsent(e, '<', "&lt;");
    ReplaceCharAbsent(e, '>', "&gt;");
    ReplaceCharAbsent(e, '"', "&quot;");
    ReplaceCharAbsent(e, '\'', "&#039;");
  }

  /** Text holding none of the last three characters goes through the last three replacements unchanged. */
  lemma LastThreeKeep(e: string)
    requires '>' !in e && '"' !in e && '\'' !in e
    ensures ReplaceChar(ReplaceChar(ReplaceChar(e, '>', "&gt;"), '"', "&quot;"), '\'', "&#039;") == e
  {
    ReplaceCharAbsent(e, '>', "&gt;");
    ReplaceCharAbsent(e, '"', "&quot;");
    ReplaceCharAbsent(e, '\'', "&#039;");
  }

  lemma EscapeAmpersandChar()
    ensures EscapeHtml("&") == "&amp;"
  {
    ReplaceCharOne('&', '&', "&amp;");
    LastFourKeep("&amp;");
  }

  lemma EscapeLessThanChar()
    ensures EscapeHtml("<") == "&lt;"
  {
    ReplaceCharOne('<', '&', "&amp;");
    ReplaceCharOne('<', '<', "&lt;");
    LastThreeKeep("&lt;");
  }

  lemma EscapeGreaterThanChar()
    ensures EscapeHtml(">") == "&gt;"
  {
    var e := "&gt;";
    ReplaceCharOne('>', '&', "&amp;");
    ReplaceCharOne('>', '<', "&lt;");
    ReplaceCharOne('>', '>', e);
    ReplaceCharAbsent(e, '"', "&quot;");
    ReplaceCharAbsent(e, '\'', "&#039;");
  }

  lemma EscapeQuoteChar()
    ensures EscapeHtml("\"") == "&quot;"
  {
    var e := "&quot;";
    ReplaceCharOne('"', '&', "&amp;");
    ReplaceCharOne('"', '<', "&lt;");
    ReplaceCharOne('"', '>', "&gt;");
    ReplaceCharOne('"', '"', e);
    ReplaceCharAbsent(e, '\'', "&#039;");
  }

  lemma EscapeApostropheChar()
    ensures EscapeHtml("'") == "&#039;"
  {
    ReplaceCharOne('\'', '&', "&amp;");
    ReplaceCharOne('\'', '<', "&lt;");
    ReplaceCharOne('\'', '>', "&gt;");
    ReplaceCharOne('\'', '"', "&quot;");
    ReplaceCharOne('\'', '\'', "&#039;");
  }

  lemma EscapePlainChar(c: char)
    requires !Special(c)
    ensures EscapeHtml([c]) == [c]
  {
    ReplaceCharOne(c, '&', "&amp;");
    ReplaceCharOne(c, '<', "&lt;");
    ReplaceCharOne(c, '>', "&gt;");
    ReplaceCharOne(c, '"', "&quot;");
    ReplaceCharOne(c, '\'', "&#039;");
  }

  /** On one character a replacement gives the replacement text or the character. */
  lemma ReplaceCharOne(x: char, c: char, r: string)
    ensures ReplaceChar([x], c, r) == (if x == c then r else [x])
  {
    assert [x][1..] == [];
  }

  /** The chain of replacements and the per-character table give the same text. */
  lemma {:induction false} EscapeHtmlIsPerCharacter(text: string)
    ensures EscapeHtml(text) == EscapeEach(text)
    decreases |text|
  {
    if text == [] {
    } else {
      assert text == [text[0]] + text[1..];
      EscapeHtmlConcat([text[0]], text[1..]);
      EscapeHtmlOneChar(text[0]);
      EscapeHtmlIsPerCharacter(text[1..]);
    }
  }

  /** The output holds none of `<`, `>`, `"` and `'`. */
  lemma EscapeHtmlRemovesMarkup(text: string)
    ensures '<' !in EscapeHtml(text) && '>' !in EscapeHtml(text)
    ensures '"' !in EscapeHtml(text) && '\'' !in EscapeHtml(text)
  {
    var s1 := ReplaceChar(text, '&', "&amp;");
    var s2 := ReplaceChar(s1, '<', "&lt;");
    var s3 := ReplaceChar(s2, '>', "&gt;");
    var s4 := ReplaceChar(s3, '"', "&quot;");
    ReplaceCharAvoids(s1, '<', "&lt;", '<');
    ReplaceCharAvoids(s2, '>', "&gt;", '<');
    ReplaceCharAvoids(s3, '"', "&quot;", '<');
    ReplaceCharAvoids(s4, '\'', "&#039;", '<');
    ReplaceCharAvoids(s2, '>', "&gt;", '>');
    ReplaceCharAvoids(s3, '"', "&quot;", '>');
    ReplaceCharAvoids(s4, '\'', "&#039;", '>');
    ReplaceCharAvoids(s3, '"', "&quot;", '"');
    ReplaceCharAvoids(s4, '\'', "&#039;", '"');
    ReplaceCharAvoids(s4, '\'', "&#039;", '\'');
  }

  /** Text without any of the five characters is left as it is. */
  lemma {:induction false} EscapeHtmlPlainText(text: string)
    requires forall k :: 0 <= k < |text| ==> !Special(text[k])
    ensures EscapeHtml(text) == text
    decreases |text|
  {
    EscapeHtmlIsPerCharacter(text);
    if text != [] {
      EscapeHtmlPlainText(text[1..]);
      EscapeHtmlIsPerCharacter(text[1..]);
      assert text == [text[0]] + text[1..];
    }
  }

  /** Each special character grows by the length of its entity less one; every other character stays one character. */
  lemma EscapeHtmlLength(text: string)
    ensures |EscapeHtml(text)| == |text| + 4 * multiset(text)['&'] + 3 * multiset(text)['<'] + 3 * multiset(text)['>']
      + 5 * multiset(text)['"'] + 5 * multiset(text)['\'']
  {
    EscapeHtmlIsPerCharacter(text);
    EscapeEachLength(text);
    assert Growth(multiset(text)) == 4 * multiset(text)['&'] + 3 * multiset(text)['<'] + 3 * multiset(text)['>']
      + 5 * multiset(text)['"'] + 5 * multiset(text)['\''];
  }

  /** The sum the length formula adds for each character. */
  function Growth(m: multiset<char>): int {
    4 * m['&'] + 3 * m['<'] + 3 * m['>'] + 5 * m['"'] + 5 * m['\'']
  }

  lemma EscapeCharLength(c: char)
    ensures |EscapeChar(c)| == 1 + Growth(multiset([c]))
  {
  }

  lemma GrowthAdds(a: multiset<char>, b: multiset<char>)
    ensures Growth(a + b) == Growth(a) + Growth(b)
  {
  }

  lemma {:induction false} EscapeEachLength(text: string)
    ensures |EscapeEach(text)| == |text| + Growth(multiset(text))
    decreases |text|
  {
    if text != [] {
      EscapeEachLength(text[1..]);
      assert text == [text[0]] + text[1..];
      assert multiset(text) == multiset([text[0]]) + multiset(text[1..]);
      GrowthAdds(multiset([text[0]]), multiset(text[1..]));
      EscapeCharLength(text[0]);
    }
  }

  /** One of the five entities begins at `i`. */
  predicate EntityAt(t: string, i: nat) {
    (i + 5 <= |t| && t[i..i + 5] == "&amp;") || (i + 4 <= |t| && t[i..i + 4] == "&lt;")
    || (i + 4 <= |t| && t[i..i + 4] == "&gt;") || (i + 6 <= |t| && t[i..i + 6] == "&quot;")
    || (i + 6 <= |t| && t[i..i + 6] == "&#039;")
  }

  /** An entity at `i` of `b` is still one at `i + |a|` of `a + b`. */
  lemma EntityAtShift(a: string, b: string, i: nat)
    requires EntityAt(b, i)
    ensures EntityAt(a + b, |a| + i)
  {
    var t := a + b;
    if i + 4 <= |b| { assert t[|a| + i..|a| + i + 4] == b[i..i + 4]; }
    if i + 5 <= |b| { assert t[|a| + i..|a| + i + 5] == b[i..i + 5]; }
    if i + 6 <= |b| { assert t[|a| + i..|a| + i + 6] == b[i..i + 6]; }
  }

  /** An entity at the start of `a` is still one at the start of `a + b`. */
  lemma EntityAtExtend(a: string, b: string)
    requires EntityAt(a, 0)
    ensures EntityAt(a + b, 0)
  {
    var t := a + b;
    if 4 <= |a| { assert t[..4] == a[..4]; }
    if 5 <= |a| { assert t[..5] == a[..5]; }
    if 6 <= |a| { assert t[..6] == a[..6]; }
  }

  /** Every `&` of the output begins an entity: because `&` is replaced first, no `&` is left bare. */
  lemma {:induction false} EscapeEachAmpersand(text: string, i: nat)
    requires i < |EscapeEach(text)| && EscapeEach(text)[i] == '&'
    ensures EntityAt(EscapeEach(text), i)
    decreases |text|
  {
    var head := EscapeChar(text[0]);
    var rest := EscapeEach(text[1..]);
    assert EscapeEach(text) == head + rest;
    if i < |head| {
      assert head[i] == '&';
      assert i == 0 && Special(text[0]);
      assert head[..|head|] == head;
      assert EntityAt(head, 0);
      EntityAtExtend(head, rest);
    } else {
      var j := i - |head|;
      assert rest[j] == '&';
      EscapeEachAmpersand(text[1..], j);
      EntityAtShift(head, rest, j);
    }
  }

  lemma EscapeHtmlAmpersand(text: string, i: nat)
    requires i < |EscapeHtml(text)| && EscapeHtml(text)[i] == '&'
    ensures EntityAt(EscapeHtml(text), i)
  {
    EscapeHtmlIsPerCharacter(text);
    EscapeEachAmpersand(text, i);
  }

  // ---------------------------------------------------------------------
  // formatMarkdown
  // ---------------------------------------------------------------------

  /** The delimiter `d` occurs at `k`. */
  predicate DelimiterAt(s: string, d: string, k: nat) {
    k + |d| <= |s| && s[k..k + |d|] == d
  }

  /**
   * Where a lazy `(.+?)` group that has taken the characters before `k`
   * closes: the first delimiter at or after `k`, provided no line terminator
   * (which `.` refuses) comes first.
   */
  function CloseAt(s: string, d: string, k: nat): (r: Option<nat>)
    ensures r.Some? ==> k <= r.value && r.value + |d| <= |s|
    decreases |s| - k
  {
    if k + |d| > |s| then None
    else if DelimiterAt(s, d, k) then Some(k)
    else if IsLineTerminator(s[k]) then None
    else CloseAt(s, d, k + 1)
  }

  /**
   * `s.replace(/D(.+?)D/g, open + '$1' + close)` from index `i` on, for the
   * delimiter `d`: at each index either a match starts there (a delimiter,
   * at least one character that is not a line terminator, then the nearest
   * closing delimiter) and is rewritten, or the character is kept.
   */
  function Wrap(s: string, d: string, open: string, close: string, i: nat): string
    decreases |s| - i
  {
    if i >= |s| then []
    else if DelimiterAt(s, d, i) && i + |d| < |s| && !IsLineTerminator(s[i + |d|]) && CloseAt(s, d, i + |d| + 1).Some? then
      var j := CloseAt(s, d, i + |d| + 1).value;
      open + s[i + |d|..j] + close + Wrap(s, d, open, close, j + |d|)
    else [s[i]] + Wrap(s, d, open, close, i + 1)
  }

  /** `formatMarkdown` */
  function FormatMarkdown(text: string): string {
    var withBreaks := ReplaceChar(text, '\n', "<br>");
    var bold := Wrap(withBreaks, "**", "<strong>", "</strong>", 0);
    var italic := Wrap(bold, "*", "<em>", "</em>", 0);
    Wrap(italic, "`", "<code>", "</code>", 0)
  }

  /** Text in which the delimiter's first character never occurs is left as it is. */
  lemma {:induction false} WrapAbsent(s: string, d: string, open: string, close: string, i: nat)
    requires |d| > 0 && d[0] !in s && i <= |s|
    ensures Wrap(s, d, open, close, i) == s[i..]
    decreases |s| - i
  {
    if i < |s| {
      assert s[i] != d[0];
      if i + |d| <= |s| {
        assert s[i..i + |d|][0] == s[i];
      }
      WrapAbsent(s, d, open, close, i + 1);
      assert s[i..] == [s[i]] + s[i + 1..];
    }
  }

  /** A character in neither the text nor the tags is not in the result. */
  lemma {:induction false} WrapAvoids(s: string, d: string, open: string, close: string, i: nat, ch: char)
    requires ch !in s && ch !in open && ch !in close
    ensures ch !in Wrap(s, d, open, close, i)
    decreases |s| - i
  {
    if i < |s| {
      if DelimiterAt(s, d, i) && i + |d| < |s| && !IsLineTerminator(s[i + |d|]) && CloseAt(s, d, i + |d| + 1).Some? {
        var j := CloseAt(s, d, i + |d| + 1).value;
        WrapAvoids(s, d, open, close, j + |d|, ch);
        assert ch !in s[i + |d|..j];
      } else {
        WrapAvoids(s, d, open, close, i + 1, ch);
      }
    }
  }

  /** The output holds no newline: each one became `<br>` before the spans were rewritten. */
  lemma FormatMarkdownHasNoNewline(text: string)
    ensures '\n' !in FormatMarkdown(text)
  {
    var withBreaks := ReplaceChar(text, '\n', "<br>");
    ReplaceCharAvoids(text, '\n', "<br>", '\n');
    var bold := Wrap(withBreaks, "**", "<strong>", "</strong>", 0);
    WrapAvoids(withBreaks, "**", "<strong>", "</strong>", 0, '\n');
    var italic := Wrap(bold, "*", "<em>", "</em>", 0);
    WrapAvoids(bold, "*", "<em>", "</em>", 0, '\n');
    WrapAvoids(italic, "`", "<code>", "</code>", 0, '\n');
  }

  /** Without `*` and backticks only the newlines change, each into `<br>`. */
  lemma FormatMarkdownOnlyBreaks(text: string)
    requires '*' !in text && '`' !in text
    ensures FormatMarkdown(text) == ReplaceChar(text, '\n', "<br>")
  {
    var withBreaks := ReplaceChar(text, '\n', "<br>");
    ReplaceCharAvoids(text, '\n', "<br>", '*');
    ReplaceCharAvoids(text, '\n', "<br>", '`');
    WrapAbsent(withBreaks, "**", "<strong>", "</strong>", 0);
    WrapAbsent(withBreaks, "*", "<em>", "</em>", 0);
    WrapAbsent(withBreaks, "`", "<code>", "</code>", 0);
  }

  /** Text with no `*`, no backtick and no newline is returned unchanged. */
  lemma FormatMarkdownPlainText(text: string)
    requires '*' !in text && '`' !in text && '\n' !in text
    ensures FormatMarkdown(text) == text
  {
    FormatMarkdownOnlyBreaks(text);
    ReplaceCharAbsent(text, '\n', "<br>");
  }

  /** The group closes at the first delimiter when nothing before it stops `.`. */
  lemma {:induction false} CloseAtFirst(s: string, d: string, k: nat, j: nat)
    requires k <= j && DelimiterAt(s, d, j)
    requires forall p :: k <= p < j ==> !DelimiterAt(s, d, p) && !IsLineTerminator(s[p])
    ensures CloseAt(s, d, k) == Some(j)
    decreases j - k
  {
    if k < j {
      CloseAtFirst(s, d, k + 1, j);
    }
  }

  /** A single-character delimiter that does not occur inside the span, which has no line terminator: the span is wrapped. */
  lemma WrapSpan(t: string, c: char, open: string, close: string)
    requires |t| >= 1 && c !in t
    requires forall p :: 0 <= p < |t| ==> !IsLineTerminator(t[p])
    ensures Wrap([c] + t + [c], [c], open, close, 0) == open + t + close
  {
    var s := [c] + t + [c];
    var j := |t| + 1;
    assert DelimiterAt(s, [c], 0) && DelimiterAt(s, [c], j);
    forall p | 2 <= p < j ensures !DelimiterAt(s, [c], p) && !IsLineTerminator(s[p]) {
      assert s[p] == t[p - 1];
    }
    assert s[1] == t[0];
    CloseAtFirst(s, [c], 2, j);
    assert s[1..j] == t;
    assert Wrap(s, [c], open, close, j + 1) == [];
  }

  /** `*text*` becomes `<em>text</em>` for text of one line without `*` and backticks. */
  lemma FormatMarkdownItalic(t: string)
    requires |t| >= 1 && '*' !in t && '`' !in t
    requires forall p :: 0 <= p < |t| ==> !IsLineTerminator(t[p])
    ensures FormatMarkdown("*" + t + "*") == "<em>" + t + "</em>"
  {
    var s := "*" + t + "*";
    assert '\n' !in t by {
      assert IsLineTerminator('\n');
    }
    assert '\n' !in s;
    ReplaceCharAbsent(s, '\n', "<br>");
    forall p | 0 <= p < |s| ensures !DelimiterAt(s, "**", p) {
      if p + 2 <= |s| {
        assert s[p..p + 2][0] == s[p] && s[p..p + 2][1] == s[p + 1];
        if p < |t| {
          assert s[p + 1] == t[p];
        } else {
          assert s[p] == t[p - 1];
        }
      }
    }
    WrapNoDelimiter(s, "**", "<strong>", "</strong>", 0);
    WrapSpan(t, '*', "<em>", "</em>");
    var u := "<em>" + t + "</em>";
    assert '`' !in u;
    WrapAbsent(u, "`", "<code>", "</code>", 0);
  }

  /** Text in which the delimiter starts nowhere from `i` on is left as it is. */
  lemma {:induction false} WrapNoDelimiter(s: string, d: string, open: string, close: string, i: nat)
    requires i <= |s| && forall p :: i <= p < |s| ==> !DelimiterAt(s, d, p)
    ensures Wrap(s, d, open, close, i) == s[i..]
    decreases |s| - i
  {
    if i < |s| {
      WrapNoDelimiter(s, d, open, close, i + 1);
      assert s[i..] == [s[i]] + s[i + 1..];
    }
  }
}
