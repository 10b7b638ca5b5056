/** Escaping text into HTML reports (src/stats/html.rs) and into JavaScript literals
    (src/bridge/browser.rs). */
module Escaping {
  import opened Wrappers

  // ---------------------------------------------------------------- HTML

  function Replace(s: string, c: char, entity: string): string {
    if s == "" then "" else (if s[0] == c then entity else [s[0]]) + Replace(s[1..], c, entity)
  }

  /** The source's chain of five replacements, `&` first. */
  function EscapeHtml(s: string): string {
    Replace(Replace(Replace(Replace(Replace(s, '&', "&amp;"), '<', "&lt;"), '>', "&gt;"), '"', "&quot;"), '\'', "&#39;")
  }

  function Entity(c: char): string {
    match c
    case '&' => "&amp;"
    case '<' => "&lt;"
    case '>' => "&gt;"
    case '"' => "&quot;"
    case '\'' => "&#39;"
    case _ => [c]
  }

  /** One entity for each character, in a single pass. */
  function Entities(s: string): string {
    if s == "" then "" else Entity(s[0]) + Entities(s[1..])
  }

  lemma {:induction false} ReplaceAppend(a: string, b: string, c: char, entity: string)
    ensures Replace(a + b, c, entity) == Replace(a, c, entity) + Replace(b, c, entity)
    decreases |a|
  {
    if a == "" {
      assert a + b == b;
    } else {
      assert (a + b)[1..] == a[1..] + b;
      ReplaceAppend(a[1..], b, c, entity);
    }
  }

  lemma {:induction false} ReplaceAbsent(s: string, c: char, entity: string)
    requires c !in s
    ensures Replace(s, c, entity) == s
    decreases |s|
  {
    if s != "" {
      ReplaceAbsent(s[1..], c, entity);
    }
  }

  lemma ReplaceOne(c: char, d: char, entity: string)
    ensures Replace([d], c, entity) == if d == c then entity else [d]
  {
    assert [d][1..] == "";
  }

  lemma EscapeHtmlAppend(a: string, b: string)
    ensures EscapeHtml(a + b) == EscapeHtml(a) + EscapeHtml(b)
  {
    var a1, b1 := Replace(a, '&', "&amp;"), Replace(b, '&', "&amp;");
    var a2, b2 := Replace(a1, '<', "&lt;"), Replace(b1, '<', "&lt;");
    var a3, b3 := Replace(a2, '>', "&gt;"), Replace(b2, '>', "&gt;");
    var a4, b4 := Replace(a3, '"', "&quot;"), Replace(b3, '"', "&quot;");
    ReplaceAppend(a, b, '&', "&amp;");
    ReplaceAppend(a1, b1, '<', "&lt;");
    ReplaceAppend(a2, b2, '>', "&gt;");
    ReplaceAppend(a3, b3, '"', "&quot;");
    ReplaceAppend(a4, b4, '\'', "&#39;");
  }

  /** The replacements before the one for `c` leave it alone, and those after leave its entity alone. */
  lemma EscapeHtmlOne(c: char)
    ensures EscapeHtml([c]) == Entity(c)
  {
    ReplaceOne('&', c, "&amp;");
    ReplaceOne('<', c, "&lt;");
    ReplaceOne('>', c, "&gt;");
    ReplaceOne('"', c, "&quot;");
    ReplaceOne('\'', c, "&#39;");
    if c == '&' {
      Survives("&amp;");
    } else if c == '<' {
      Survives("&lt;");
    } else if c == '>' {
      Survives("&gt;");
    } else if c == '"' {
      Survives("&quot;");
    }
  }

  /** Text without markup characters passes the later replacements unchanged. */
  lemma Survives(s: string)
    requires NoMarkup(s)
    ensures Replace(s, '<', "&lt;") == Replace(s, '>', "&gt;") == Replace(s, '"', "&quot;") == Replace(s, '\'', "&#39;") == s
  {
    ReplaceAbsent(s, '<', "&lt;");
    ReplaceAbsent(s, '>', "&gt;");
    ReplaceAbsent(s, '"', "&quot;");
    ReplaceAbsent(s, '\'', "&#39;");
  }

  /** The chain never escapes its own output: it replaces each character once. */
  lemma {:induction false} ChainIsOnePass(s: string)
    ensures EscapeHtml(s) == Entities(s)
    decreases |s|
  {
    if s != "" {
      assert s == [s[0]] + s[1..];
      EscapeHtmlAppend([s[0]], s[1..]);
      EscapeHtmlOne(s[0]);
      ChainIsOnePass(s[1..]);
    }
  }

  /** An HTML reader's view of text with the five entities. */
  function DecodeHtml(t: string): string
    decreases |t|
  {
    if t == "" then ""
    else if "&amp;" <= t then "&" + DecodeHtml(t[5..])
    else if "&lt;" <= t then "<" + DecodeHtml(t[4..])
    else if "&gt;" <= t then ">" + DecodeHtml(t[4..])
    else if "&quot;" <= t then "\"" + DecodeHtml(t[6..])
    else if "&#39;" <= t then "'" + DecodeHtml(t[5..])
    else [t[0]] + DecodeHtml(t[1..])
  }

  lemma DecodeEntity(c: char, rest: string)
    ensures DecodeHtml(Entity(c) + rest) == [c] + DecodeHtml(rest)
  {
    var t := Entity(c) + rest;
    var e := Entity(c);
    assert t[|e|..] == rest;
    if c == '&' {
      assert "&amp;" <= t;
    } else if c == '<' {
      assert t[1] == 'l' && "&amp;"[1] == 'a';
    } else if c == '>' {
      assert t[1] == 'g' && "&amp;"[1] == 'a' && "&lt;"[1] == 'l';
    } else if c == '"' {
      assert t[1] == 'q' && "&amp;"[1] == 'a' && "&lt;"[1] == 'l' && "&gt;"[1] == 'g';
    } else if c == '\'' {
      assert t[1] == '#' && "&amp;"[1] == 'a' && "&lt;"[1] == 'l' && "&gt;"[1] == 'g' && "&quot;"[1] == 'q';
    } else {
      assert t[0] != '&';
    }
  }

  lemma {:induction false} EntitiesDecode(s: string)
    ensures DecodeHtml(Entities(s)) == s
    decreases |s|
  {
    if s != "" {
      DecodeEntity(s[0], Entities(s[1..]));
      EntitiesDecode(s[1..]);
      assert [s[0]] + s[1..] == s;
    }
  }

  predicate NoMarkup(s: string) {
    '<' !in s && '>' !in s && '"' !in s && '\'' !in s
  }

  lemma {:induction false} EntitiesHaveNoMarkup(s: string)
    ensures NoMarkup(Entities(s))
    decreases |s|
  {
    if s != "" {
      assert NoMarkup(Entity(s[0]));
      EntitiesHaveNoMarkup(s[1..]);
    }
  }

  /** Escaped text shows as the original and holds no markup character. */
  lemma HtmlRoundTrip(s: string)
    ensures DecodeHtml(EscapeHtml(s)) == s
    ensures NoMarkup(EscapeHtml(s))
  {
    ChainIsOnePass(s);
    EntitiesDecode(s);
    EntitiesHaveNoMarkup(s);
  }

  /** What every text is escaped to, character by character. */
  lemma EscapeHtmlIs(s: string, c: char)
    ensures EscapeHtml("") == ""
    ensures EscapeHtml(s + [c]) ==
            EscapeHtml(s) + match c
                            case '&' => "&amp;"
                            case '<' => "&lt;"
                            case '>' => "&gt;"
                            case '"' => "&quot;"
                            case '\'' => "&#39;"
                            case _ => [c]
  {
    EscapeHtmlAppend(s, [c]);
    EscapeHtmlOne(c);
  }

  // ---------------------------------------------------------------- JavaScript

  function JsEscape(c: char): string {
    match c
    case '\\' => "\\\\"
    case '\'' => "\\'"
    case '"' => "\\\""
    case '`' => "\\`"
    case '\n' => "\\n"
    case '\r' => "\\r"
    case '\t' => "\\t"
    case '\0' => "\\0"
    case _ => [c]
  }

  function JsEscapes(s: string): string {
    if s == "" then "" else JsEscape(s[0]) + JsEscapes(s[1..])
  }

  method EscapeJsString(s: string) returns (out: string)
    ensures out == JsEscapes(s)
  {
    EscapeJsIs("", ' ');
    hide JsEscapes, JsEscape;
    out := "";
    for k := 0 to |s|
      invariant out == JsEscapes(s[..k])
    {
      EscapesNext(s[..k], s[k]);
      assert s[..k + 1] == s[..k] + [s[k]];
      out := out + JsEscape(s[k]);
    }
    assert s[..|s|] == s;
  }

  lemma EscapesNext(s: string, c: char)
    ensures JsEscapes(s + [c]) == JsEscapes(s) + JsEscape(c)
  {
    EscapeJsIs(s, c);
  }

  /** What every text is escaped to, character by character. */
  lemma {:induction false} EscapeJsIs(s: string, c: char)
    ensures JsEscapes("") == ""
    ensures JsEscapes(s + [c]) ==
            JsEscapes(s) + match c
                           case '\\' => "\\\\"
                           case '\'' => "\\'"
                           case '"' => "\\\""
                           case '`' => "\\`"
                           case '\n' => "\\n"
                           case '\r' => "\\r"
                           case '\t' => "\\t"
                           case '\0' => "\\0"
                           case _ => [c]
    decreases |s|
  {
    if s == "" {
      assert s + [c] == [c] && [c][1..] == "";
    } else {
      assert (s + [c])[1..] == s[1..] + [c];
      EscapeJsIs(s[1..], c);
    }
  }

  lemma EscapesFirst(s: string)
    requires s != ""
    ensures JsEscapes(s) == JsEscape(s[0]) + JsEscapes(s[1..])
  {
  }

  /** The two kinds of literal the escaped text is put in: quoted, in sloppy mode, and template. */
  datatype Literal = Quoted | Template

  predicate IsOctal(c: char) { '0' <= c <= '7' }

  predicate IsDigit(c: char) { '0' <= c <= '9' }

  /** What an ECMAScript engine reads `\0` as (section 12.9.4 and annex B.1.2): NUL, unless a
      digit follows. In a quoted literal an octal digit makes it a legacy octal escape of up to three
      digits; in a template literal any digit is an error. Gives the character and its length. */
  function DecodeZero(kind: Literal, t: string): Option<(char, nat)>
    requires "\\0" <= t
  {
    if kind == Template then if |t| > 2 && IsDigit(t[2]) then None else Some(('\0', 2))
    else if |t| > 2 && IsOctal(t[2]) then
      var high := t[2] as int - '0' as int;
      if |t| > 3 && IsOctal(t[3]) then Some(((high * 8 + (t[3] as int - '0' as int)) as char, 4)) else Some((high as char, 3))
    else Some(('\0', 2))
  }

  function DecodeEscape(c: char): Option<char> {
    match c
    case '\\' => Some('\\')
    case '\'' => Some('\'')
    case '"' => Some('"')
    case '`' => Some('`')
    case 'n' => Some('\n')
    case 'r' => Some('\r')
    case 't' => Some('\t')
    case _ => None
  }

  function Prepend(s: string, rest: Option<string>): Option<string> {
    if rest.Some? then Some(s + rest.value) else None
  }

  /** The string value of a literal's body, or none if it is not one plain literal: a bare
      quote or line break would end it, and `${` would start a substitution. */
  function DecodeJs(kind: Literal, t: string): Option<string>
    decreases |t|
  {
    if t == "" then Some("")
    else if t[0] == '\'' || t[0] == '"' || t[0] == '`' || t[0] == '\n' || t[0] == '\r' then None
    else if kind == Template && "${" <= t then None
    else if t[0] != '\\' then Prepend([t[0]], DecodeJs(kind, t[1..]))
    else if |t| == 1 then None
    else if t[1] == '0' then
      var zero := DecodeZero(kind, t);
      if zero.None? then None else Prepend([zero.value.0], DecodeJs(kind, t[zero.value.1..]))
    else if DecodeEscape(t[1]).None? then None
    else Prepend([DecodeEscape(t[1]).value], DecodeJs(kind, t[2..]))
  }

  /** Two neighbouring characters that the escaper does not keep apart. */
  predicate Clash(kind: Literal, c: char, next: char) {
    match kind
    case Quoted => c == '\0' && IsOctal(next)
    case Template => (c == '\0' && IsDigit(next)) || (c == '$' && next == '{')
  }

  predicate Faithful(kind: Literal, s: string) {
    forall i, j :: 0 <= i < |s| && j == i + 1 && j < |s| ==> !Clash(kind, s[i], s[j])
  }

  lemma EscapesHead(s: string)
    ensures s != "" ==> JsEscapes(s) != ""
    ensures s != "" ==> JsEscapes(s)[0] == if |JsEscape(s[0])| == 1 then s[0] else '\\'
    ensures s != "" ==> (IsDigit(JsEscapes(s)[0]) <==> IsDigit(s[0])) && (JsEscapes(s)[0] == '{' <==> s[0] == '{')
    ensures s != "" && IsDigit(s[0]) ==> JsEscapes(s) == [s[0]] + JsEscapes(s[1..])
  {
  }

  lemma DecodePlain(kind: Literal, c: char, rest: string)
    requires JsEscape(c) == [c] && !(kind == Template && c == '$' && rest != "" && rest[0] == '{')
    ensures DecodeJs(kind, [c] + rest) == Prepend([c], DecodeJs(kind, rest))
  {
    var t := [c] + rest;
    assert t[0] == c && t[1..] == rest && |JsEscape(c)| == 1;
    assert c != '\\' && c != '\'' && c != '"' && c != '`' && c != '\n' && c != '\r';
    assert "${" <= t ==> t[1] == "${"[1] == rest[0];
  }

  lemma DecodeEscaped(kind: Literal, c: char, rest: string)
    requires JsEscape(c) != [c] && c != '\0'
    ensures DecodeJs(kind, JsEscape(c) + rest) == Prepend([c], DecodeJs(kind, rest))
  {
    var t := JsEscape(c) + rest;
    assert t[0] == '\\' && t[2..] == rest && DecodeEscape(t[1]) == Some(c);
  }

  lemma DecodeNul(kind: Literal, rest: string)
    requires rest != "" ==> !Clash(kind, '\0', rest[0])
    ensures DecodeJs(kind, "\\0" + rest) == Prepend(['\0'], DecodeJs(kind, rest))
  {
    var t := "\\0" + rest;
    assert t[0] == '\\' && t[1] == '0' && t[2..] == rest;
    assert DecodeZero(kind, t) == Some(('\0', 2));
  }

  /** Reading back one escaped character that clashes with nothing. */
  lemma DecodeOne(kind: Literal, s: string)
    requires s != "" && (|s| > 1 ==> !Clash(kind, s[0], s[1]))
    ensures DecodeJs(kind, JsEscapes(s)) == Prepend([s[0]], DecodeJs(kind, JsEscapes(s[1..])))
  {
    var rest := JsEscapes(s[1..]);
    EscapesFirst(s);
    EscapesHead(s[1..]);
    if s[0] == '\0' {
      DecodeNul(kind, rest);
    } else if JsEscape(s[0]) == [s[0]] {
      DecodePlain(kind, s[0], rest);
    } else {
      DecodeEscaped(kind, s[0], rest);
    }
  }

  lemma {:induction false} FaithfulDecodes(kind: Literal, s: string)
    requires Faithful(kind, s)
    ensures DecodeJs(kind, JsEscapes(s)) == Some(s)
    decreases |s|
  {
    if s != "" {
      DecodeOne(kind, s);
      FaithfulDecodes(kind, s[1..]);
      assert [s[0]] + s[1..] == s;
    }
  }

  /** NUL before a digit it clashes with swallows that digit, and perhaps one more. */
  lemma DecodeSwallows(s: string) returns (c: char, n: nat)
    requires |s| > 1 && s[0] == '\0' && IsOctal(s[1])
    ensures 1 < n <= |s| && DecodeJs(Quoted, JsEscapes(s)) == Prepend([c], DecodeJs(Quoted, JsEscapes(s[n..])))
    ensures IsDigit(s[1])
  {
    var t := JsEscapes(s);
    EscapesHead(s[1..]);
    assert s[1..][1..] == s[2..];
    assert t == "\\0" + ([s[1]] + JsEscapes(s[2..]));
    assert t[3..] == JsEscapes(s[2..]);
    n := 2;
    if |s| > 2 {
      EscapesHead(s[2..]);
      if IsOctal(s[2]) {
        assert s[2..][1..] == s[3..];
        assert t[4..] == JsEscapes(s[3..]);
        n := 3;
      }
    }
    c := DecodeZero(Quoted, t).value.0;
  }

  /** In a template literal a clash is no literal at all. */
  lemma DecodeFails(s: string)
    requires |s| > 1 && Clash(Template, s[0], s[1])
    ensures DecodeJs(Template, JsEscapes(s)).None?
  {
    EscapesHead(s[1..]);
    var t := JsEscapes(s);
    if s[0] == '\0' {
      assert t == "\\0" + JsEscapes(s[1..]) && t[2] == s[1];
    } else {
      assert t == "$" + JsEscapes(s[1..]) && t[1] == '{';
    }
  }

  lemma FaithfulTail(kind: Literal, s: string)
    requires s != "" && (|s| > 1 ==> !Clash(kind, s[0], s[1]))
    ensures Faithful(kind, s) <==> Faithful(kind, s[1..])
  {
    var tail := s[1..];
    if Faithful(kind, tail) {
      forall i, j | 0 <= i < |s| && j == i + 1 && j < |s| ensures !Clash(kind, s[i], s[j]) {
        if i > 0 {
          assert !Clash(kind, tail[i - 1], tail[j - 1]);
        }
      }
    }
  }

  /** A clash never reads back as the text: it is no literal, or its value is too short. */
  lemma {:induction false} ClashShortens(kind: Literal, s: string)
    ensures DecodeJs(kind, JsEscapes(s)).Some? ==> |DecodeJs(kind, JsEscapes(s)).value| <= |s|
    ensures DecodeJs(kind, JsEscapes(s)).Some? && !Faithful(kind, s) ==> |DecodeJs(kind, JsEscapes(s)).value| < |s|
    decreases |s|
  {
    if |s| > 1 && Clash(kind, s[0], s[1]) {
      if kind == Quoted {
        var c, n := DecodeSwallows(s);
        ClashShortens(kind, s[n..]);
      } else {
        DecodeFails(s);
      }
    } else if s != "" {
      DecodeOne(kind, s);
      FaithfulTail(kind, s);
      ClashShortens(kind, s[1..]);
    }
  }

  /** The engine reads the escaped text back as the original exactly when no NUL stands before
      an octal digit (quoted literals), or no NUL before a digit and no `${` (template literals). */
  lemma JsRoundTripIff(kind: Literal, s: string)
    ensures DecodeJs(kind, JsEscapes(s)) == Some(s) <==> Faithful(kind, s)
  {
    if Faithful(kind, s) {
      FaithfulDecodes(kind, s);
    } else {
      ClashShortens(kind, s);
    }
  }
}
