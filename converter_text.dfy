/**
 * The converter's two text helpers. `sanitizeXmlNodeName` turns a key into
 * something shaped like an element name: every character outside
 * `[A-Za-z0-9_-]` becomes `_`, a leading digit gets a `_` in front, and
 * the empty string becomes `node`. `escapeXml` chains five `replace` calls,
 * `&` first, and computes exactly the one-pass escaping of `XmlEscape`.
 */
module ConverterText {
  import opened JsValues
  import XmlEscape

  // ---------------------------------------------------------------------
  // Element names

  /** The characters `[a-zA-Z0-9_-]` that the sanitiser keeps. */
  predicate IsNameChar(c: char) { IsAsciiLetter(c) || IsDigit(c) || c == '_' || c == '-' }

  /** `name.replace(/[^a-zA-Z0-9_-]/g, '_')`. */
  function ReplaceNonNameChars(s: string): string
  {
    if s == [] then [] else [if IsNameChar(s[0]) then s[0] else '_'] + ReplaceNonNameChars(s[1..])
  }

  /** Each character outside `[a-zA-Z0-9_-]` is replaced by `_`, and only those. */
  lemma {:induction false} ReplaceNonNameCharsSpec(s: string)
    ensures |ReplaceNonNameChars(s)| == |s|
    ensures forall i :: 0 <= i < |s| ==> ReplaceNonNameChars(s)[i] == (if IsNameChar(s[i]) then s[i] else '_')
  {
    if s != [] {
      ReplaceNonNameCharsSpec(s[1..]);
    }
  }

  /** Names the sanitiser produces: non-empty, over `[A-Za-z0-9_-]`, not starting with a digit. */
  predicate IsSanitized(s: string)
  {
    |s| > 0 && !IsDigit(s[0]) && forall i :: 0 <= i < |s| ==> IsNameChar(s[i])
  }

  /** `sanitizeXmlNodeName(name)`; a key is always a string, so `String(name)` is not needed. */
  function SanitizeXmlNodeName(name: string): string
  {
    var replaced := ReplaceNonNameChars(name);
    var prefixed := if |replaced| > 0 && IsDigit(replaced[0]) then "_" + replaced else replaced;
    if prefixed == [] then "node" else prefixed
  }

  /** The sanitized name is non-empty, over `[A-Za-z0-9_-]`, and does not start with a digit. */
  lemma SanitizeIsName(name: string)
    ensures IsSanitized(SanitizeXmlNodeName(name))
  {
    var replaced := ReplaceNonNameChars(name);
    ReplaceNonNameCharsSpec(name);
    if |replaced| > 0 && IsDigit(replaced[0]) {
      var prefixed := "_" + replaced;
      assert forall i :: 1 <= i < |prefixed| ==> prefixed[i] == replaced[i - 1];
    } else if replaced == [] {
      var node := "node";
      assert node[0] == 'n' && node[1] == 'o' && node[2] == 'd' && node[3] == 'e';
    }
  }

  /** A name that is already sanitized comes back unchanged. */
  lemma SanitizedFixed(s: string)
    requires IsSanitized(s)
    ensures SanitizeXmlNodeName(s) == s
  {
    ReplaceNonNameCharsSpec(s);
    assert ReplaceNonNameChars(s) == s;
  }

  /** Sanitizing twice is sanitizing once. */
  lemma SanitizeIdempotent(name: string)
    ensures SanitizeXmlNodeName(SanitizeXmlNodeName(name)) == SanitizeXmlNodeName(name)
  {
    SanitizeIsName(name);
    SanitizedFixed(SanitizeXmlNodeName(name));
  }

  /** Names that already match `[A-Za-z0-9_-]+` and do not start with a digit pass through. */
  lemma SanitizeKeepsNames(name: string)
    ensures SanitizeXmlNodeName(name) == name <==> IsSanitized(name)
  {
    SanitizeIsName(name);
    if IsSanitized(name) {
      SanitizedFixed(name);
    }
  }

  /**
   * A leading `-` survives, although section 2.3 of XML 1.0 does not allow
   * a name to start with it: `-id` is kept as it is.
   */
  lemma LeadingHyphenKept()
    ensures SanitizeXmlNodeName("-id") == "-id"
  {
    SanitizedFixed("-id");
  }

  // ---------------------------------------------------------------------
  // Escaping

  /** `escapeXml(text)`: `&`, then `<`, `>`, `"` and `'`, each replaced in turn over the whole text. */
  function EscapeChain(s: string): string
  {
    var amp := ReplaceChar(s, '&', "&amp;");
    var lt := ReplaceChar(amp, '<', "&lt;");
    var gt := ReplaceChar(lt, '>', "&gt;");
    var quot := ReplaceChar(gt, '"', "&quot;");
    ReplaceChar(quot, '\'', "&#39;")
  }

  lemma {:induction false} ReplaceCharAppend(a: string, b: string, c: char, rep: string)
    ensures ReplaceChar(a + b, c, rep) == ReplaceChar(a, c, rep) + ReplaceChar(b, c, rep)
  {
    if a != [] {
      assert (a + b)[0] == a[0] && (a + b)[1..] == a[1..] + b;
      ReplaceCharAppend(a[1..], b, c, rep);
    } else {
      assert a + b == b;
    }
  }

  lemma {:induction false} ReplaceCharAbsent(s: string, c: char, rep: string)
    requires c !in s
    ensures ReplaceChar(s, c, rep) == s
  {
    if s != [] {
      assert s[0] in s;
      assert forall d :: d in s[1..] ==> d in s;
      ReplaceCharAbsent(s[1..], c, rep);
    }
  }

  /** The chain splits at any point of its input. */
  lemma EscapeChainAppend(a: string, b: string)
    ensures EscapeChain(a + b) == EscapeChain(a) + EscapeChain(b)
  {
    var amp := ReplaceChar(a + b, '&', "&amp;");
    ReplaceCharAppend(a, b, '&', "&amp;");
    var a1, b1 := ReplaceChar(a, '&', "&amp;"), ReplaceChar(b, '&', "&amp;");
    ReplaceCharAppend(a1, b1, '<', "&lt;");
    var a2, b2 := ReplaceChar(a1, '<', "&lt;"), ReplaceChar(b1, '<', "&lt;");
    ReplaceCharAppend(a2, b2, '>', "&gt;");
    var a3, b3 := ReplaceChar(a2, '>', "&gt;"), ReplaceChar(b2, '>', "&gt;");
    ReplaceCharAppend(a3, b3, '"', "&quot;");
    var a4, b4 := ReplaceChar(a3, '"', "&quot;"), ReplaceChar(b3, '"', "&quot;");
    ReplaceCharAppend(a4, b4, '\'', "&#39;");
  }

  lemma ReplaceCharOne(c: char, d: char, rep: string)
    ensures ReplaceChar([c], d, rep) == if c == d then rep else [c]
  {
    assert [c][1..] == [];
  }

  /** Later replacements find nothing to replace in an entity inserted earlier. */
  lemma ReplaceRest(e: string, c1: char, c2: char, c3: char, c4: char)
    requires c1 !in e && c2 !in e && c3 !in e && c4 !in e
    ensures ReplaceChar(ReplaceChar(ReplaceChar(ReplaceChar(e, c1, "&lt;"), c2, "&gt;"), c3, "&quot;"), c4, "&#39;") == e
  {
    ReplaceCharAbsent(e, c1, "&lt;");
    ReplaceCharAbsent(e, c2, "&gt;");
    ReplaceCharAbsent(e, c3, "&quot;");
    ReplaceCharAbsent(e, c4, "&#39;");
  }

  lemma ReplaceRest3(e: string, c2: char, c3: char, c4: char)
    requires c2 !in e && c3 !in e && c4 !in e
    ensures ReplaceChar(ReplaceChar(ReplaceChar(e, c2, "&gt;"), c3, "&quot;"), c4, "&#39;") == e
  {
    ReplaceCharAbsent(e, c2, "&gt;");
    ReplaceCharAbsent(e, c3, "&quot;");
    ReplaceCharAbsent(e, c4, "&#39;");
  }

  lemma ReplaceRest2(e: string, c3: char, c4: char)
    requires c3 !in e && c4 !in e
    ensures ReplaceChar(ReplaceChar(e, c3, "&quot;"), c4, "&#39;") == e
  {
    ReplaceCharAbsent(e, c3, "&quot;");
    ReplaceCharAbsent(e, c4, "&#39;");
  }

  lemma EscapeChainAmp()
    ensures EscapeChain("&") == "&amp;"
  {
    ReplaceCharOne('&', '&', "&amp;");
    var e := "&amp;";
    assert e[0] == '&' && e[1] == 'a' && e[2] == 'm' && e[3] == 'p' && e[4] == ';';
    ReplaceRest(e, '<', '>', '"', '\'');
  }

  lemma EscapeChainLt()
    ensures EscapeChain("<") == "&lt;"
  {
    ReplaceCharOne('<', '&', "&amp;");
    ReplaceCharOne('<', '<', "&lt;");
    var e := "&lt;";
    assert e[0] == '&' && e[1] == 'l' && e[2] == 't' && e[3] == ';';
    ReplaceRest3(e, '>', '"', '\'');
  }

  lemma EscapeChainGt()
    ensures EscapeChain(">") == "&gt;"
  {
    ReplaceCharOne('>', '&', "&amp;");
    ReplaceCharOne('>', '<', "&lt;");
    ReplaceCharOne('>', '>', "&gt;");
    var e := "&gt;";
    assert e[0] == '&' && e[1] == 'g' && e[2] == 't' && e[3] == ';';
    ReplaceRest2(e, '"', '\'');
  }

  lemma EscapeChainQuot()
    ensures EscapeChain("\"") == "&quot;"
  {
    ReplaceCharOne('"', '&', "&amp;");
    ReplaceCharOne('"', '<', "&lt;");
    ReplaceCharOne('"', '>', "&gt;");
    ReplaceCharOne('"', '"', "&quot;");
    var e := "&quot;";
    assert e[0] == '&' && e[1] == 'q' && e[2] == 'u' && e[3] == 'o' && e[4] == 't' && e[5] == ';';
    ReplaceCharAbsent(e, '\'', "&#39;");
  }

  lemma EscapeChainApos()
    ensures EscapeChain("'") == "&#39;"
  {
    ReplaceCharOne('\'', '&', "&amp;");
    ReplaceCharOne('\'', '<', "&lt;");
    ReplaceCharOne('\'', '>', "&gt;");
    ReplaceCharOne('\'', '"', "&quot;");
    ReplaceCharOne('\'', '\'', "&#39;");
  }

  lemma EscapeChainPlain(c: char)
    requires !XmlEscape.IsMarkupChar(c) && c != '&'
    ensures EscapeChain([c]) == [c]
  {
    ReplaceCharOne(c, '&', "&amp;");
    ReplaceCharOne(c, '<', "&lt;");
    ReplaceCharOne(c, '>', "&gt;");
    ReplaceCharOne(c, '"', "&quot;");
    ReplaceCharOne(c, '\'', "&#39;");
  }

  /** On one character the chain gives that character's entity, `&` never escaped twice. */
  lemma EscapeChainChar(c: char)
    ensures EscapeChain([c]) == XmlEscape.EscapeChar(c)
  {
    match c
    case '&' => EscapeChainAmp();
    case '<' => EscapeChainLt();
    case '>' => EscapeChainGt();
    case '"' => EscapeChainQuot();
    case '\'' => EscapeChainApos();
    case _ => EscapeChainPlain(c);
  }

  /** The five chained replacements compute the one-pass escaping. */
  lemma {:induction false} EscapeChainIsEscape(s: string)
    ensures EscapeChain(s) == XmlEscape.EscapeXml(s)
  {
    if s == [] {
      assert EscapeChain(s) == [];
    } else {
      assert s == [s[0]] + s[1..];
      EscapeChainAppend([s[0]], s[1..]);
      EscapeChainChar(s[0]);
      EscapeChainIsEscape(s[1..]);
    }
  }

  /** What `escapeXml` promises: no `<`, `>`, `"` or `'` is left, and unescaping gives the text back. */
  lemma EscapeChainSound(s: string)
    ensures forall i :: 0 <= i < |EscapeChain(s)| ==> !XmlEscape.IsMarkupChar(EscapeChain(s)[i])
    ensures XmlEscape.UnescapeXml(EscapeChain(s)) == s
  {
    EscapeChainIsEscape(s);
    XmlEscape.EscapedHasNoMarkup(s);
    XmlEscape.UnescapeEscape(s);
  }
}
