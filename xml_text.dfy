/**
 * Escaping of character data for XML, shared by the two serialisers: each
 * of the five characters that XML 1.0 (section 4.6) gives predefined
 * entities for is replaced by its entity reference, every other character
 * is kept. This is the parser's one-pass `escapeXML`; the converter's chain
 * of five `replace` calls is proved to compute the same text.
 */
module XmlEscape {
  import opened JsValues

  /** The replacement of one character: `&lt;`, `&gt;`, `&amp;`, `&#39;`, `&quot;`, or the character itself. */
  function EscapeChar(c: char): string
  {
    match c
    case '<' => "&lt;"
    case '>' => "&gt;"
    case '&' => "&amp;"
    case '\'' => "&#39;"
    case '"' => "&quot;"
    case _ => [c]
  }

  /** `text.replace(/[<>&'"]/g, ...)`: every character replaced in one left-to-right pass. */
  function EscapeXml(s: string): string
  {
    if s == [] then [] else EscapeChar(s[0]) + EscapeXml(s[1..])
  }

  /** The characters that may not stand unescaped in the output. */
  predicate IsMarkupChar(c: char) { c == '<' || c == '>' || c == '"' || c == '\'' }

  /** Reading the five entity references back; any other character stands for itself. */
  function UnescapeXml(t: string): string
    decreases |t|
  {
    if t == [] then []
    else match EntityAt(t)
      case Some((c, n)) => [c] + UnescapeXml(t[n..])
      case None => [t[0]] + UnescapeXml(t[1..])
  }

  /** The character an entity reference at the start of `t` stands for, and the reference's length. */
  function EntityAt(t: string): (r: Option<(char, nat)>)
    ensures r.Some? ==> 0 < r.value.1 <= |t|
  {
    if |t| < 4 || t[0] != '&' then None
    else if t[1] == 'l' && t[2] == 't' && t[3] == ';' then Some(('<', 4))
    else if t[1] == 'g' && t[2] == 't' && t[3] == ';' then Some(('>', 4))
    else if |t| < 5 then None
    else if t[1] == 'a' && t[2] == 'm' && t[3] == 'p' && t[4] == ';' then Some(('&', 5))
    else if t[1] == '#' && t[2] == '3' && t[3] == '9' && t[4] == ';' then Some(('\'', 5))
    else if |t| >= 6 && t[1] == 'q' && t[2] == 'u' && t[3] == 'o' && t[4] == 't' && t[5] == ';' then Some(('"', 6))
    else None
  }

  lemma EscapeCharNoMarkup(c: char)
    ensures forall i :: 0 <= i < |EscapeChar(c)| ==> !IsMarkupChar(EscapeChar(c)[i])
  {
  }

  /** Escaped text holds none of `<`, `>`, `"` and `'`. */
  lemma {:induction false} EscapedHasNoMarkup(s: string)
    ensures forall i :: 0 <= i < |EscapeXml(s)| ==> !IsMarkupChar(EscapeXml(s)[i])
  {
    if s != [] {
      EscapeCharNoMarkup(s[0]);
      EscapedHasNoMarkup(s[1..]);
      var head := EscapeChar(s[0]);
      var tail := EscapeXml(s[1..]);
      forall i | 0 <= i < |head + tail| ensures !IsMarkupChar((head + tail)[i]) {
        if i >= |head| {
          assert (head + tail)[i] == tail[i - |head|];
        }
      }
    }
  }

  /** Text without special characters is left as it is. */
  lemma {:induction false} EscapePlain(s: string)
    requires forall i :: 0 <= i < |s| ==> !IsMarkupChar(s[i]) && s[i] != '&'
    ensures EscapeXml(s) == s
  {
    if s != [] {
      EscapePlain(s[1..]);
    }
  }

  /** Unescaping one escaped character yields that character, whatever follows. */
  lemma UnescapeOne(c: char, rest: string)
    ensures UnescapeXml(EscapeChar(c) + rest) == [c] + UnescapeXml(rest)
  {
    if IsMarkupChar(c) || c == '&' {
      UnescapeEntity(EscapeChar(c), c, rest);
    } else {
      var t := [c] + rest;
      assert t[1..] == rest;
    }
  }

  lemma UnescapeEntity(e: string, c: char, rest: string)
    requires e == EscapeChar(c) && (IsMarkupChar(c) || c == '&')
    ensures UnescapeXml(e + rest) == [c] + UnescapeXml(rest)
  {
    var t := e + rest;
    assert t[|e|..] == rest;
    assert forall i :: 0 <= i < |e| ==> t[i] == e[i];
    assert EntityAt(t) == Some((c, |e|));
  }

  /** Unescaping the five entities gives back the original text. */
  lemma {:induction false} UnescapeEscape(s: string)
    ensures UnescapeXml(EscapeXml(s)) == s
  {
    if s != [] {
      UnescapeOne(s[0], EscapeXml(s[1..]));
      UnescapeEscape(s[1..]);
    }
  }

  /** Escaping never loses text: distinct inputs give distinct outputs. */
  lemma EscapeInjective(s: string, t: string)
    requires EscapeXml(s) == EscapeXml(t)
    ensures s == t
  {
    UnescapeEscape(s);
    UnescapeEscape(t);
  }

  lemma {:induction false} EscapeAppend(a: string, b: string)
    ensures EscapeXml(a + b) == EscapeXml(a) + EscapeXml(b)
  {
    if a != [] {
      assert (a + b)[0] == a[0] && (a + b)[1..] == a[1..] + b;
      EscapeAppend(a[1..], b);
    } else {
      assert a + b == b;
    }
  }
}
