/**
 * The parser's scalar coercion `convertValue` (js/parser.js:86-109), applied
 * to the trimmed text of every XML text node: the three JavaScript literals,
 * the empty string, digit strings (`parseInt`), decimal strings
 * `^\d*\.\d+$` (`parseFloat`), and every other text kept as it is. The
 * ISO-date test returns the text unchanged, like the fall-through, so it
 * needs no branch of its own.
 */
module ParserValue {
  import opened JsValues

  /** `^\d*\.\d+$`: the digits before the point and the non-empty digits after it. */
  function DecimalParts(s: string): (r: Option<(string, string)>)
    ensures r.Some? ==> s == r.value.0 + "." + r.value.1
    ensures r.Some? ==> AllDigits(r.value.0) && AllDigits(r.value.1) && |r.value.1| > 0
  {
    if s == [] then None
    else if s[0] == '.' then
      if |s| > 1 && AllDigits(s[1..]) then Some(([], s[1..])) else None
    else if IsDigit(s[0]) then
      match DecimalParts(s[1..])
      case Some((whole, fraction)) => Some(([s[0]] + whole, fraction))
      case None => None
    else None
  }

  /** Every text of the decimal shape is recognised, split at its point. */
  lemma {:induction false} DecimalPartsComplete(whole: string, fraction: string)
    requires AllDigits(whole) && AllDigits(fraction) && |fraction| > 0
    ensures DecimalParts(whole + "." + fraction) == Some((whole, fraction))
  {
    var s := whole + "." + fraction;
    if whole == [] {
      assert s == "." + fraction && s[0] == '.' && s[1..] == fraction;
    } else {
      assert s[0] == whole[0] && s[1..] == whole[1..] + "." + fraction;
      DecimalPartsComplete(whole[1..], fraction);
      assert [whole[0]] + whole[1..] == whole;
    }
  }

  /** The fraction digits `parseFloat` keeps: trailing zeros carry no value. */
  function StripTrailingZeros(f: string): (r: string)
    ensures |r| <= |f| && r == f[..|r|]
    ensures r == [] || r[|r| - 1] != '0'
  {
    if f != [] && f[|f| - 1] == '0' then StripTrailingZeros(f[..|f| - 1]) else f
  }

  /** `parseFloat` of `whole.fraction`: an integer when the fraction is all zeros. */
  function DecimalNumber(whole: string, fraction: string): Value
    requires AllDigits(whole) && AllDigits(fraction)
  {
    var kept := StripTrailingZeros(fraction);
    if kept == [] then Int(ParseDigits(whole)) else Dec(false, ParseDigits(whole), kept)
  }

  /** `convertValue(value)` for a string: the coercion of its trimmed text. */
  function ConvertValue(value: string): Value
  {
    ConvertTrimmedText(Trim(value))
  }

  /** The tests of `convertValue` on the already trimmed text `t`, in the source's order. */
  function ConvertTrimmedText(t: string): Value
  {
    if t == "true" then Bool(true)
    else if t == "false" then Bool(false)
    else if t == "null" then Null
    else if t == [] then Str([])
    else if AllDigits(t) then Int(ParseDigits(t))
    else match DecimalParts(t)
      case Some((whole, fraction)) => DecimalNumber(whole, fraction)
      case None => Str(t)
  }

  /** A text that starts and ends with a visible character is its own trim. */
  lemma TrimBounded(s: string)
    requires s != [] ==> !IsJsSpace(s[0]) && !IsJsSpace(s[|s| - 1])
    ensures Trim(s) == s
  {
  }

  /** Such a text is coerced as it stands. */
  lemma ConvertVisible(s: string)
    requires s != [] ==> !IsJsSpace(s[0]) && !IsJsSpace(s[|s| - 1])
    ensures ConvertValue(s) == ConvertTrimmedText(s)
  {
    TrimBounded(s);
  }

  lemma TrimTwice(s: string)
    ensures Trim(Trim(s)) == Trim(s)
  {
    TrimBounded(Trim(s));
  }

  /**
   * The kinds `convertValue` produces: never an array or an object, a
   * number never negative, and a string only for the trimmed text itself.
   */
  lemma ConvertValueKinds(value: string)
    ensures var r := ConvertValue(value);
      && !IsContainer(r)
      && (r.Int? ==> r.integer >= 0)
      && (r.Dec? ==> !r.negative && r.fraction != [] && AllDigits(r.fraction) && r.fraction[|r.fraction| - 1] != '0')
      && (r.Str? ==> r.text == Trim(value))
  {
    TrimmedTextKinds(Trim(value));
  }

  lemma TrimmedTextKinds(t: string)
    ensures var r := ConvertTrimmedText(t);
      && !IsContainer(r)
      && (r.Int? ==> r.integer >= 0)
      && (r.Dec? ==> !r.negative && r.fraction != [] && AllDigits(r.fraction) && r.fraction[|r.fraction| - 1] != '0')
      && (r.Str? ==> r.text == t)
  {
    if t == "true" || t == "false" || t == "null" || t == [] || AllDigits(t) {
    } else {
      match DecimalParts(t)
      case Some((whole, fraction)) => DecimalNumberKinds(whole, fraction);
      case None =>
    }
  }

  lemma DecimalNumberKinds(whole: string, fraction: string)
    requires AllDigits(whole) && AllDigits(fraction)
    ensures var r := DecimalNumber(whole, fraction);
      || (r.Int? && r.integer >= 0)
      || (r.Dec? && !r.negative && r.fraction != [] && AllDigits(r.fraction) && r.fraction[|r.fraction| - 1] != '0')
  {
    var kept := StripTrailingZeros(fraction);
    assert forall i :: 0 <= i < |kept| ==> kept[i] == fraction[i];
  }

  /** A digit string becomes the integer it denotes; a signed number such as `-5` stays a string. */
  lemma DigitsBecomeIntegers(value: string)
    requires Trim(value) != [] && AllDigits(Trim(value))
    ensures ConvertValue(value) == Int(ParseDigits(Trim(value)))
  {
    var t := Trim(value);
    assert IsDigit(t[0]);
    assert t != "true" && t != "false" && t != "null" by {
      assert "true"[0] == 't' && "false"[0] == 'f' && "null"[0] == 'n';
    }
  }

  lemma NegativeStaysText()
    ensures ConvertValue("-5") == Str("-5")
  {
    var s := "-5";
    assert s[0] == '-' && s[1] == '5';
    TrimBounded(s);
    assert !AllDigits(s) by { assert !IsDigit(s[0]); }
    assert DecimalParts(s).None?;
  }

  /** The text `String(n)` of a natural number reads back as that number. */
  lemma NumeralBack(n: nat)
    ensures ConvertValue(JsString(Int(n))) == Int(n)
  {
    var s := NatToString(n);
    assert IsDigit(s[0]) && IsDigit(s[|s| - 1]);
    TrimBounded(s);
    assert s != "true" && s != "false" && s != "null" by {
      assert IsDigit(s[0]);
    }
    ParseNatToString(n);
  }

  /** The text `String(x)` of a decimal from `parseFloat` reads back as that decimal. */
  lemma DecimalBack(whole: nat, fraction: string)
    requires fraction != [] && AllDigits(fraction) && fraction[|fraction| - 1] != '0'
    ensures ConvertValue(JsString(Dec(false, whole, fraction))) == Dec(false, whole, fraction)
  {
    var w := NatToString(whole);
    var s := w + "." + fraction;
    assert JsString(Dec(false, whole, fraction)) == s;
    assert s[0] == w[0] && s[|s| - 1] == fraction[|fraction| - 1];
    ConvertVisible(s);
    assert s != "true" && s != "false" && s != "null" by {
      assert IsDigit(s[0]);
    }
    assert !AllDigits(s) by {
      assert s[|w|] == '.';
    }
    DecimalPartsComplete(w, fraction);
    ParseNatToString(whole);
  }

  /** A text that is neither a literal nor a number is its own coercion once trimmed. */
  lemma TextBack(value: string)
    requires ConvertValue(value).Str?
    ensures ConvertValue(JsString(ConvertValue(value))) == ConvertValue(value)
  {
    ConvertValueKinds(value);
    ConvertTrimmed(value);
  }

  /** Coercion trims first, so trimming beforehand changes nothing. */
  lemma ConvertTrimmed(value: string)
    ensures ConvertValue(Trim(value)) == ConvertValue(value)
  {
    TrimTwice(value);
  }

  /**
   * Coercion is stable: writing a coerced value back as text with `String`
   * and coercing that text again gives the same value.
   */
  lemma ConvertValueStable(value: string)
    ensures ConvertValue(JsString(ConvertValue(value))) == ConvertValue(value)
  {
    var r := ConvertValue(value);
    ConvertValueKinds(value);
    match r
    case Int(n) => NumeralBack(n);
    case Dec(_, whole, fraction) => DecimalBack(whole, fraction);
    case Str(_) => TextBack(value);
    case Bool(b) =>
      if b { LiteralBack("true"); } else { LiteralBack("false"); }
    case Null => LiteralBack("null");
  }

  lemma LiteralBack(word: string)
    requires word == "true" || word == "false" || word == "null"
    ensures ConvertValue(word) == (if word == "true" then Bool(true) else if word == "false" then Bool(false) else Null)
  {
    assert word[0] in "tfn" && word[|word| - 1] in "eal";
    TrimBounded(word);
  }
}
