/**
 * The parser's XML writer `objectToXML` (js/parser.js:137-180) and the
 * `formatData`/`minifyData` dispatch built on it (js/parser.js:111-135).
 * `ObjectXml` specifies the text, or the error thrown, for a value under a
 * root name; the methods build it with `xml +=` as the source does.
 *
 * `escapeXML` is applied to values read back from the object, and it calls
 * `text.replace`: anything that is not a string there (a number, a boolean
 * or `null` under `#text` or among the attributes) throws a `TypeError`,
 * which the model carries as a `Failure`. So does the `obj.hasOwnProperty(key)`
 * call of the key loop on an object with an own `hasOwnProperty` entry.
 */
module ParserText {
  import opened JsValues
  import XmlEscape
  import ParserXml
  import ParserFormat

  /** The `TypeError` thrown when `escapeXML` is handed something other than a string. */
  function ReplaceError(v: Value): string
  {
    if v.Null? then "Cannot read properties of null (reading 'replace')" else "text.replace is not a function"
  }

  /** `escapeXML(v)` on a value read back from the object. */
  function EscapeValue(v: Value): (r: Result<string>)
    ensures r.Success? <==> v.Str?
    ensures v.Str? ==> r.value == XmlEscape.EscapeXml(v.text)
  {
    if v.Str? then Success(XmlEscape.EscapeXml(v.text)) else Failure(ReplaceError(v))
  }

  function Tagged(key: string, text: string): string
  {
    "<" + key + ">" + text + "</" + key + ">"
  }

  /** The key `for (const key in obj)` gives child `i`: the index for an array, the key for an object. */
  function ChildKey(v: Value, i: nat): string
    requires i < ChildCount(v)
  {
    if v.Arr? then NatToString(i) else v.entries[i].0
  }

  /** The two keys `objectToXML` passes over. */
  predicate Skipped(key: string)
  {
    key == ParserXml.AttributesKey || key == ParserXml.TextKey
  }

  // ---------------------------------------------------------------------
  // `.replace(/<\/?root>/g, '')`

  const RootOpen := "<root>"
  const RootClose := "</root>"

  /** Every `<root>` and `</root>`, found left to right without rescanning, removed. */
  function RemoveRootTags(s: string): (r: string)
    ensures |r| <= |s|
    decreases |s|
  {
    if s == [] then []
    else if StartsWith(s, RootOpen) then RemoveRootTags(s[|RootOpen|..])
    else if StartsWith(s, RootClose) then RemoveRootTags(s[|RootClose|..])
    else [s[0]] + RemoveRootTags(s[1..])
  }

  /** Text holding neither tag is left as it is. */
  lemma {:induction false} RemoveRootTagsPlain(s: string)
    requires forall i :: 0 <= i < |s| ==> !OccursAt(s, RootOpen, i) && !OccursAt(s, RootClose, i)
    ensures RemoveRootTags(s) == s
    decreases |s|
  {
    if s != [] {
      assert !OccursAt(s, RootOpen, 0) && !OccursAt(s, RootClose, 0);
      forall i | 0 <= i < |s[1..]|
        ensures !OccursAt(s[1..], RootOpen, i) && !OccursAt(s[1..], RootClose, i)
      {
        assert !OccursAt(s, RootOpen, i + 1) && !OccursAt(s, RootClose, i + 1);
        assert |RootOpen| == 6 && |RootClose| == 7;
        if i + 6 <= |s[1..]| { assert s[1..][i..i + 6] == s[i + 1..i + 7]; }
        if i + 7 <= |s[1..]| { assert s[1..][i..i + 7] == s[i + 1..i + 8]; }
      }
      RemoveRootTagsPlain(s[1..]);
    }
  }

  // ---------------------------------------------------------------------
  // The text `objectToXML` writes

  /** `objectToXML(obj, rootName)`: the text, or the error thrown while writing it. */
  function ObjectXml(v: Value, rootName: string): Result<string>
    decreases v, 2
  {
    if !IsContainer(v) then Success(Tagged(rootName, XmlEscape.EscapeXml(JsString(v))))
    else MembersXml(v, ChildCount(v))
  }

  /** `obj.hasOwnProperty` on an array or object is not the inherited method. */
  predicate KeyTestThrows(v: Value)
  {
    v.Obj? && HidesHasOwnProperty(v.entries)
  }

  /**
   * The text of the first `k` keys of an array or object, in order; the
   * first error stops it. Each key is first tested with `obj.hasOwnProperty`.
   */
  function MembersXml(v: Value, k: nat): Result<string>
    requires IsContainer(v) && k <= ChildCount(v)
    decreases v, 1, k
  {
    if k == 0 then Success([])
    else match MembersXml(v, k - 1)
      case Failure(e) => Failure(e)
      case Success(xml) =>
        if KeyTestThrows(v) then Failure(HasOwnPropertyError)
        else if Skipped(ChildKey(v, k - 1)) then Success(xml)
        else match MemberXml(ChildKey(v, k - 1), Child(v, k - 1))
          case Failure(e) => Failure(e)
          case Success(m) => Success(xml + m)
  }

  /**
   * One key: an array writes each item under the key; an object writes an
   * element with its attributes and either its `#text` or its own members
   * with every root tag removed; anything else writes its escaped `String`.
   */
  function MemberXml(key: string, value: Value): Result<string>
    decreases value, 3
  {
    if value.Arr? then ItemsXml(value, key, |value.items|)
    else if value.Obj? then
      match AttributesXml(value.entries)
      case Failure(e) => Failure(e)
      case Success(attributes) =>
        match Lookup(value.entries, ParserXml.TextKey)
        case Some(text) =>
          (match EscapeValue(text)
           case Failure(e) => Failure(e)
           case Success(t) => Success("<" + key + attributes + ">" + t + "</" + key + ">"))
        case None =>
          (match ObjectXml(value, "root")
           case Failure(e) => Failure(e)
           case Success(inner) => Success("<" + key + attributes + ">" + RemoveRootTags(inner) + "</" + key + ">"))
    else Success(Tagged(key, XmlEscape.EscapeXml(JsString(value))))
  }

  /** `for (const item of value) xml += this.objectToXML(item, key)` over the first `k` items. */
  function ItemsXml(value: Value, key: string, k: nat): Result<string>
    requires value.Arr? && k <= |value.items|
    decreases value, 1, k
  {
    if k == 0 then Success([])
    else match ItemsXml(value, key, k - 1)
      case Failure(e) => Failure(e)
      case Success(xml) =>
        match ObjectXml(value.items[k - 1], key)
        case Failure(e) => Failure(e)
        case Success(item) => Success(xml + item)
  }

  /** The attribute text of an object: its `@attributes` when that value is truthy. */
  function AttributesXml(entries: seq<(string, Value)>): Result<string>
  {
    match Lookup(entries, ParserXml.AttributesKey)
    case None => Success([])
    case Some(attributes) =>
      if !Truthy(attributes) then Success([])
      else
        var pairs := Entries(attributes).value;
        AttributeListXml(pairs, |pairs|)
  }

  /** ` name="escaped value"` for the first `k` attributes; a value that is not a string throws. */
  function AttributeListXml(pairs: seq<(string, Value)>, k: nat): Result<string>
    requires k <= |pairs|
  {
    if k == 0 then Success([])
    else match AttributeListXml(pairs, k - 1)
      case Failure(e) => Failure(e)
      case Success(xml) =>
        match EscapeValue(pairs[k - 1].1)
        case Failure(e) => Failure(e)
        case Success(t) => Success(xml + " " + pairs[k - 1].0 + "=\"" + t + "\"")
  }

  // ---------------------------------------------------------------------
  // The writer as the source runs it

  /** `objectToXML(obj, rootName)`. */
  method ObjectToXml(v: Value, rootName: string) returns (r: Result<string>)
    ensures r == ObjectXml(v, rootName)
    decreases v, 2
  {
    if !IsContainer(v) {
      return Success(Tagged(rootName, XmlEscape.EscapeXml(JsString(v))));
    }
    var xml := [];
    for i := 0 to ChildCount(v)
      invariant MembersXml(v, i) == Success(xml)
    {
      var key := ChildKey(v, i);
      if KeyTestThrows(v) {
        MembersFailureStays(v, i + 1, ChildCount(v));
        return Failure(HasOwnPropertyError);
      }
      if !Skipped(key) {
        var m := MemberToXml(key, Child(v, i));
        if m.Failure? {
          MembersFailureStays(v, i + 1, ChildCount(v));
          return Failure(m.error);
        }
        xml := xml + m.value;
      }
    }
    r := Success(xml);
  }

  /** The body of `for (const key in obj)` for one key that is not skipped. */
  method MemberToXml(key: string, value: Value) returns (r: Result<string>)
    ensures r == MemberXml(key, value)
    decreases value, 3
  {
    if value.Arr? {
      r := ItemsToXml(value, key);
    } else if value.Obj? {
      var attributes := AttributesToXml(value.entries);
      if attributes.Failure? {
        return Failure(attributes.error);
      }
      var xml := "<" + key + attributes.value;
      var text := Lookup(value.entries, ParserXml.TextKey);
      if text.Some? {
        var t := EscapeValue(text.value);
        if t.Failure? {
          return Failure(t.error);
        }
        r := Success(xml + ">" + t.value + "</" + key + ">");
      } else {
        var inner := ObjectToXml(value, "root");
        if inner.Failure? {
          return Failure(inner.error);
        }
        r := Success(xml + ">" + RemoveRootTags(inner.value) + "</" + key + ">");
      }
    } else {
      r := Success(Tagged(key, XmlEscape.EscapeXml(JsString(value))));
    }
  }

  /** `for (const item of value)`: each item written under the key. */
  method ItemsToXml(value: Value, key: string) returns (r: Result<string>)
    requires value.Arr?
    ensures r == ItemsXml(value, key, |value.items|)
    decreases value, 1
  {
    var xml := [];
    for i := 0 to |value.items|
      invariant ItemsXml(value, key, i) == Success(xml)
    {
      var item := ObjectToXml(value.items[i], key);
      if item.Failure? {
        ItemsFailureStays(value, key, i + 1, |value.items|);
        return Failure(item.error);
      }
      xml := xml + item.value;
    }
    r := Success(xml);
  }

  /** `if (value['@attributes']) for (const attr in value['@attributes']) xml += ...`. */
  method AttributesToXml(entries: seq<(string, Value)>) returns (r: Result<string>)
    ensures r == AttributesXml(entries)
  {
    var attributes := Lookup(entries, ParserXml.AttributesKey);
    if attributes.None? || !Truthy(attributes.value) {
      return Success([]);
    }
    var pairs := Entries(attributes.value).value;
    var xml := [];
    for i := 0 to |pairs|
      invariant AttributeListXml(pairs, i) == Success(xml)
    {
      var t := EscapeValue(pairs[i].1);
      if t.Failure? {
        AttributesFailureStays(pairs, i + 1, |pairs|);
        return Failure(t.error);
      }
      xml := xml + " " + pairs[i].0 + "=\"" + t.value + "\"";
    }
    r := Success(xml);
  }

  lemma {:induction false} MembersFailureStays(v: Value, i: nat, k: nat)
    requires IsContainer(v) && i <= k <= ChildCount(v) && MembersXml(v, i).Failure?
    ensures MembersXml(v, k) == MembersXml(v, i)
    decreases k
  {
    if k > i {
      MembersFailureStays(v, i, k - 1);
    }
  }

  lemma {:induction false} ItemsFailureStays(value: Value, key: string, i: nat, k: nat)
    requires value.Arr? && i <= k <= |value.items| && ItemsXml(value, key, i).Failure?
    ensures ItemsXml(value, key, k) == ItemsXml(value, key, i)
    decreases k
  {
    if k > i {
      ItemsFailureStays(value, key, i, k - 1);
    }
  }

  lemma {:induction false} AttributesFailureStays(pairs: seq<(string, Value)>, i: nat, k: nat)
    requires i <= k <= |pairs| && AttributeListXml(pairs, i).Failure?
    ensures AttributeListXml(pairs, k) == AttributeListXml(pairs, i)
    decreases k
  {
    if k > i {
      AttributesFailureStays(pairs, i, k - 1);
    }
  }

  // ---------------------------------------------------------------------
  // What the writer promises

  /**
   * A string, number, boolean or `null` given as the whole input is written
   * as `<rootName>`, its escaped `String`, `</rootName>`; the text holds no
   * markup and reads back as `String(v)`.
   */
  lemma ScalarWrapped(v: Value, rootName: string)
    requires !IsContainer(v)
    ensures exists t :: (ObjectXml(v, rootName) == Success(Tagged(rootName, t))
                         && XmlEscape.UnescapeXml(t) == JsString(v)
                         && forall i :: 0 <= i < |t| ==> !XmlEscape.IsMarkupChar(t[i]))
  {
    var t := XmlEscape.EscapeXml(JsString(v));
    XmlEscape.UnescapeEscape(JsString(v));
    XmlEscape.EscapedHasNoMarkup(JsString(v));
    assert ObjectXml(v, rootName) == Success(Tagged(rootName, t));
  }

  /** The same holds for a scalar member under its key. */
  lemma ScalarMemberWrapped(key: string, value: Value)
    requires !IsContainer(value)
    ensures exists t :: (MemberXml(key, value) == Success(Tagged(key, t))
                         && XmlEscape.UnescapeXml(t) == JsString(value))
  {
    XmlEscape.UnescapeEscape(JsString(value));
    assert MemberXml(key, value) == Success(Tagged(key, XmlEscape.EscapeXml(JsString(value))));
  }

  /**
   * Writing the keys of an array or object succeeds exactly when there are
   * none, or the `hasOwnProperty` test does not throw and writing every key
   * that is not `@attributes` or `#text` succeeds. The test throws on the
   * first key, with the `TypeError`.
   */
  lemma {:induction false} MembersSucceed(v: Value, k: nat)
    requires IsContainer(v) && k <= ChildCount(v)
    ensures MembersXml(v, k).Success?
      <==> (k == 0 || !KeyTestThrows(v))
           && forall i :: 0 <= i < k && !Skipped(ChildKey(v, i)) ==> MemberXml(ChildKey(v, i), Child(v, i)).Success?
    ensures k > 0 && KeyTestThrows(v) ==> MembersXml(v, k) == Failure(HasOwnPropertyError)
    decreases k
  {
    if k > 0 {
      MembersSucceed(v, k - 1);
      if MembersXml(v, k - 1).Failure? {
        MembersFailureStays(v, k - 1, k);
      }
    }
  }

  /** An object with only `@attributes` and `#text` keys writes nothing. */
  lemma {:induction false} OnlySkippedKeys(v: Value, k: nat)
    requires v.Obj? && k <= |v.entries|
    requires forall i :: 0 <= i < |v.entries| ==> Skipped(v.entries[i].0)
    ensures MembersXml(v, k) == Success([])
    decreases k
  {
    if k > 0 {
      OnlySkippedKeys(v, k - 1);
    }
  }

  /** An object member with a `#text` that is not a string cannot be written: `escapeXML` throws. */
  lemma TextMustBeString(key: string, entries: seq<(string, Value)>)
    requires Lookup(entries, ParserXml.TextKey).Some? && !Lookup(entries, ParserXml.TextKey).value.Str?
    ensures MemberXml(key, Obj(entries)).Failure?
  {
  }

  /**
   * An array item that is an object is written as its members alone: the
   * key never appears as an element around it, whatever the key is.
   */
  lemma ObjectItemUnwrapped(key: string, entries: seq<(string, Value)>)
    ensures MemberXml(key, Arr([Obj(entries)])) == ObjectXml(Obj(entries), "root")
  {
    var value := Arr([Obj(entries)]);
    assert ItemsXml(value, key, 0) == Success([]);
    match ObjectXml(Obj(entries), key)
    case Failure(e) =>
    case Success(item) => assert [] + item == item;
  }

  /**
   * The root tags are removed from the nested text after it is written, so
   * a nested key that happens to be named `root` loses its own tags:
   * `{a: {root: "x"}}` writes `<a>x</a>`.
   */
  lemma RootKeyLosesTags()
    ensures MemberXml("a", Obj([("root", Str("x"))])) == Success("<a>x</a>")
  {
    var inner := Obj([("root", Str("x"))]);
    InnerRootText();
    RemoveBothTags("x");
    assert Lookup(inner.entries, ParserXml.AttributesKey).None? by { assert "root" != ParserXml.AttributesKey; }
    assert Lookup(inner.entries, ParserXml.TextKey).None? by { assert "root" != ParserXml.TextKey; }
    assert AttributesXml(inner.entries) == Success([]);
    assert "<" + "a" + [] + ">" + "x" + "</" + "a" + ">" == "<a>x</a>";
  }

  lemma InnerRootText()
    ensures ObjectXml(Obj([("root", Str("x"))]), "root") == Success(RootOpen + "x" + RootClose)
  {
    var inner := Obj([("root", Str("x"))]);
    XmlEscape.EscapePlain("x");
    var m := RootOpen + "x" + RootClose;
    assert Tagged("root", "x") == m;
    assert MemberXml("root", Str("x")) == Success(m);
    assert !Skipped("root") by { assert "root"[0] != ParserXml.AttributesKey[0] && "root"[0] != ParserXml.TextKey[0]; }
    assert ChildKey(inner, 0) == "root" && Child(inner, 0) == Str("x");
    assert MembersXml(inner, 0) == Success([]);
    assert [] + m == m;
  }

  /** A one-character text between the two root tags is all that is left of them. */
  lemma RemoveBothTags(x: string)
    requires |x| == 1 && x[0] != '<'
    ensures RemoveRootTags(RootOpen + x + RootClose) == x
  {
    var s := RootOpen + x + RootClose;
    assert s[..|RootOpen|] == RootOpen;
    assert s[|RootOpen|..] == x + RootClose;
    var t := x + RootClose;
    assert !StartsWith(t, RootOpen) && !StartsWith(t, RootClose) by { assert t[0] == x[0]; }
    assert t[1..] == RootClose;
    assert !StartsWith(RootClose, RootOpen) by { assert RootClose[1] != RootOpen[1]; }
    assert RootClose[..|RootClose|] == RootClose && RootClose[|RootClose|..] == [];
    assert RemoveRootTags(RootClose) == [];
    assert RemoveRootTags(t) == [x[0]] + [];
    assert [x[0]] + [] == x;
  }

  // ---------------------------------------------------------------------
  // `minifyData`: `>`, white space, `<` collapsed to `><`

  /** The length of the run of white space at the start of `s`. */
  function SpaceRun(s: string): (n: nat)
    ensures n <= |s|
  {
    if s != [] && IsJsSpace(s[0]) then 1 + SpaceRun(s[1..]) else 0
  }

  /** The run is white space, and what follows it is not. */
  lemma {:induction false} SpaceRunSpec(s: string)
    ensures forall i :: 0 <= i < SpaceRun(s) ==> IsJsSpace(s[i])
    ensures SpaceRun(s) == |s| || !IsJsSpace(s[SpaceRun(s)])
  {
    if s != [] && IsJsSpace(s[0]) {
      SpaceRunSpec(s[1..]);
    }
  }

  /** The length of the white space in a match of `>\s+<` at the start of `s`, or 0 when there is none. */
  function TagGap(s: string): (n: nat)
    ensures n > 0 ==> n + 2 <= |s| && s[0] == '>' && s[n + 1] == '<'
  {
    if s != [] && s[0] == '>' && 0 < SpaceRun(s[1..]) && 1 + SpaceRun(s[1..]) < |s| && s[1 + SpaceRun(s[1..])] == '<'
    then SpaceRun(s[1..]) else 0
  }

  /** `.replace(/>\s+</g, '><')`: matches found left to right, each resuming after its `<`. */
  function CollapseTagSpace(s: string): (r: string)
    ensures |r| <= |s|
    decreases |s|
  {
    if s == [] then []
    else if TagGap(s) > 0 then ['>', '<'] + CollapseTagSpace(s[TagGap(s) + 2..])
    else [s[0]] + CollapseTagSpace(s[1..])
  }

  /** A character as it counts towards the visible text: white space counts as nothing. */
  function Shown(c: char): string
  {
    if IsJsSpace(c) then [] else [c]
  }

  /** The characters of `s` that are not white space, in order. */
  function Visible(s: string): string
  {
    if s == [] then [] else Shown(s[0]) + Visible(s[1..])
  }

  lemma VisibleCons(c: char, s: string)
    ensures Visible([c] + s) == Shown(c) + Visible(s)
  {
    assert ([c] + s)[0] == c && ([c] + s)[1..] == s;
  }

  lemma {:induction false} VisibleAppend(a: string, b: string)
    ensures Visible(a + b) == Visible(a) + Visible(b)
  {
    if a != [] {
      VisibleAppend(a[1..], b);
      calc {
        Visible(a + b);
        { assert a + b == [a[0]] + (a[1..] + b); VisibleCons(a[0], a[1..] + b); }
        Shown(a[0]) + Visible(a[1..] + b);
        Shown(a[0]) + (Visible(a[1..]) + Visible(b));
        (Shown(a[0]) + Visible(a[1..])) + Visible(b);
        { assert a == [a[0]] + a[1..]; VisibleCons(a[0], a[1..]); }
        Visible(a) + Visible(b);
      }
    } else {
      assert a + b == b;
    }
  }

  lemma {:induction false} VisibleOfSpace(s: string)
    requires forall i :: 0 <= i < |s| ==> IsJsSpace(s[i])
    ensures Visible(s) == []
  {
    if s != [] {
      VisibleOfSpace(s[1..]);
    }
  }

  /** A match of `>\s+<` and the `><` that replaces it show the same characters. */
  lemma MatchVisible(space: string, rest: string)
    requires forall i :: 0 <= i < |space| ==> IsJsSpace(space[i])
    ensures Visible(['>'] + (space + (['<'] + rest))) == ['>', '<'] + Visible(rest)
  {
    VisibleOfSpace(space);
    VisibleCons('<', rest);
    VisibleAppend(space, ['<'] + rest);
    VisibleCons('>', space + (['<'] + rest));
    assert Shown('>') == ['>'] && Shown('<') == ['<'];
  }

  /** `><` in front of a text adds exactly those two characters to what it shows. */
  lemma TagPairVisible(c: string)
    ensures Visible(['>', '<'] + c) == ['>', '<'] + Visible(c)
  {
    assert ['>', '<'] + c == ['>'] + (['<'] + c);
    VisibleCons('<', c);
    VisibleCons('>', ['<'] + c);
    assert Shown('>') == ['>'] && Shown('<') == ['<'];
  }

  /** Collapsing removes white space and nothing else. */
  lemma {:induction false} CollapseKeepsVisible(s: string)
    ensures Visible(CollapseTagSpace(s)) == Visible(s)
    decreases |s|
  {
    if s != [] {
      var n := TagGap(s);
      if n > 0 {
        CollapseKeepsVisible(s[n + 2..]);
        CollapseMatch(s, n);
      } else {
        CollapseKeepsVisible(s[1..]);
        CollapsePlain(s);
      }
    }
  }

  lemma CollapseMatch(s: string, n: nat)
    requires s != [] && n == TagGap(s) && n > 0
    requires Visible(CollapseTagSpace(s[n + 2..])) == Visible(s[n + 2..])
    ensures Visible(CollapseTagSpace(s)) == Visible(s)
  {
    var rest := s[n + 2..];
    TagPairVisible(CollapseTagSpace(rest));
    SpaceRunSpec(s[1..]);
    MatchSplit(s, n);
    MatchVisible(s[1..n + 1], rest);
  }

  lemma MatchSplit(s: string, n: nat)
    requires n + 2 <= |s| && s[0] == '>' && s[n + 1] == '<'
    ensures s == ['>'] + (s[1..n + 1] + (['<'] + s[n + 2..]))
  {
    var t := ['>'] + (s[1..n + 1] + (['<'] + s[n + 2..]));
    assert |t| == |s|;
    forall i | 0 <= i < |s| ensures t[i] == s[i] {
      if i == 0 { } else if i <= n { assert t[i] == s[1..n + 1][i - 1]; } else if i == n + 1 { } else { assert t[i] == s[n + 2..][i - n - 2]; }
    }
  }

  lemma CollapsePlain(s: string)
    requires s != [] && TagGap(s) == 0
    requires Visible(CollapseTagSpace(s[1..])) == Visible(s[1..])
    ensures Visible(CollapseTagSpace(s)) == Visible(s)
  {
    assert CollapseTagSpace(s) == [s[0]] + CollapseTagSpace(s[1..]);
    VisibleCons(s[0], CollapseTagSpace(s[1..]));
  }

  /** Trimming removes white space and nothing else. */
  lemma TrimKeepsVisible(s: string)
    ensures Visible(Trim(s)) == Visible(s)
  {
    TrimEndKeepsVisible(s);
    TrimStartKeepsVisible(TrimEnd(s));
  }

  lemma TrimEndKeepsVisible(s: string)
    ensures Visible(TrimEnd(s)) == Visible(s)
  {
    var e := TrimEnd(s);
    assert s == e + s[|e|..];
    VisibleAppend(e, s[|e|..]);
    VisibleOfSpace(s[|e|..]);
  }

  lemma TrimStartKeepsVisible(s: string)
    ensures Visible(TrimStart(s)) == Visible(s)
  {
    var r := TrimStart(s);
    assert s == s[..|s| - |r|] + r;
    VisibleAppend(s[..|s| - |r|], r);
    VisibleOfSpace(s[..|s| - |r|]);
  }

  // ---------------------------------------------------------------------
  // `formatData` and `minifyData`

  const FormattingFailed := "Formatting failed: "
  const MinificationFailed := "Minification failed: "

  /**
   * `formatData(data, format)`: JSON through `JSON.stringify(data, null, 2)`,
   * XML through the writer and the parser's pretty-printer; an error thrown
   * by either is rethrown with the "Formatting failed: " prefix.
   */
  function FormatData(data: Value, format: string, host: Host): Result<string>
  {
    if format == "json" then Success(host.stringifyIndented(data))
    else if format == "xml" then
      match ObjectXml(data, "root")
      case Failure(e) => Failure(FormattingFailed + e)
      case Success(xml) =>
        match ParserFormat.FormatXml(xml)
        case Failure(e) => Failure(FormattingFailed + e)
        case Success(pretty) => Success(pretty)
    else Failure(FormattingFailed + "Unsupported format for formatting")
  }

  /** `minifyData(data, format)`: JSON through `JSON.stringify(data)`, XML written, collapsed and trimmed. */
  function MinifyData(data: Value, format: string, host: Host): Result<string>
  {
    if format == "json" then Success(host.stringify(data))
    else if format == "xml" then
      match ObjectXml(data, "root")
      case Failure(e) => Failure(MinificationFailed + e)
      case Success(xml) => Success(Trim(CollapseTagSpace(xml)))
    else Failure(MinificationFailed + "Unsupported format for minification")
  }

  /**
   * Minified XML is the written text with white space taken out and
   * nothing else changed; it starts and ends with a visible character.
   */
  lemma MinifiedXml(data: Value, host: Host)
    requires ObjectXml(data, "root").Success?
    ensures MinifyData(data, "xml", host).Success?
    ensures var m := MinifyData(data, "xml", host).value;
      && Visible(m) == Visible(ObjectXml(data, "root").value)
      && (m == [] || (!IsJsSpace(m[0]) && !IsJsSpace(m[|m| - 1])))
  {
    var xml := ObjectXml(data, "root").value;
    CollapseKeepsVisible(xml);
    TrimKeepsVisible(CollapseTagSpace(xml));
  }

  /**
   * Both operations succeed for JSON and never for a format other than JSON
   * or XML. For XML, minifying succeeds exactly when the writer does, and
   * formatting when the pretty-printer then does too.
   */
  lemma FormatDispatch(data: Value, format: string, host: Host)
    ensures FormatData(data, format, host).Success?
      <==> (format == "json"
            || (format == "xml" && ObjectXml(data, "root").Success?
                && ParserFormat.FormatXml(ObjectXml(data, "root").value).Success?))
    ensures MinifyData(data, format, host).Success?
      <==> format == "json" || (format == "xml" && ObjectXml(data, "root").Success?)
    ensures FormatData(data, format, host).Failure? ==> StartsWith(FormatData(data, format, host).error, FormattingFailed)
    ensures MinifyData(data, format, host).Failure? ==> StartsWith(MinifyData(data, format, host).error, MinificationFailed)
  {
    StartsWithPrefix(FormattingFailed, "Unsupported format for formatting");
    StartsWithPrefix(MinificationFailed, "Unsupported format for minification");
    if format == "xml" && ObjectXml(data, "root").Failure? {
      StartsWithPrefix(FormattingFailed, ObjectXml(data, "root").error);
      StartsWithPrefix(MinificationFailed, ObjectXml(data, "root").error);
    }
    if format == "xml" && ObjectXml(data, "root").Success? && ParserFormat.FormatXml(ObjectXml(data, "root").value).Failure? {
      StartsWithPrefix(FormattingFailed, ParserFormat.FormatXml(ObjectXml(data, "root").value).error);
    }
  }

  /**
   * `{a: {b: "x"}}` is written as `<a><b>x</b></a>`, which the
   * pretty-printer cannot indent: formatting it as XML throws.
   */
  lemma OneLetterParentUnformatted(host: Host)
    ensures FormatData(Obj([("a", Obj([("b", Str("x"))]))]), "xml", host)
      == Failure(FormattingFailed + "Invalid count value: -1")
  {
    NestedExampleXml();
    ParserFormat.OneLetterParentFails();
  }

  /**
   * `{a: {hasOwnProperty: 1}}`, as `JSON.parse` gives it, can be neither
   * formatted nor minified as XML: the nested key loop's `hasOwnProperty`
   * test throws.
   */
  lemma HiddenHasOwnPropertyUnwritten(host: Host)
    ensures FormatData(Obj([("a", Obj([(HasOwnPropertyKey, Int(1))]))]), "xml", host)
      == Failure(FormattingFailed + HasOwnPropertyError)
    ensures MinifyData(Obj([("a", Obj([(HasOwnPropertyKey, Int(1))]))]), "xml", host)
      == Failure(MinificationFailed + HasOwnPropertyError)
  {
    HiddenExampleXml();
  }

  lemma HiddenExampleXml()
    ensures ObjectXml(Obj([("a", Obj([(HasOwnPropertyKey, Int(1))]))]), "root") == Failure(HasOwnPropertyError)
  {
    var inner := Obj([(HasOwnPropertyKey, Int(1))]);
    var outer := Obj([("a", inner)]);
    assert Keys(inner.entries)[0] == HasOwnPropertyKey;
    assert KeyTestThrows(inner);
    assert MembersXml(inner, 0) == Success([]);
    assert ObjectXml(inner, "root") == Failure(HasOwnPropertyError);
    assert Lookup(inner.entries, ParserXml.AttributesKey).None?;
    assert Lookup(inner.entries, ParserXml.TextKey).None?;
    assert AttributesXml(inner.entries) == Success([]);
    assert MemberXml("a", inner) == Failure(HasOwnPropertyError);
    assert !KeyTestThrows(outer) by { assert Keys(outer.entries) == ["a"]; }
    assert !Skipped("a");
    assert ChildKey(outer, 0) == "a" && Child(outer, 0) == inner;
    assert MembersXml(outer, 0) == Success([]);
  }

  lemma NestedExampleXml()
    ensures ObjectXml(Obj([("a", Obj([("b", Str("x"))]))]), "root") == Success("<a><b>x</b></a>")
  {
    var inner := Obj([("b", Str("x"))]);
    var outer := Obj([("a", inner)]);
    var a := "<a><b>x</b></a>";
    NestedExampleMember();
    assert !Skipped("a");
    assert ChildKey(outer, 0) == "a" && Child(outer, 0) == inner;
    assert MembersXml(outer, 0) == Success([]);
    assert [] + a == a;
  }

  lemma NestedExampleMember()
    ensures MemberXml("a", Obj([("b", Str("x"))])) == Success("<a><b>x</b></a>")
  {
    var inner := Obj([("b", Str("x"))]);
    var b := "<b>x</b>";
    LeafExampleXml();
    NoRootTagsInExample(b);
    assert Lookup(inner.entries, ParserXml.AttributesKey).None?;
    assert Lookup(inner.entries, ParserXml.TextKey).None?;
    assert AttributesXml(inner.entries) == Success([]);
    ExampleText(b);
  }

  lemma ExampleText(b: string)
    requires b == "<b>x</b>"
    ensures "<" + "a" + [] + ">" + b + "</" + "a" + ">" == "<a><b>x</b></a>"
  {
  }

  lemma LeafExampleXml()
    ensures ObjectXml(Obj([("b", Str("x"))]), "root") == Success("<b>x</b>")
  {
    var inner := Obj([("b", Str("x"))]);
    XmlEscape.EscapePlain("x");
    var b := "<b>x</b>";
    assert Tagged("b", "x") == b;
    assert MemberXml("b", Str("x")) == Success(b);
    assert !Skipped("b");
    assert ChildKey(inner, 0) == "b" && Child(inner, 0) == Str("x");
    assert MembersXml(inner, 0) == Success([]);
    assert [] + b == b;
  }

  lemma NoRootTagsInExample(b: string)
    requires b == "<b>x</b>"
    ensures RemoveRootTags(b) == b
  {
    assert |b| == 8 && b[0] == '<' && b[1] == 'b' && b[2] == '>' && b[3] == 'x';
    assert RootOpen[1] == 'r' && RootClose[1] == '/';
    forall i | 0 <= i < |b|
      ensures !OccursAt(b, RootOpen, i) && !OccursAt(b, RootClose, i)
    {
      if i + 6 <= |b| {
        assert b[i..i + 6][0] == b[i] && b[i..i + 6][1] == b[i + 1];
        assert b[i] != '<' || b[i + 1] != 'r';
      }
      if i + 7 <= |b| {
        assert b[i..i + 7][0] == b[i] && b[i..i + 7][1] == b[i + 1];
        assert b[i] != '<' || b[i + 1] != '/';
      }
    }
    RemoveRootTagsPlain(b);
  }

  lemma StartsWithPrefix(p: string, s: string)
    ensures StartsWith(p + s, p)
  {
    assert (p + s)[..|p|] == p;
  }
}
