/**
 * The converter's JSON-to-XML serialiser `objectToXml` (js/converter.js:38-84)
 * and `jsonToXml` (js/converter.js:20-28). `ElementXml` specifies the text
 * written for a value under a name; the methods build it with `xml +=` as
 * the source does, and the lemmas say what a reader of the text can rely
 * on: the element is wrapped in the sanitized name, scalar text reads back
 * as `String(v)`, and every child has its own element, in order.
 *
 * The one way the serialiser throws is `Throws`: it reaches an object with
 * an own `hasOwnProperty` entry, whose `obj.hasOwnProperty(key)` call is
 * then not a function.
 */
module ConverterXml {
  import opened JsValues
  import opened ConverterText
  import opened ValueWalk
  import XmlEscape
  import ConverterFormat

  /** The attributes of the element written for `null`. */
  const NilAttributes := " xsi:nil=\"true\" xmlns:xsi=\"http://www.w3.org/2001/XMLSchema-instance\""

  function Open(n: string): string { "<" + n + ">" }

  function Close(n: string): string { "</" + n + ">" }

  /** The element `objectToXml(v, name)` writes. */
  function ElementXml(v: Value, name: string): string
    decreases v, 2
  {
    var n := SanitizeXmlNodeName(name);
    match v
    case Null => "<" + n + NilAttributes + ">" + Close(n)
    case Arr(items) => Open(n) + ChildrenXml(v, |items|) + Close(n)
    case Obj(entries) => Open(n) + ChildrenXml(v, |entries|) + Close(n)
    case _ => Open(n) + EscapeChain(JsString(v)) + Close(n)
  }

  /** The text written for the first `k` children of a container, in order. */
  function ChildrenXml(v: Value, k: nat): string
    requires k <= ChildCount(v)
    decreases v, 1, k
  {
    if k == 0 then "" else ChildrenXml(v, k - 1) + ChildXml(v, k - 1)
  }

  /** An array element is written as an `item` element; an object entry by `MemberXml`. */
  function ChildXml(v: Value, i: nat): string
    requires i < ChildCount(v)
    decreases v, 0
  {
    match v
    case Arr(items) => ElementXml(items[i], "item")
    case Obj(entries) => MemberXml(entries[i].0, entries[i].1)
  }

  /**
   * One own property of an object: an array is written under the sanitized
   * key with one `item` element per element; any other value is written by
   * `objectToXml` under the sanitized key.
   */
  function MemberXml(key: string, value: Value): string
    decreases value, 3
  {
    var cleanKey := SanitizeXmlNodeName(key);
    if value.Arr? then Open(cleanKey) + ChildrenXml(value, |value.items|) + Close(cleanKey)
    else ElementXml(value, cleanKey)
  }

  /**
   * `objectToXml(v, ...)` throws: some object it reaches, `v` itself or one
   * below it through array elements and object values, has an own
   * `hasOwnProperty` entry.
   */
  predicate Throws(v: Value)
    decreases v, 2
  {
    match v
    case Arr(items) => ChildrenThrow(v, |items|)
    case Obj(entries) => HidesHasOwnProperty(entries) || ChildrenThrow(v, |entries|)
    case _ => false
  }

  /** One of the first `k` children of a container throws. */
  predicate ChildrenThrow(v: Value, k: nat)
    requires k <= ChildCount(v)
    decreases v, 1, k
  {
    k > 0 && (ChildrenThrow(v, k - 1) || ChildThrows(v, k - 1))
  }

  predicate ChildThrows(v: Value, i: nat)
    requires i < ChildCount(v)
    decreases v, 0
  {
    match v
    case Arr(items) => Throws(items[i])
    case Obj(entries) => Throws(entries[i].1)
  }

  /** Once a child has thrown, the children after it change nothing. */
  lemma {:induction false} ChildrenThrowStays(v: Value, i: nat, k: nat)
    requires i <= k <= ChildCount(v) && ChildrenThrow(v, i)
    ensures ChildrenThrow(v, k)
    decreases k
  {
    if k > i {
      ChildrenThrowStays(v, i, k - 1);
    }
  }

  /** A visit that meets an object whose own entries hide `hasOwnProperty`. */
  predicate HidingVisit(visit: Visit)
  {
    visit.0.Obj? && HidesHasOwnProperty(visit.0.entries)
  }

  predicate HasHidingVisit(visits: seq<Visit>)
  {
    exists k :: 0 <= k < |visits| && HidingVisit(visits[k])
  }

  lemma HasHidingVisitAppend(a: seq<Visit>, b: seq<Visit>)
    ensures HasHidingVisit(a + b) <==> HasHidingVisit(a) || HasHidingVisit(b)
  {
    if HasHidingVisit(a + b) {
      var k :| 0 <= k < |a + b| && HidingVisit((a + b)[k]);
      if k < |a| {
        assert HidingVisit(a[k]);
      } else {
        assert HidingVisit(b[k - |a|]);
      }
    }
    if HasHidingVisit(a) {
      var k :| 0 <= k < |a| && HidingVisit(a[k]);
      assert (a + b)[k] == a[k];
    }
    if HasHidingVisit(b) {
      var k :| 0 <= k < |b| && HidingVisit(b[k]);
      assert (a + b)[|a| + k] == b[k];
    }
  }

  /**
   * The serialiser throws exactly when a walk of the whole value, every
   * array element and object value at every depth, meets an object with
   * an own `hasOwnProperty` entry.
   */
  lemma {:induction false} ThrowsIffReached(v: Value, depth: nat)
    ensures Throws(v) <==> HasHidingVisit(Visits(v, depth))
    decreases v, 1
  {
    var n := ChildCount(v);
    ChildrenThrowIffReached(v, n, depth + 1);
    HasHidingVisitAppend([(v, depth)], ChildVisits(v, n, depth + 1));
    assert HasHidingVisit([(v, depth)]) <==> HidingVisit((v, depth)) by {
      assert [(v, depth)][0] == (v, depth);
    }
  }

  lemma {:induction false} ChildrenThrowIffReached(v: Value, n: nat, depth: nat)
    requires n <= ChildCount(v)
    ensures ChildrenThrow(v, n) <==> HasHidingVisit(ChildVisits(v, n, depth))
    decreases v, 0, n
  {
    if n > 0 {
      ChildrenThrowIffReached(v, n - 1, depth);
      ThrowsIffReached(Child(v, n - 1), depth);
      HasHidingVisitAppend(ChildVisits(v, n - 1, depth), Visits(Child(v, n - 1), depth));
    } else {
      assert ChildVisits(v, 0, depth) == [];
    }
  }

  /** The name under which child `i` is written: `item` for array elements, the key for object entries. */
  function ChildName(v: Value, i: nat): string
    requires i < ChildCount(v)
  {
    if v.Arr? then "item" else v.entries[i].0
  }

  // ---------------------------------------------------------------------
  // What the text says

  /** Both branches of a member write the element of the value under its key. */
  lemma MemberIsElement(key: string, value: Value)
    ensures MemberXml(key, value) == ElementXml(value, key)
  {
    SanitizeIdempotent(key);
  }

  /** Every child is written as its own element, under its name. */
  lemma ChildIsElement(v: Value, i: nat)
    requires i < ChildCount(v)
    ensures ChildXml(v, i) == ElementXml(Child(v, i), ChildName(v, i))
  {
    if v.Obj? {
      MemberIsElement(v.entries[i].0, v.entries[i].1);
    }
  }

  /** The element starts with `<` and the sanitized name and ends with the matching closing tag. */
  lemma ElementWrapped(v: Value, name: string)
    ensures StartsWith(ElementXml(v, name), "<" + SanitizeXmlNodeName(name))
    ensures EndsWith(ElementXml(v, name), Close(SanitizeXmlNodeName(name)))
  {
    var n := SanitizeXmlNodeName(name);
    var x := ElementXml(v, name);
    var middle := x[|"<" + n|..|x| - |Close(n)|];
    assert x == "<" + n + middle + Close(n);
    assert x[..|"<" + n|] == "<" + n;
  }

  /** `null` and `undefined` are written as an empty element marked `xsi:nil`. */
  lemma NullIsNil(name: string)
    ensures var n := SanitizeXmlNodeName(name);
      ElementXml(Null, name) == "<" + n + NilAttributes + "></" + n + ">"
  {
  }

  /**
   * A string, number or boolean is written as its escaped `String(v)`
   * between the tags: the text holds no markup and reads back as `String(v)`.
   */
  lemma ScalarText(v: Value, name: string)
    requires !IsObjectTyped(v)
    ensures var n := SanitizeXmlNodeName(name);
      exists t :: ElementXml(v, name) == Open(n) + t + Close(n)
        && XmlEscape.UnescapeXml(t) == JsString(v)
        && forall i :: 0 <= i < |t| ==> !XmlEscape.IsMarkupChar(t[i])
  {
    var t := EscapeChain(JsString(v));
    EscapeChainSound(JsString(v));
    assert ElementXml(v, name) == Open(SanitizeXmlNodeName(name)) + t + Close(SanitizeXmlNodeName(name));
  }

  lemma OccursAtAppend(s: string, p: string, i: nat, t: string, text: string)
    requires OccursAt(s, p, i) && text == s + t
    ensures OccursAt(text, p, i)
  {
    assert (s + t)[i..i + |p|] == s[i..i + |p|];
  }

  lemma OccursAtEnd(text: string, s: string, p: string, at: nat)
    requires text == s + p && at == |s|
    ensures OccursAt(text, p, at)
  {
    assert (s + p)[|s|..|s| + |p|] == p;
  }

  /** The children's text grows by one child's text at a time. */
  lemma ChildrenNext(v: Value, k: nat)
    requires k < ChildCount(v)
    ensures ChildrenXml(v, k + 1) == ChildrenXml(v, k) + ChildXml(v, k)
  {
  }

  /** The text of child `i` stands in the children's text right after the text of the children before it. */
  lemma {:induction false} ChildOccurs(v: Value, k: nat, i: nat)
    requires i < k <= ChildCount(v)
    ensures OccursAt(ChildrenXml(v, k), ChildXml(v, i), |ChildrenXml(v, i)|)
    decreases k
  {
    ChildrenNext(v, k - 1);
    if k == i + 1 {
      OccursAtEnd(ChildrenXml(v, k), ChildrenXml(v, i), ChildXml(v, i), |ChildrenXml(v, i)|);
    } else {
      ChildOccurs(v, k - 1, i);
      OccursAtAppend(ChildrenXml(v, k - 1), ChildXml(v, i), |ChildrenXml(v, i)|, ChildXml(v, k - 1), ChildrenXml(v, k));
    }
  }

  /** The children's texts come in order and do not overlap. */
  lemma {:induction false} ChildrenGrow(v: Value, j: nat, k: nat)
    requires j <= k <= ChildCount(v)
    ensures |ChildrenXml(v, j)| <= |ChildrenXml(v, k)|
    ensures j < k ==> |ChildrenXml(v, j)| + |ChildXml(v, j)| <= |ChildrenXml(v, k)|
    decreases k
  {
    if j < k {
      ChildrenNext(v, k - 1);
      ChildrenGrow(v, j, k - 1);
    }
  }

  /** The element of an array or object: the opening tag, the children's text, the closing tag. */
  lemma ContainerElement(v: Value, name: string)
    requires IsContainer(v)
    ensures var n := SanitizeXmlNodeName(name);
      ElementXml(v, name) == Open(n) + ChildrenXml(v, ChildCount(v)) + Close(n)
  {
  }

  lemma OccursAtFramed(pre: string, s: string, post: string, p: string, i: nat, text: string, q: string, at: nat)
    requires OccursAt(s, p, i)
    requires text == pre + s + post && q == p && at == |pre| + i
    ensures OccursAt(text, q, at)
  {
    assert text[|pre| + i..|pre| + i + |p|] == s[i..i + |p|];
  }

  /**
   * Inside the element of an array or object, every child is written as its
   * own element (`item` for array elements, the key for object entries),
   * right after the opening tag and the children before it.
   */
  lemma ChildElementInside(v: Value, name: string, i: nat)
    requires IsContainer(v) && i < ChildCount(v)
    ensures var n := SanitizeXmlNodeName(name);
      OccursAt(ElementXml(v, name), ElementXml(Child(v, i), ChildName(v, i)), |Open(n)| + |ChildrenXml(v, i)|)
  {
    var n := SanitizeXmlNodeName(name);
    ContainerElement(v, name);
    ChildIsElement(v, i);
    ChildFramed(v, i, Open(n), Close(n), ElementXml(v, name), |Open(n)| + |ChildrenXml(v, i)|);
  }

  /** Child `i`'s text inside the children's text framed by `pre` and `post`. */
  lemma ChildFramed(v: Value, i: nat, pre: string, post: string, text: string, at: nat)
    requires i < ChildCount(v)
    requires text == pre + ChildrenXml(v, ChildCount(v)) + post && at == |pre| + |ChildrenXml(v, i)|
    ensures OccursAt(text, ChildXml(v, i), at)
  {
    ChildOccurs(v, ChildCount(v), i);
    OccursAtFramed(pre, ChildrenXml(v, ChildCount(v)), post, ChildXml(v, i), |ChildrenXml(v, i)|, text, ChildXml(v, i), at);
  }

  /** One turn of a loop that appends each child's text. */
  lemma ChildrenStep(xml: string, v: Value, i: nat, r: string, r': string)
    requires i < ChildCount(v)
    requires r == xml + ChildrenXml(v, i) && r' == r + ChildXml(v, i)
    ensures r' == xml + ChildrenXml(v, i + 1)
  {
    AppendAssoc(xml, ChildrenXml(v, i), ChildXml(v, i));
  }

  // ---------------------------------------------------------------------
  // The serialiser as the source runs it

  /**
   * `objectToXml(obj, nodeName)`: the element, or the `hasOwnProperty`
   * error; the `level` argument is never read and is left out.
   */
  method ObjectToXml(v: Value, name: string) returns (r: Result<string>)
    ensures Throws(v) ==> r == Failure(HasOwnPropertyError)
    ensures !Throws(v) ==> r == Success(ElementXml(v, name))
    decreases v, 2
  {
    var n := SanitizeXmlNodeName(name);
    if v.Null? {
      r := Success("<" + n + NilAttributes + ">" + Close(n));
    } else if v.Arr? {
      var xml := AppendItems(Open(n), v);
      if xml.Failure? {
        return xml;
      }
      r := Success(xml.value + Close(n));
    } else if v.Obj? {
      var xml := AppendMembers(Open(n), v);
      if xml.Failure? {
        return xml;
      }
      r := Success(xml.value + Close(n));
    } else {
      r := Success(Open(n) + EscapeChain(JsString(v)) + Close(n));
    }
  }

  /** `obj.forEach(item => xml += this.objectToXml(item, 'item', ...))`. */
  method AppendItems(xml: string, v: Value) returns (r: Result<string>)
    requires v.Arr?
    ensures Throws(v) ==> r == Failure(HasOwnPropertyError)
    ensures !Throws(v) ==> r == Success(xml + ChildrenXml(v, |v.items|))
    decreases v, 1
  {
    var acc := xml;
    for i := 0 to |v.items|
      invariant acc == xml + ChildrenXml(v, i)
      invariant !ChildrenThrow(v, i)
    {
      var item := ObjectToXml(v.items[i], "item");
      if item.Failure? {
        ChildrenThrowStays(v, i + 1, |v.items|);
        return item;
      }
      ChildrenStep(xml, v, i, acc, acc + item.value);
      acc := acc + item.value;
    }
    r := Success(acc);
  }

  /**
   * `for (const key in obj) if (obj.hasOwnProperty(key)) ...`: each own
   * property written by `MemberXml`, unless the `hasOwnProperty` call
   * throws on the first key.
   */
  method AppendMembers(xml: string, v: Value) returns (r: Result<string>)
    requires v.Obj?
    ensures Throws(v) ==> r == Failure(HasOwnPropertyError)
    ensures !Throws(v) ==> r == Success(xml + ChildrenXml(v, |v.entries|))
    decreases v, 1
  {
    var acc := xml;
    for i := 0 to |v.entries|
      invariant acc == xml + ChildrenXml(v, i)
      invariant i > 0 ==> !HidesHasOwnProperty(v.entries)
      invariant !ChildrenThrow(v, i)
    {
      if HidesHasOwnProperty(v.entries) {
        return Failure(HasOwnPropertyError);
      }
      var next := AppendMember(acc, v.entries[i].0, v.entries[i].1);
      if next.Failure? {
        ChildrenThrowStays(v, i + 1, |v.entries|);
        return next;
      }
      ChildrenStep(xml, v, i, acc, next.value);
      acc := next.value;
    }
    r := Success(acc);
  }

  /** The body of the `for ... in` loop for one key. */
  method AppendMember(xml: string, key: string, value: Value) returns (r: Result<string>)
    ensures Throws(value) ==> r == Failure(HasOwnPropertyError)
    ensures !Throws(value) ==> r == Success(xml + MemberXml(key, value))
    decreases value, 3
  {
    var cleanKey := SanitizeXmlNodeName(key);
    if value.Arr? {
      var items := AppendItems(xml + Open(cleanKey), value);
      if items.Failure? {
        return items;
      }
      r := Success(items.value + Close(cleanKey));
      AppendThree(xml, Open(cleanKey), ChildrenXml(value, |value.items|), Close(cleanKey));
    } else {
      var element := ObjectToXml(value, cleanKey);
      if element.Failure? {
        return element;
      }
      r := Success(xml + element.value);
    }
  }

  // ---------------------------------------------------------------------
  // `jsonToXml`

  /** The XML text of a JSON value: the declaration, the element, then `formatXml`. */
  function JsonToXmlText(data: Value, rootName: string): string
  {
    ConverterFormat.FormatXmlText(ConverterFormat.DeclarationLine + "\n" + ElementXml(data, rootName))
  }

  const JsonToXmlFailed := "JSON to XML conversion failed: "

  /** What `jsonToXml(jsonData, rootName)` returns, or the message it throws. */
  function JsonToXmlResult(data: Value, rootName: string): Result<string>
  {
    if Throws(data) then Failure(JsonToXmlFailed + HasOwnPropertyError)
    else Success(JsonToXmlText(data, rootName))
  }

  /**
   * `jsonToXml(jsonData, rootName)`: the declaration, the element and
   * `formatXml`, which does not throw; an error from `objectToXml` is
   * rethrown with the "JSON to XML conversion failed: " prefix.
   */
  method JsonToXml(data: Value, rootName: string) returns (r: Result<string>)
    ensures r == JsonToXmlResult(data, rootName)
  {
    var xml := ConverterFormat.DeclarationLine + "\n";
    var element := ObjectToXml(data, rootName);
    if element.Failure? {
      return Failure(JsonToXmlFailed + element.error);
    }
    xml := xml + element.value;
    xml := ConverterFormat.FormatXml(xml);
    r := Success(xml);
  }

  /** The converted text always starts with the XML declaration. */
  lemma JsonToXmlDeclared(data: Value, rootName: string)
    ensures StartsWith(JsonToXmlText(data, rootName), ConverterFormat.DeclarationLine)
  {
    var d := ConverterFormat.DeclarationLine + "\n";
    var x := d + ElementXml(data, rootName);
    assert x[..|d|] == d;
    ConverterFormat.DeclarationStaysFirst(x);
  }
}
