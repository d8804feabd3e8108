/**
 * The parser's lifting of a DOM element into a value, `xmlToObject`
 * (js/parser.js:46-84). The DOM is replaced by an element tree: elements
 * with their attributes in document order, text nodes, and every other
 * kind of node. The `result` dictionary the source fills is an ordered list
 * of entries, assigned with `Put` (`result[key] = value`). `XmlValue`
 * specifies the lifted value as a fold over the children; the method fills
 * the dictionary child by child as the source does.
 */
module ParserXml {
  import opened JsValues
  import opened ParserValue

  /** The DOM nodes `xmlToObject` distinguishes: elements, text nodes, and anything else (comments, CDATA, ...). */
  datatype XmlNode =
    | Element(name: string, attributes: seq<(string, string)>, children: seq<XmlNode>)
    | Text(content: string)
    | Other

  const AttributesKey := "@attributes"
  const TextKey := "#text"

  // ---------------------------------------------------------------------
  // The dictionary

  /** `result[key] = value`: an existing key keeps its place, a new key goes last. */
  function Put(entries: seq<(string, Value)>, key: string, value: Value): (r: seq<(string, Value)>)
    ensures r != []
  {
    if entries == [] then [(key, value)]
    else if entries[0].0 == key then [(key, value)] + entries[1..]
    else [entries[0]] + Put(entries[1..], key, value)
  }

  /** After `result[key] = value`, reading `key` gives `value` and every other key reads as before. */
  lemma {:induction false} PutLookup(entries: seq<(string, Value)>, key: string, value: Value, other: string)
    ensures Lookup(Put(entries, key, value), key) == Some(value)
    ensures other != key ==> Lookup(Put(entries, key, value), other) == Lookup(entries, other)
  {
    if entries != [] && entries[0].0 != key {
      PutLookup(entries[1..], key, value, other);
    }
  }

  /** Assigning a key never moves the keys already there; a new key is appended. */
  lemma {:induction false} PutKeys(entries: seq<(string, Value)>, key: string, value: Value)
    ensures Keys(Put(entries, key, value)) == if key in Keys(entries) then Keys(entries) else Keys(entries) + [key]
  {
    if entries != [] && entries[0].0 != key {
      PutKeys(entries[1..], key, value);
      assert Keys(entries) == [entries[0].0] + Keys(entries[1..]);
    } else if entries != [] {
      assert Keys(entries) == [entries[0].0] + Keys(entries[1..]);
    }
  }

  /** Assigning the same key twice keeps only the second value. */
  lemma {:induction false} PutTwice(entries: seq<(string, Value)>, key: string, first: Value, second: Value)
    ensures Put(Put(entries, key, first), key, second) == Put(entries, key, second)
  {
    if entries != [] && entries[0].0 != key {
      PutTwice(entries[1..], key, first, second);
    }
  }

  /** Assigning a key other than the first keeps the first entry where it is. */
  lemma PutKeepsFirst(entries: seq<(string, Value)>, key: string, value: Value)
    requires entries != [] && key != entries[0].0
    ensures Put(entries, key, value)[0] == entries[0]
  {
  }

  // ---------------------------------------------------------------------
  // The lifted value

  /** `result['@attributes'][attr.name] = attr.value` for the first `k` attributes. */
  function AttributeEntries(attributes: seq<(string, string)>): seq<(string, Value)>
  {
    if attributes == [] then []
    else
      var last := attributes[|attributes| - 1];
      Put(AttributeEntries(attributes[..|attributes| - 1]), last.0, Str(last.1))
  }

  /** The dictionary before the children: the attributes under `@attributes`, when there are any. */
  function InitialEntries(attributes: seq<(string, string)>): seq<(string, Value)>
  {
    if |attributes| > 0 then [(AttributesKey, Obj(AttributeEntries(attributes)))] else []
  }

  /** The loop over the children either goes on filling the dictionary or has returned a value. */
  datatype LiftState = Filling(entries: seq<(string, Value)>) | Returned(value: Value)

  /** A text node: blank text is skipped, the first thing seen is returned coerced, later text is `#text`. */
  function TextStep(entries: seq<(string, Value)>, content: string): LiftState
  {
    var text := Trim(content);
    if text == [] then Filling(entries)
    else if entries == [] then Returned(ConvertValue(text))
    else Filling(Put(entries, TextKey, ConvertValue(text)))
  }

  /**
   * A child element: stored under its name, or, when a truthy value is
   * already stored there, added to it as an array (a single stored value
   * becomes the array's first element).
   */
  function AddChild(entries: seq<(string, Value)>, name: string, childValue: Value): seq<(string, Value)>
  {
    match Lookup(entries, name)
    case Some(stored) =>
      if Truthy(stored) then Put(entries, name, Arr((if stored.Arr? then stored.items else [stored]) + [childValue]))
      else Put(entries, name, childValue)
    case None => Put(entries, name, childValue)
  }

  /** One child seen by the loop; `childValue` is the lifted child when the child is an element. */
  function LiftStep(st: LiftState, child: XmlNode, childValue: Value): LiftState
  {
    if st.Returned? then st
    else match child
      case Text(content) => TextStep(st.entries, content)
      case Element(name, _, _) => Filling(AddChild(st.entries, name, childValue))
      case Other => st
  }

  /** The state after the first `k` children of an element. */
  function LiftChildren(node: XmlNode, k: nat): LiftState
    requires node.Element? && k <= |node.children|
    decreases node, 0, k
  {
    if k == 0 then Filling(InitialEntries(node.attributes))
    else
      var child := node.children[k - 1];
      LiftStep(LiftChildren(node, k - 1), child, if child.Element? then XmlValue(child) else Null)
  }

  /** `xmlToObject(node)`: the returned value, or the dictionary, or `''` when the dictionary is empty. */
  function XmlValue(node: XmlNode): Value
    requires node.Element?
    decreases node, 1
  {
    match LiftChildren(node, |node.children|)
    case Returned(v) => v
    case Filling(entries) => if entries == [] then Str([]) else Obj(entries)
  }

  // ---------------------------------------------------------------------
  // The lifting as the source runs it

  /** `xmlToObject(xmlNode)`. */
  method XmlToObject(node: XmlNode) returns (r: Value)
    requires node.Element?
    ensures r == XmlValue(node)
    decreases node, 1
  {
    var result := [];
    if |node.attributes| > 0 {
      var attributes := CollectAttributes(node.attributes);
      result := Put(result, AttributesKey, Obj(attributes));
    }
    for i := 0 to |node.children|
      invariant LiftChildren(node, i) == Filling(result)
    {
      var st := LiftChild(node, i, result);
      if st.Returned? {
        ReturnedStays(node, i + 1, |node.children|);
        return st.value;
      }
      result := st.entries;
    }
    r := if result == [] then Str([]) else Obj(result);
  }

  /** `for (let attr of xmlNode.attributes)`: each attribute assigned in turn. */
  method CollectAttributes(attributes: seq<(string, string)>) returns (entries: seq<(string, Value)>)
    ensures entries == AttributeEntries(attributes)
  {
    entries := [];
    for i := 0 to |attributes|
      invariant entries == AttributeEntries(attributes[..i])
    {
      assert attributes[..i + 1][..i] == attributes[..i];
      entries := Put(entries, attributes[i].0, Str(attributes[i].1));
    }
    assert attributes[..|attributes|] == attributes;
  }

  /** One turn of `for (let child of xmlNode.childNodes)`. */
  method LiftChild(node: XmlNode, i: nat, result: seq<(string, Value)>) returns (st: LiftState)
    requires node.Element? && i < |node.children|
    requires LiftChildren(node, i) == Filling(result)
    ensures st == LiftChildren(node, i + 1)
    decreases node, 0
  {
    var child := node.children[i];
    st := Filling(result);
    match child {
      case Text(content) =>
        var text := Trim(content);
        if text != [] {
          if result == [] {
            st := Returned(ConvertValue(text));
          } else {
            st := Filling(Put(result, TextKey, ConvertValue(text)));
          }
        }
      case Element(childName, _, _) =>
        var childValue := XmlToObject(child);
        var entries := StoreChild(result, childName, childValue);
        st := Filling(entries);
      case Other =>
    }
  }

  /** The element branch: `result[childName] = ...`, then `push` when the stored value is truthy. */
  method StoreChild(result: seq<(string, Value)>, childName: string, childValue: Value) returns (entries: seq<(string, Value)>)
    ensures entries == AddChild(result, childName, childValue)
  {
    entries := result;
    var stored := Lookup(entries, childName);
    if stored.Some? && Truthy(stored.value) {
      if !stored.value.Arr? {
        entries := Put(entries, childName, Arr([stored.value]));
        PutLookup(result, childName, Arr([stored.value]), childName);
      }
      var current := Lookup(entries, childName).value;
      entries := Put(entries, childName, Arr(current.items + [childValue]));
      if !stored.value.Arr? {
        PutTwice(result, childName, Arr([stored.value]), Arr(current.items + [childValue]));
      }
    } else {
      entries := Put(entries, childName, childValue);
    }
  }

  // ---------------------------------------------------------------------
  // What the lifting promises

  /** Once the loop has returned, the remaining children are never looked at. */
  lemma {:induction false} ReturnedStays(node: XmlNode, i: nat, k: nat)
    requires node.Element? && i <= k <= |node.children|
    requires LiftChildren(node, i).Returned?
    ensures LiftChildren(node, k) == LiftChildren(node, i)
    decreases k
  {
    if k > i {
      ReturnedStays(node, i, k - 1);
    }
  }

  /** What storing a child does to the dictionary, read key by key. */
  lemma AddChildLookup(entries: seq<(string, Value)>, name: string, childValue: Value, other: string)
    ensures var stored := Lookup(entries, name);
      Lookup(AddChild(entries, name, childValue), name)
        == Some(if stored.Some? && Truthy(stored.value)
                then Arr((if stored.value.Arr? then stored.value.items else [stored.value]) + [childValue])
                else childValue)
    ensures other != name ==> Lookup(AddChild(entries, name, childValue), other) == Lookup(entries, other)
  {
    var stored := Lookup(entries, name);
    var v := if stored.Some? && Truthy(stored.value)
      then Arr((if stored.value.Arr? then stored.value.items else [stored.value]) + [childValue])
      else childValue;
    PutLookup(entries, name, v, other);
  }

  /** Distinct attribute names each read back as their value, as a string. */
  lemma {:induction false} AttributesRead(attributes: seq<(string, string)>, i: nat)
    requires i < |attributes|
    requires forall j, k :: 0 <= j < k < |attributes| ==> attributes[j].0 != attributes[k].0
    ensures Lookup(AttributeEntries(attributes), attributes[i].0) == Some(Str(attributes[i].1))
  {
    var init := attributes[..|attributes| - 1];
    var last := attributes[|attributes| - 1];
    PutLookup(AttributeEntries(init), last.0, Str(last.1), attributes[i].0);
    if i < |attributes| - 1 {
      AttributesRead(init, i);
    }
  }

  /** With attributes the dictionary is never empty, so the loop never returns early and `@attributes` stays first. */
  lemma {:induction false} AttributesStayFirst(node: XmlNode, k: nat)
    requires node.Element? && |node.attributes| > 0 && k <= |node.children|
    requires forall j :: 0 <= j < |node.children| && node.children[j].Element? ==> node.children[j].name != AttributesKey
    ensures LiftChildren(node, k).Filling?
    ensures var e := LiftChildren(node, k).entries;
      e != [] && e[0] == (AttributesKey, Obj(AttributeEntries(node.attributes)))
    decreases k
  {
    if k > 0 {
      AttributesStayFirst(node, k - 1);
      var e := LiftChildren(node, k - 1).entries;
      match node.children[k - 1]
      case Text(content) =>
        if Trim(content) != [] {
          assert TextKey != AttributesKey by { assert TextKey[0] != AttributesKey[0]; }
          PutKeepsFirst(e, TextKey, ConvertValue(Trim(content)));
        }
      case Element(name, _, _) =>
        var v := XmlValue(node.children[k - 1]);
        var stored := Lookup(e, name);
        if stored.Some? && Truthy(stored.value) {
          PutKeepsFirst(e, name, Arr((if stored.value.Arr? then stored.value.items else [stored.value]) + [v]));
        } else {
          PutKeepsFirst(e, name, v);
        }
      case Other =>
    }
  }

  /** An element with attributes lifts to an object whose first entry holds them. */
  lemma AttributesLifted(node: XmlNode)
    requires node.Element? && |node.attributes| > 0
    requires forall j :: 0 <= j < |node.children| && node.children[j].Element? ==> node.children[j].name != AttributesKey
    ensures XmlValue(node).Obj? && XmlValue(node).entries != []
    ensures XmlValue(node).entries[0] == (AttributesKey, Obj(AttributeEntries(node.attributes)))
  {
    AttributesStayFirst(node, |node.children|);
  }

  /** A child that adds nothing: a blank text node or a node that is neither text nor element. */
  predicate Ignored(child: XmlNode)
  {
    child.Other? || (child.Text? && Trim(child.content) == [])
  }

  /** Nothing before child `k` has added anything: the dictionary is still empty. */
  lemma {:induction false} NothingYet(node: XmlNode, k: nat)
    requires node.Element? && node.attributes == [] && k <= |node.children|
    requires forall j :: 0 <= j < k ==> Ignored(node.children[j])
    ensures LiftChildren(node, k) == Filling([])
    decreases k
  {
    if k > 0 {
      NothingYet(node, k - 1);
    }
  }

  /** An element with no attributes, no child elements and only blank text lifts to `''`. */
  lemma EmptyElement(node: XmlNode)
    requires node.Element? && node.attributes == []
    requires forall j :: 0 <= j < |node.children| ==> Ignored(node.children[j])
    ensures XmlValue(node) == Str([])
  {
    NothingYet(node, |node.children|);
  }

  /**
   * Text that arrives before any attribute or child element is returned
   * coerced at once; the children after it are dropped.
   */
  lemma LeadingTextReturned(node: XmlNode, k: nat)
    requires node.Element? && node.attributes == [] && k < |node.children|
    requires forall j :: 0 <= j < k ==> Ignored(node.children[j])
    requires node.children[k].Text? && Trim(node.children[k].content) != []
    ensures XmlValue(node) == ConvertValue(Trim(node.children[k].content))
  {
    TextReturnedAt(node, k);
    ReturnedIsValue(node, k, ConvertValue(Trim(node.children[k].content)));
  }

  lemma TextReturnedAt(node: XmlNode, k: nat)
    requires node.Element? && node.attributes == [] && k < |node.children|
    requires forall j :: 0 <= j < k ==> Ignored(node.children[j])
    requires node.children[k].Text? && Trim(node.children[k].content) != []
    ensures LiftChildren(node, k + 1) == Returned(ConvertValue(Trim(node.children[k].content)))
  {
    var child := node.children[k];
    NothingYet(node, k);
    LiftNext(node, k);
    TextChildStep([], child.content);
    FirstTextReturned(child.content);
  }

  /** A value returned at child `k` is the element's value. */
  lemma ReturnedIsValue(node: XmlNode, k: nat, v: Value)
    requires node.Element? && k < |node.children|
    requires LiftChildren(node, k + 1) == Returned(v)
    ensures XmlValue(node) == v
  {
    ReturnedStays(node, k + 1, |node.children|);
  }

  /** The loop's state after child `k` is one step from the state before it. */
  lemma LiftNext(node: XmlNode, k: nat)
    requires node.Element? && k < |node.children|
    ensures var child := node.children[k];
      LiftChildren(node, k + 1) == LiftStep(LiftChildren(node, k), child, if child.Element? then XmlValue(child) else Null)
  {
  }

  lemma TextChildStep(entries: seq<(string, Value)>, content: string)
    ensures LiftStep(Filling(entries), Text(content), Null) == TextStep(entries, content)
  {
  }

  lemma FirstTextReturned(content: string)
    requires Trim(content) != []
    ensures TextStep([], content) == Returned(ConvertValue(Trim(content)))
  {
  }

  /** Later text, once something is stored, is kept under `#text` and the loop goes on. */
  lemma LaterTextStored(entries: seq<(string, Value)>, content: string)
    requires entries != [] && Trim(content) != []
    ensures TextStep(entries, content).Filling?
    ensures Lookup(TextStep(entries, content).entries, TextKey) == Some(ConvertValue(Trim(content)))
  {
    PutLookup(entries, TextKey, ConvertValue(Trim(content)), TextKey);
  }

  lemma StepScalar(st: LiftState, child: XmlNode, childValue: Value)
    requires st.Returned? ==> !IsContainer(st.value)
    ensures LiftStep(st, child, childValue).Returned? ==> !IsContainer(LiftStep(st, child, childValue).value)
  {
    if !st.Returned? && child.Text? {
      TextStepScalar(st.entries, child.content);
    }
  }

  lemma TextStepScalar(entries: seq<(string, Value)>, content: string)
    ensures TextStep(entries, content).Returned? ==> !IsContainer(TextStep(entries, content).value)
  {
    var text := Trim(content);
    if text != [] && entries == [] {
      ConvertValueKinds(text);
    }
  }

  /** The loop only ever returns a coerced scalar. */
  lemma {:induction false} ReturnedScalar(node: XmlNode, k: nat)
    requires node.Element? && k <= |node.children|
    ensures LiftChildren(node, k).Returned? ==> !IsContainer(LiftChildren(node, k).value)
    decreases k
  {
    if k > 0 {
      ReturnedScalar(node, k - 1);
      var child := node.children[k - 1];
      var before := LiftChildren(node, k - 1);
      var childValue := if child.Element? then XmlValue(child) else Null;
      assert LiftChildren(node, k) == LiftStep(before, child, childValue);
      StepScalar(before, child, childValue);
    }
  }

  /**
   * An element lifts to a coerced scalar, a string or an object, never to an
   * array: arrays appear only as the values of repeated child names.
   */
  lemma NeverArray(node: XmlNode)
    requires node.Element?
    ensures !XmlValue(node).Arr?
  {
    ReturnedScalar(node, |node.children|);
  }

  /** The values of the first `k` children of an element, in document order. */
  function ChildValues(node: XmlNode, k: nat): seq<Value>
    requires node.Element? && k <= |node.children|
    requires forall j :: 0 <= j < k ==> node.children[j].Element?
  {
    if k == 0 then [] else ChildValues(node, k - 1) + [XmlValue(node.children[k - 1])]
  }

  /**
   * Children repeating one name, each lifting to a truthy value, are
   * collected in an array in document order once there are two of them.
   */
  lemma {:induction false} RepeatsCollected(node: XmlNode, name: string, k: nat)
    requires node.Element? && node.attributes == [] && k <= |node.children|
    requires forall j :: 0 <= j < k ==> node.children[j].Element? && node.children[j].name == name
    requires forall j :: 0 <= j < k ==> Truthy(XmlValue(node.children[j]))
    ensures k == 0 ==> LiftChildren(node, k) == Filling([])
    ensures k == 1 ==> LiftChildren(node, k) == Filling([(name, XmlValue(node.children[0]))])
    ensures k >= 2 ==> LiftChildren(node, k) == Filling([(name, Arr(ChildValues(node, k)))])
    decreases k
  {
    if k > 0 {
      RepeatsCollected(node, name, k - 1);
      var child := node.children[k - 1];
      var v := XmlValue(child);
      var before := LiftChildren(node, k - 1);
      assert LiftChildren(node, k) == Filling(AddChild(before.entries, name, v));
      if k == 1 {
        assert Lookup([], name) == None;
      } else if k == 2 {
        var first := XmlValue(node.children[0]);
        NeverArray(node.children[0]);
        assert before.entries == [(name, first)];
        assert Lookup(before.entries, name) == Some(first);
        assert ChildValues(node, 1) == [first];
        assert ChildValues(node, 2) == [first] + [v];
      } else {
        var stored := Arr(ChildValues(node, k - 1));
        assert before.entries == [(name, stored)];
        assert Lookup(before.entries, name) == Some(stored);
      }
    }
  }

  /**
   * A repeat after a falsy value (`''`, `0`, `false`, `null`) overwrites it
   * instead of starting an array.
   */
  lemma FalsyOverwritten(entries: seq<(string, Value)>, name: string, childValue: Value)
    requires Lookup(entries, name).Some? && !Truthy(Lookup(entries, name).value)
    ensures AddChild(entries, name, childValue) == Put(entries, name, childValue)
    ensures Lookup(AddChild(entries, name, childValue), name) == Some(childValue)
  {
    PutLookup(entries, name, childValue, name);
  }
}
