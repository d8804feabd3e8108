/**
 * The parser's entry point `parseData` (js/parser.js:2-44) and its two
 * statistics walks, `analyzeJSONStructure` (js/parser.js:263-278) and
 * `analyzeXMLStructure` (js/parser.js:280-299). `JSON.parse` and
 * `DOMParser` are not part of this model: they are passed in as
 * `Parsers`, and the XML parser hands back the document element, which
 * `xmlToObject` then lifts.
 */
module Parser {
  import opened JsValues
  import opened ValueWalk
  import opened ParserXml

  /**
   * `JSON.parse`, giving the value or the message of the error it throws;
   * `DOMParser` with the `parsererror` check, giving the document element's
   * name, attributes and children, or nothing when the document has errors.
   */
  datatype Parsers = Parsers(
    json: string -> Result<Value>,
    xml: string -> Option<(string, seq<(string, string)>, seq<XmlNode>)>)

  /** `{ data, format }`. */
  datatype Parsed = Parsed(data: Value, format: string)

  const InvalidInput := "Invalid input data"
  const InvalidJson := "Invalid JSON: "
  const InvalidXml := "Invalid XML: Invalid XML structure"
  const Unrecognized := "Unrecognized data format. Please provide valid JSON or XML data."

  /** The trimmed text starts like JSON. */
  predicate LooksLikeJson(t: string)
  {
    StartsWith(t, "{") || StartsWith(t, "[")
  }

  /** The trimmed text starts like XML or holds an XML declaration somewhere. */
  predicate LooksLikeXml(t: string)
  {
    StartsWith(t, "<") || Contains(t, "<?xml")
  }

  /** `parseData(inputData)`. */
  function ParseData(input: Value, parsers: Parsers): Result<Parsed>
  {
    if !input.Str? || input.text == [] then Failure(InvalidInput)
    else
      var trimmed := Trim(input.text);
      if LooksLikeJson(trimmed) then ParseJson(trimmed, parsers)
      else if LooksLikeXml(trimmed) then ParseXml(trimmed, parsers)
      else Failure(Unrecognized)
  }

  /** `parseJSON(jsonString)`. */
  function ParseJson(text: string, parsers: Parsers): Result<Parsed>
  {
    match parsers.json(text)
    case Success(data) => Success(Parsed(data, "json"))
    case Failure(message) => Failure(InvalidJson + message)
  }

  /** `parseXML(xmlString)`: the document element lifted by `xmlToObject`. */
  function ParseXml(text: string, parsers: Parsers): Result<Parsed>
  {
    match parsers.xml(text)
    case None => Failure(InvalidXml)
    case Some(document) => Success(Parsed(XmlValue(DocumentElement(document)), "xml"))
  }

  /** `xmlDoc.documentElement`. */
  function DocumentElement(document: (string, seq<(string, string)>, seq<XmlNode>)): (r: XmlNode)
    ensures r.Element?
  {
    Element(document.0, document.1, document.2)
  }

  /**
   * What `parseData` decides before any parser runs: anything but a
   * non-empty string is refused; after trimming, a text starting with `{`
   * or `[` goes to the JSON parser, else one starting with `<` or holding
   * `<?xml` goes to the XML parser, and anything else is refused.
   */
  lemma ParseDispatch(input: Value, parsers: Parsers)
    ensures ParseData(input, parsers) == Failure(InvalidInput) <==> !input.Str? || input.text == []
    ensures input.Str? && input.text != [] ==>
      var t := Trim(input.text);
      && (LooksLikeJson(t) ==> ParseData(input, parsers) == ParseJson(t, parsers))
      && (!LooksLikeJson(t) && LooksLikeXml(t) ==> ParseData(input, parsers) == ParseXml(t, parsers))
      && (!LooksLikeJson(t) && !LooksLikeXml(t) ==> ParseData(input, parsers) == Failure(Unrecognized))
  {
    assert |InvalidInput| == 18 && |Unrecognized| == 64;
    if input.Str? && input.text != [] {
      var t := Trim(input.text);
      match parsers.json(t)
      case Failure(m) => JsonErrorPrefixed(m);
      case Success(_) =>
    }
  }

  lemma JsonErrorPrefixed(m: string)
    ensures InvalidJson + m != InvalidInput
  {
    var e := InvalidJson + m;
    assert e[8] == InvalidJson[8] == 'J';
    assert InvalidInput[8] == 'i';
  }

  /** A successful parse reports the format of the parser that ran, and only a parser's success gives one. */
  lemma ParsedFormat(input: Value, parsers: Parsers)
    requires ParseData(input, parsers).Success?
    ensures input.Str?
    ensures var t := Trim(input.text);
      var p := ParseData(input, parsers).value;
      && (p.format == "json" <==> LooksLikeJson(t))
      && (p.format == "json" ==> parsers.json(t) == Success(p.data))
      && (p.format == "xml" <==> !LooksLikeJson(t))
      && (p.format == "xml" ==> parsers.xml(t).Some? && p.data == XmlValue(DocumentElement(parsers.xml(t).value)))
  {
  }

  /** Text that is nothing but white space is a non-empty string, so it is not refused as input but as a format. */
  lemma BlankIsUnrecognized(text: string, parsers: Parsers)
    requires text != [] && forall i :: 0 <= i < |text| ==> IsJsSpace(text[i])
    ensures ParseData(Str(text), parsers) == Failure(Unrecognized)
  {
    assert Trim(text) == [];
    assert !Contains([], "<?xml");
  }

  // ---------------------------------------------------------------------
  // `analyzeJSONStructure` and `analyzeXMLStructure`

  /** The counters of the `stats` record both walks update. */
  datatype StatsInfo = StatsInfo(depth: nat, elements: nat, arrays: nat, objects: nat, primitives: nat)

  const ZeroStats := StatsInfo(0, 0, 0, 0, 0)

  /**
   * What one visit adds, the same in both walks: the deepest level so far,
   * one element, and one array, object or primitive (`null` among them).
   */
  function StatsStep(s: StatsInfo, visit: Visit): StatsInfo
  {
    var (v, depth) := visit;
    s.(depth := Max(s.depth, depth),
       elements := s.elements + 1,
       arrays := s.arrays + (if v.Arr? then 1 else 0),
       objects := s.objects + (if v.Obj? then 1 else 0),
       primitives := s.primitives + (if IsContainer(v) then 0 else 1))
  }

  /** `analyzeXMLStructure` passes over the values of an object that are blank strings; array items are all walked. */
  predicate Walked(v: Value, i: nat)
    requires i < ChildCount(v)
  {
    v.Arr? || !(Child(v, i).Str? && Trim(Child(v, i).text) == [])
  }

  /** The visits of `analyzeXMLStructure`: the value, then the walked children one level deeper. */
  function XmlVisits(v: Value, depth: nat): (r: seq<Visit>)
    ensures |r| > 0 && r[0] == (v, depth)
    decreases v, 1
  {
    [(v, depth)] + XmlChildVisits(v, ChildCount(v), depth + 1)
  }

  function XmlChildVisits(v: Value, n: nat, depth: nat): seq<Visit>
    requires n <= ChildCount(v)
    decreases v, 0, n
  {
    if n == 0 then []
    else XmlChildVisits(v, n - 1, depth) + (if Walked(v, n - 1) then XmlVisits(Child(v, n - 1), depth) else [])
  }

  /** The `stats` record both walks update. */
  class Stats {
    var depth: nat
    var elements: nat
    var arrays: nat
    var objects: nat
    var primitives: nat

    function Info(): StatsInfo
      reads this
    {
      StatsInfo(depth, elements, arrays, objects, primitives)
    }

    /** The record `getDataStats` starts both walks from. */
    constructor ()
      ensures Info() == ZeroStats
    {
      depth, elements, arrays, objects, primitives := 0, 0, 0, 0, 0;
    }

    /** The update one visit makes, in both walks. */
    method Count(v: Value, level: nat)
      modifies this
      ensures Info() == StatsStep(old(Info()), (v, level))
    {
      depth := Max(depth, level);
      elements := elements + 1;
      if v.Arr? {
        arrays := arrays + 1;
      } else if v.Obj? {
        objects := objects + 1;
      } else {
        primitives := primitives + 1;
      }
    }

    /** `analyzeJSONStructure(obj, stats, depth)`. */
    method AnalyzeJsonStructure(v: Value, level: nat)
      modifies this
      ensures Info() == Fold(StatsStep, old(Info()), Visits(v, level))
      decreases v, 1
    {
      ghost var before := Info();
      Count(v, level);
      AnalyzeJsonChildren(v, level + 1);
      FirstStatsVisit(before, v, level);
    }

    /** `obj.forEach(...)` over an array, `Object.values(obj).forEach(...)` over an object. */
    method AnalyzeJsonChildren(v: Value, level: nat)
      modifies this
      ensures Info() == Fold(StatsStep, old(Info()), ChildVisits(v, ChildCount(v), level))
      decreases v, 0
    {
      ghost var start := Info();
      for i := 0 to ChildCount(v)
        invariant Info() == Fold(StatsStep, start, ChildVisits(v, i, level))
      {
        AnalyzeJsonStructure(Child(v, i), level);
        FoldAppend(StatsStep, start, ChildVisits(v, i, level), Visits(Child(v, i), level));
      }
    }

    /** `analyzeXMLStructure(obj, stats, depth)`. */
    method AnalyzeXmlStructure(v: Value, level: nat)
      modifies this
      ensures Info() == Fold(StatsStep, old(Info()), XmlVisits(v, level))
      decreases v, 1
    {
      ghost var before := Info();
      Count(v, level);
      AnalyzeXmlChildren(v, level + 1);
      FirstXmlVisit(before, v, level);
    }

    /** One turn of the children's loop: the child is walked unless it is passed over. */
    method AnalyzeXmlChild(v: Value, i: nat, level: nat, ghost start: StatsInfo)
      requires i < ChildCount(v)
      requires Info() == Fold(StatsStep, start, XmlChildVisits(v, i, level))
      modifies this
      ensures Info() == Fold(StatsStep, start, XmlChildVisits(v, i + 1, level))
      decreases v, 0, 0
    {
      if Walked(v, i) {
        var child := Child(v, i);
        assert XmlChildVisits(v, i + 1, level) == XmlChildVisits(v, i, level) + XmlVisits(child, level);
        AnalyzeXmlStructure(child, level);
        FoldAppend(StatsStep, start, XmlChildVisits(v, i, level), XmlVisits(child, level));
      } else {
        assert XmlChildVisits(v, i + 1, level) == XmlChildVisits(v, i, level) + [] == XmlChildVisits(v, i, level);
      }
    }

    /** The children of `analyzeXMLStructure`, blank strings among an object's values passed over. */
    method AnalyzeXmlChildren(v: Value, level: nat)
      modifies this
      ensures Info() == Fold(StatsStep, old(Info()), XmlChildVisits(v, ChildCount(v), level))
      decreases v, 0, 1
    {
      ghost var start := Info();
      for i := 0 to ChildCount(v)
        invariant Info() == Fold(StatsStep, start, XmlChildVisits(v, i, level))
      {
        AnalyzeXmlChild(v, i, level, start);
      }
    }
  }

  lemma FirstStatsVisit(s: StatsInfo, v: Value, level: nat)
    ensures Fold(StatsStep, s, Visits(v, level))
        == Fold(StatsStep, StatsStep(s, (v, level)), ChildVisits(v, ChildCount(v), level + 1))
  {
    var root := [(v, level)];
    FoldAppend(StatsStep, s, root, ChildVisits(v, ChildCount(v), level + 1));
    assert root[..0] == [];
  }

  lemma FirstXmlVisit(s: StatsInfo, v: Value, level: nat)
    ensures Fold(StatsStep, s, XmlVisits(v, level))
        == Fold(StatsStep, StatsStep(s, (v, level)), XmlChildVisits(v, ChildCount(v), level + 1))
  {
    var root := [(v, level)];
    FoldAppend(StatsStep, s, root, XmlChildVisits(v, ChildCount(v), level + 1));
    assert root[..0] == [];
  }

  /** What the record holds after any visits: one element per visit, each an array, an object or a primitive. */
  lemma {:induction false} StatsFold(s: StatsInfo, visits: seq<Visit>)
    ensures var r := Fold(StatsStep, s, visits);
      && r.elements == s.elements + |visits|
      && r.arrays + r.objects + r.primitives == s.arrays + s.objects + s.primitives + |visits|
      && r.depth == Max(s.depth, Deepest(visits))
    decreases |visits|
  {
    if visits != [] {
      StatsFold(s, visits[..|visits| - 1]);
    }
  }

  /**
   * `analyzeJSONStructure` from a fresh record counts every value of the
   * tree once, as an array, an object or a primitive, and reaches exactly
   * the height of the tree.
   */
  lemma JsonStats(data: Value)
    ensures var r := Fold(StatsStep, ZeroStats, Visits(data, 0));
      && r.elements == r.arrays + r.objects + r.primitives
      && r.elements == Size(data)
      && r.depth == Height(data)
  {
    StatsFold(ZeroStats, Visits(data, 0));
    VisitCount(data, 0);
    DeepestVisit(data, 0);
  }

  /** The XML walk visits no more values than the tree holds. */
  lemma {:induction false} XmlVisitCount(v: Value, level: nat)
    ensures |XmlVisits(v, level)| <= Size(v)
    decreases v, 1
  {
    XmlChildVisitCount(v, ChildCount(v), level + 1);
  }

  lemma {:induction false} XmlChildVisitCount(v: Value, n: nat, level: nat)
    requires n <= ChildCount(v)
    ensures |XmlChildVisits(v, n, level)| <= ChildrenSize(v, n)
    decreases v, 0, n
  {
    if n > 0 {
      XmlChildVisitCount(v, n - 1, level);
      XmlVisitCount(Child(v, n - 1), level);
    }
  }

  /** With no blank strings to pass over, the XML walk is the JSON walk. */
  predicate NoBlankStrings(v: Value)
    decreases v, 1
  {
    forall i :: 0 <= i < ChildCount(v) ==> Walked(v, i) && NoBlankStrings(Child(v, i))
  }

  lemma {:induction false} XmlWalkIsJsonWalk(v: Value, level: nat)
    requires NoBlankStrings(v)
    ensures XmlVisits(v, level) == Visits(v, level)
    decreases v, 1
  {
    XmlChildWalk(v, ChildCount(v), level + 1);
  }

  lemma {:induction false} XmlChildWalk(v: Value, n: nat, level: nat)
    requires n <= ChildCount(v) && NoBlankStrings(v)
    ensures XmlChildVisits(v, n, level) == ChildVisits(v, n, level)
    decreases v, 0, n
  {
    if n > 0 {
      XmlChildWalk(v, n - 1, level);
      XmlWalkIsJsonWalk(Child(v, n - 1), level);
    }
  }

  /**
   * `analyzeXMLStructure` from a fresh record also splits its elements into
   * arrays, objects and primitives, counts the root, and never counts more
   * elements than the tree holds.
   */
  lemma XmlStats(data: Value)
    ensures var r := Fold(StatsStep, ZeroStats, XmlVisits(data, 0));
      && r.elements == r.arrays + r.objects + r.primitives
      && 1 <= r.elements <= Size(data)
  {
    StatsFold(ZeroStats, XmlVisits(data, 0));
    XmlVisitCount(data, 0);
  }
}
