/**
 * The rest of the converter: the format dispatch `convert`, the structure
 * statistics of `detectDataStructure`/`analyzeStructure`, the notes of
 * `getConversionNotes` and the truncated `getConversionPreview`.
 * `xmlToJson` is `JSON.stringify(data, null, 2)`, a host call.
 */
module Converter {
  import opened JsValues
  import opened ValueWalk
  import ConverterXml

  // ---------------------------------------------------------------------
  // `convert`

  const SameFormatError := "Source and target formats cannot be the same"

  /**
   * `convert(data, sourceFormat, targetFormat)`: the same format twice is
   * refused as it is; JSON to XML and XML to JSON convert; an error from
   * `jsonToXml` and every other pair are refused with the message wrapped
   * by `Conversion failed: `.
   */
  function Convert(data: Value, sourceFormat: string, targetFormat: string, host: Host): (r: Result<string>)
    ensures sourceFormat == targetFormat ==> r == Failure(SameFormatError)
  {
    if sourceFormat == targetFormat then Failure(SameFormatError)
    else if sourceFormat == "json" && targetFormat == "xml" then
      match ConverterXml.JsonToXmlResult(data, "root")
      case Failure(e) => Failure(ConversionFailed + e)
      case Success(xml) => Success(xml)
    else if sourceFormat == "xml" && targetFormat == "json" then Success(host.stringifyIndented(data))
    else Failure(ConversionFailed + Unsupported(sourceFormat, targetFormat))
  }

  const ConversionFailed := "Conversion failed: "

  /** The message thrown inside the `try` for a pair of formats with no converter. */
  function Unsupported(sourceFormat: string, targetFormat: string): string
  {
    "Conversion from " + sourceFormat + " to " + targetFormat + " is not supported"
  }

  /**
   * Exactly the two directions between JSON and XML succeed, JSON to XML
   * only for data without an object holding an own `hasOwnProperty` entry.
   */
  lemma ConvertSucceeds(data: Value, sourceFormat: string, targetFormat: string, host: Host)
    ensures Convert(data, sourceFormat, targetFormat, host).Success?
        <==> ((sourceFormat, targetFormat) == ("json", "xml") && !ConverterXml.Throws(data))
             || (sourceFormat, targetFormat) == ("xml", "json")
  {
    if sourceFormat == targetFormat {
      assert Convert(data, sourceFormat, targetFormat, host).Failure?;
    }
  }

  /** A pair of different formats other than the two supported ones is refused with a wrapped message. */
  lemma UnsupportedWrapped(data: Value, sourceFormat: string, targetFormat: string, host: Host)
    requires sourceFormat != targetFormat
    requires (sourceFormat, targetFormat) != ("json", "xml") && (sourceFormat, targetFormat) != ("xml", "json")
    ensures Convert(data, sourceFormat, targetFormat, host).Failure?
    ensures StartsWith(Convert(data, sourceFormat, targetFormat, host).error, ConversionFailed)
  {
    var e := Convert(data, sourceFormat, targetFormat, host).error;
    assert e[..|ConversionFailed|] == ConversionFailed;
  }

  /**
   * JSON to XML yields the XML text of the data under `root`, declaration
   * first; data reaching an own `hasOwnProperty` entry is refused with the
   * `TypeError` wrapped twice.
   */
  lemma JsonToXmlConverts(data: Value, host: Host)
    ensures !ConverterXml.Throws(data) ==> Convert(data, "json", "xml", host) == Success(ConverterXml.JsonToXmlText(data, "root"))
    ensures !ConverterXml.Throws(data) ==>
      StartsWith(Convert(data, "json", "xml", host).value, "<?xml version=\"1.0\" encoding=\"UTF-8\"?>")
    ensures ConverterXml.Throws(data) ==>
      Convert(data, "json", "xml", host)
        == Failure(ConversionFailed + (ConverterXml.JsonToXmlFailed + HasOwnPropertyError))
  {
    assert "json" != "xml";
    if !ConverterXml.Throws(data) {
      ConverterXml.JsonToXmlDeclared(data, "root");
    }
  }

  /**
   * `{"a": {"hasOwnProperty": 1}}`, as `JSON.parse` gives it, cannot be
   * converted to XML: the nested object hides `hasOwnProperty`.
   */
  lemma HiddenHasOwnPropertyRefused(host: Host)
    ensures Convert(Obj([("a", Obj([(HasOwnPropertyKey, Int(1))]))]), "json", "xml", host)
      == Failure(ConversionFailed + (ConverterXml.JsonToXmlFailed + HasOwnPropertyError))
  {
    var inner := Obj([(HasOwnPropertyKey, Int(1))]);
    var data := Obj([("a", inner)]);
    assert Keys(inner.entries)[0] == HasOwnPropertyKey;
    assert ConverterXml.Throws(inner);
    assert ConverterXml.ChildThrows(data, 0);
    assert ConverterXml.ChildrenThrow(data, 1);
    JsonToXmlConverts(data, host);
  }

  // ---------------------------------------------------------------------
  // `getConversionPreview`

  const TruncationMark := "\n... (truncated)"
  const PreviewFailed := "Preview failed: "

  /** `converted.substring(0, maxLength)`: a negative length counts as 0, a longer one as the whole text. */
  function Substring(s: string, end: int): (r: string)
    ensures |r| == if end < 0 then 0 else if end > |s| then |s| else end
    ensures StartsWith(s, r)
  {
    if end < 0 then [] else if end > |s| then s else s[..end]
  }

  /** `getConversionPreview(data, sourceFormat, targetFormat, maxLength)`. */
  function ConversionPreview(data: Value, sourceFormat: string, targetFormat: string, maxLength: int, host: Host): string
  {
    match Convert(data, sourceFormat, targetFormat, host)
    case Failure(e) => PreviewFailed + e
    case Success(converted) =>
      if |converted| <= maxLength then converted else Substring(converted, maxLength) + TruncationMark
  }

  /**
   * A conversion no longer than `maxLength` is shown whole; a longer one is
   * cut to its first `maxLength` characters and marked; a failure is
   * reported with its message.
   */
  lemma PreviewCases(data: Value, sourceFormat: string, targetFormat: string, maxLength: nat, host: Host)
    ensures var c := Convert(data, sourceFormat, targetFormat, host);
      var p := ConversionPreview(data, sourceFormat, targetFormat, maxLength, host);
      && (c.Failure? ==> p == PreviewFailed + c.error)
      && (c.Success? && |c.value| <= maxLength ==> p == c.value)
      && (c.Success? && |c.value| > maxLength ==>
            |p| == maxLength + |TruncationMark| && StartsWith(c.value, p[..maxLength])
            && p[maxLength..] == TruncationMark)
  {
    var c := Convert(data, sourceFormat, targetFormat, host);
    if c.Success? && |c.value| > maxLength {
      var cut := Substring(c.value, maxLength);
      var p := cut + TruncationMark;
      assert p[..maxLength] == cut;
      assert p[maxLength..] == TruncationMark;
    }
  }

  // ---------------------------------------------------------------------
  // `detectDataStructure` / `analyzeStructure`

  /** A snapshot of the statistics record. */
  datatype StructureInfo = StructureInfo(
    hasArrays: bool, hasObjects: bool, hasNestedStructures: bool, maxDepth: nat, totalElements: nat)

  /** What one visit of `analyzeStructure` adds to the record. */
  function StructureStep(s: StructureInfo, visit: Visit): StructureInfo
  {
    var (v, depth) := visit;
    s.(maxDepth := Max(s.maxDepth, depth),
       totalElements := s.totalElements + 1,
       hasArrays := s.hasArrays || v.Arr?,
       hasObjects := s.hasObjects || v.Obj?,
       hasNestedStructures := s.hasNestedStructures || (IsContainer(v) && depth > 0))
  }

  const EmptyStructure := StructureInfo(false, false, false, 0, 0)

  /** The record `analyzeStructure` updates while it recurses. */
  class Structure {
    var hasArrays: bool
    var hasObjects: bool
    var hasNestedStructures: bool
    var maxDepth: nat
    var totalElements: nat

    function Info(): StructureInfo
      reads this
    {
      StructureInfo(hasArrays, hasObjects, hasNestedStructures, maxDepth, totalElements)
    }

    constructor ()
      ensures Info() == EmptyStructure
    {
      hasArrays, hasObjects, hasNestedStructures := false, false, false;
      maxDepth, totalElements := 0, 0;
    }

    /** `analyzeStructure(obj, structure, depth)`: one step for `v`, then its children one level deeper. */
    method AnalyzeStructure(v: Value, depth: nat)
      modifies this
      ensures Info() == Fold(StructureStep, old(Info()), Visits(v, depth))
      decreases v, 1
    {
      ghost var before := Info();
      maxDepth := Max(maxDepth, depth);
      totalElements := totalElements + 1;
      if v.Arr? {
        hasArrays := true;
        if depth > 0 {
          hasNestedStructures := true;
        }
      } else if v.Obj? {
        hasObjects := true;
        if depth > 0 {
          hasNestedStructures := true;
        }
      }
      assert Info() == StructureStep(before, (v, depth));
      AnalyzeChildren(v, depth + 1);
      FirstVisitFold(before, v, depth);
    }

    /** `obj.forEach(...)` over an array, `Object.values(obj).forEach(...)` over an object. */
    method AnalyzeChildren(v: Value, depth: nat)
      modifies this
      ensures Info() == Fold(StructureStep, old(Info()), ChildVisits(v, ChildCount(v), depth))
      decreases v, 0
    {
      ghost var start := Info();
      for i := 0 to ChildCount(v)
        invariant Info() == Fold(StructureStep, start, ChildVisits(v, i, depth))
      {
        ghost var mid := Info();
        AnalyzeStructure(Child(v, i), depth);
        FoldAppend(StructureStep, start, ChildVisits(v, i, depth), Visits(Child(v, i), depth));
      }
    }
  }

  /** The fold over a walk is the root's step followed by the fold over the children's visits. */
  lemma FirstVisitFold(s: StructureInfo, v: Value, depth: nat)
    ensures Fold(StructureStep, s, Visits(v, depth))
        == Fold(StructureStep, StructureStep(s, (v, depth)), ChildVisits(v, ChildCount(v), depth + 1))
  {
    var root := [(v, depth)];
    FoldAppend(StructureStep, s, root, ChildVisits(v, ChildCount(v), depth + 1));
    assert root[..0] == [];
  }

  /** `detectDataStructure(data)`: a fresh record, then the walk from depth 0. */
  method DetectDataStructure(data: Value) returns (info: StructureInfo)
    ensures info == Fold(StructureStep, EmptyStructure, Visits(data, 0))
  {
    var structure := new Structure();
    structure.AnalyzeStructure(data, 0);
    info := structure.Info();
  }

  /** What the record holds after any sequence of visits. */
  lemma {:induction false} StructureFold(s: StructureInfo, visits: seq<Visit>)
    ensures var r := Fold(StructureStep, s, visits);
      && r.totalElements == s.totalElements + |visits|
      && r.maxDepth == Max(s.maxDepth, Deepest(visits))
      && (r.hasArrays <==> s.hasArrays || exists k :: 0 <= k < |visits| && visits[k].0.Arr?)
      && (r.hasObjects <==> s.hasObjects || exists k :: 0 <= k < |visits| && visits[k].0.Obj?)
      && (r.hasNestedStructures <==>
            (s.hasNestedStructures || exists k :: 0 <= k < |visits| && IsContainer(visits[k].0) && visits[k].1 > 0))
    decreases |visits|
  {
    if visits != [] {
      var init := visits[..|visits| - 1];
      StructureFold(s, init);
      forall k | 0 <= k < |init| ensures init[k] == visits[k] { }
    }
  }

  /**
   * What `detectDataStructure` reports: one element per value of the tree,
   * the height of the tree as the deepest level, and nested structures
   * exactly when some child of the root is an array or an object.
   */
  lemma DetectedStructure(data: Value)
    ensures var r := Fold(StructureStep, EmptyStructure, Visits(data, 0));
      && r.totalElements == Size(data)
      && r.maxDepth == Height(data)
      && (r.hasNestedStructures <==> exists i :: 0 <= i < ChildCount(data) && IsContainer(Child(data, i)))
      && (data.Arr? ==> r.hasArrays)
      && (data.Obj? ==> r.hasObjects)
  {
    var visits := Visits(data, 0);
    StructureFold(EmptyStructure, visits);
    VisitCount(data, 0);
    DeepestVisit(data, 0);
    NestedVisitExists(data, 0);
    forall k | 0 <= k < |visits|
      ensures visits[k].1 > 0 <==> k > 0
    {
      VisitDepths(data, 0, k);
    }
  }

  // ---------------------------------------------------------------------
  // `getConversionNotes`

  const ArraysNote := "JSON arrays will be converted to repeated XML elements"
  const NestingNote := "Nested JSON objects will become nested XML elements"
  const NamesNote := "JSON property names will become XML element names"
  const ElementsNote := "XML elements will become JSON properties"
  const AttributesNote := "XML attributes will be preserved in @attributes objects"
  const TextNote := "Text content will be stored in #text properties when mixed with elements"
  const DepthNote := "Deep nesting detected - conversion may result in complex structure"

  /** `getConversionNotes(sourceFormat, targetFormat, structure)`. */
  function ConversionNotes(sourceFormat: string, targetFormat: string, s: StructureInfo): seq<string>
  {
    var jsonToXml :=
      if sourceFormat == "json" && targetFormat == "xml" then
        (if s.hasArrays then [ArraysNote] else []) + (if s.hasNestedStructures then [NestingNote] else []) + [NamesNote]
      else [];
    var xmlToJson :=
      if sourceFormat == "xml" && targetFormat == "json" then [ElementsNote, AttributesNote, TextNote] else [];
    jsonToXml + xmlToJson + (if s.maxDepth > 5 then [DepthNote] else [])
  }

  /**
   * Each note is given exactly when its condition holds: the array and
   * nesting notes for JSON to XML with arrays or nesting, the names note for
   * every JSON to XML conversion, the three XML notes for every XML to JSON
   * conversion, the depth note whenever the depth exceeds 5.
   */
  lemma NotesIff(sourceFormat: string, targetFormat: string, s: StructureInfo)
    ensures var notes := ConversionNotes(sourceFormat, targetFormat, s);
      var j := sourceFormat == "json" && targetFormat == "xml";
      var x := sourceFormat == "xml" && targetFormat == "json";
      && (ArraysNote in notes <==> j && s.hasArrays)
      && (NestingNote in notes <==> j && s.hasNestedStructures)
      && (NamesNote in notes <==> j)
      && (ElementsNote in notes <==> x)
      && (AttributesNote in notes <==> x)
      && (TextNote in notes <==> x)
      && (DepthNote in notes <==> s.maxDepth > 5)
  {
    assert |ArraysNote| == 54 && |NestingNote| == 51 && |NamesNote| == 49 && |ElementsNote| == 40;
    assert |AttributesNote| == 55 && |TextNote| == 72 && |DepthNote| == 66;
  }

  /** The notes never exceed the three format notes, the two structure notes of JSON and the depth note. */
  lemma NotesCount(sourceFormat: string, targetFormat: string, s: StructureInfo)
    ensures |ConversionNotes(sourceFormat, targetFormat, s)| <= 4
    ensures sourceFormat == "xml" && targetFormat == "json" ==>
      ConversionNotes(sourceFormat, targetFormat, s)[..3] == [ElementsNote, AttributesNote, TextNote]
  {
  }
}
