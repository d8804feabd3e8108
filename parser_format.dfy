/**
 * The parser's pretty-printer `formatXML` (js/parser.js:195-213). The text
 * is split at every `>\s*<`; each piece is printed as `<` piece `>` on its
 * own line, indented by two spaces per level; a piece matching `^\/\w`
 * first takes a level away, and a piece matching `^<?\w[^>]*[^\/]$` adds
 * one after it is printed. The first character and the last two are cut
 * off at the end (the `<` doubled on the first piece, and `>` and the line
 * break of the last).
 *
 * Nothing keeps the level from dropping below zero: `tab.repeat(-1)` then
 * throws a `RangeError`. Because `\w[^>]*[^\/]` needs two characters, an
 * element with a one-letter name never adds a level, while its closing tag
 * still takes one away, so `<a><b>x</b></a>` cannot be formatted.
 */
module ParserFormat {
  import opened JsValues

  const Tab := "  "

  /** The message of the `RangeError` that `repeat` throws for a negative count. */
  function CountError(n: int): string
  {
    "Invalid count value: " + IntToString(n)
  }

  // ---------------------------------------------------------------------
  // `xmlString.split(/>\s*</)`

  /** The first index at or after `i` that is not white space, or the end. */
  function SkipSpace(s: string, i: nat): (r: nat)
    requires i <= |s|
    ensures i <= r <= |s|
    ensures forall k :: i <= k < r ==> IsJsSpace(s[k])
    ensures r < |s| ==> !IsJsSpace(s[r])
    decreases |s| - i
  {
    if i < |s| && IsJsSpace(s[i]) then SkipSpace(s, i + 1) else i
  }

  /** A match of `>\s*<` starting at `i`: where it ends. */
  function GapAt(s: string, i: nat): (r: Option<nat>)
    requires i <= |s|
    ensures r.Some? ==> i + 2 <= r.value <= |s| && s[i] == '>' && s[r.value - 1] == '<'
    ensures r.Some? ==> forall k :: i < k < r.value - 1 ==> IsJsSpace(s[k])
  {
    if i < |s| && s[i] == '>' then
      var k := SkipSpace(s, i + 1);
      if k < |s| && s[k] == '<' then Some(k + 1) else None
    else None
  }

  /** The pieces of `s[start..]` when the scan for the next separator is at `i`. */
  function SplitFrom(s: string, start: nat, i: nat): (r: seq<string>)
    requires start <= i <= |s|
    ensures |r| > 0
    decreases |s| - i
  {
    if i == |s| then [s[start..]]
    else match GapAt(s, i)
      case Some(e) => [s[start..i]] + SplitFrom(s, e, e)
      case None => SplitFrom(s, start, i + 1)
  }

  function SplitNodes(s: string): (r: seq<string>)
    ensures |r| > 0
  {
    SplitFrom(s, 0, 0)
  }

  /** Positions where no separator starts are passed over. */
  lemma {:induction false} ScanPast(s: string, start: nat, i: nat, j: nat)
    requires start <= i <= j <= |s|
    requires forall k :: i <= k < j ==> GapAt(s, k).None?
    ensures SplitFrom(s, start, i) == SplitFrom(s, start, j)
    decreases j - i
  {
    if i < j {
      ScanPast(s, start, i + 1, j);
    }
  }

  /** Text in which `>\s*<` matches nowhere is a single piece. */
  lemma {:induction false} NoGapSplitFrom(s: string, i: nat)
    requires i <= |s|
    requires forall k :: 0 <= k <= |s| ==> GapAt(s, k).None?
    ensures SplitFrom(s, 0, i) == [s]
    decreases |s| - i
  {
    if i < |s| {
      NoGapSplitFrom(s, i + 1);
    }
  }

  // ---------------------------------------------------------------------
  // The two tests on each piece

  /** `node.match(/^\/\w/)`: the piece is a closing tag. */
  predicate ClosesNode(node: string)
  {
    |node| >= 2 && node[0] == '/' && IsWordChar(node[1])
  }

  /** `\w[^>]*[^\/]$` matching from the start of `t`. */
  predicate OpenBody(t: string)
  {
    |t| >= 2 && IsWordChar(t[0]) && t[|t| - 1] != '/'
    && forall k :: 1 <= k < |t| - 1 ==> t[k] != '>'
  }

  /** `node.match(/^<?\w[^>]*[^\/]$/)`, with the optional `<` tried first, then left out. */
  predicate OpensNode(node: string)
  {
    (node != [] && node[0] == '<' && OpenBody(node[1..])) || OpenBody(node)
  }

  /** How many levels a piece takes away before it is printed. */
  function Closing(node: string): nat
  {
    if ClosesNode(node) then 1 else 0
  }

  /** How far a piece moves the level, once printed. */
  function Delta(node: string): int
  {
    (if OpensNode(node) then 1 else 0) - Closing(node)
  }

  /** The net change in level over the pieces. */
  function Net(nodes: seq<string>): int
  {
    if nodes == [] then 0 else Delta(nodes[0]) + Net(nodes[1..])
  }

  // ---------------------------------------------------------------------
  // The `forEach`

  /** One printed line: the piece between angle brackets at the given level. */
  function Line(level: nat, node: string): (r: string)
    ensures |r| == 2 * level + |node| + 3
  {
    Repeat(Tab, level) + "<" + node + ">\n"
  }

  /**
   * The pieces printed after `formatted` from level `indent`: the text and
   * level after the last, or the `RangeError` of the first piece that would
   * be printed below level zero.
   */
  function PrintNodes(nodes: seq<string>, formatted: string, indent: nat): (r: Result<(string, nat)>)
    ensures r.Success? ==> |r.value.0| >= |formatted| + 3 * |nodes|
    ensures r.Failure? ==> r.error == CountError(-1)
    decreases |nodes|
  {
    if nodes == [] then Success((formatted, indent))
    else
      var level := indent - Closing(nodes[0]);
      if level < 0 then Failure(CountError(level))
      else PrintNodes(nodes[1..], formatted + Line(level, nodes[0]), level + (if OpensNode(nodes[0]) then 1 else 0))
  }

  /** `formatXML(xmlString)`: the printed text without its first character and its last two. */
  function FormatXml(xml: string): (r: Result<string>)
    ensures r.Failure? ==> r.error == CountError(-1)
  {
    match PrintNodes(SplitNodes(xml), "", 0)
    case Failure(e) => Failure(e)
    case Success((formatted, _)) => Success(formatted[1..|formatted| - 2])
  }

  /** `formatXML` as the source runs it. */
  method FormatXmlLoop(xml: string) returns (r: Result<string>)
    ensures r == FormatXml(xml)
  {
    var printed := PrintLoop(SplitNodes(xml));
    match printed
    case Failure(e) =>
      return Failure(e);
    case Success((formatted, _)) =>
      return Success(formatted[1..|formatted| - 2]);
  }

  /** The `forEach`, with `formatted` and `indent` updated piece by piece. */
  method PrintLoop(nodes: seq<string>) returns (r: Result<(string, nat)>)
    ensures r == PrintNodes(nodes, "", 0)
  {
    var formatted := "";
    var indent: int := 0;
    var i := 0;
    while i < |nodes|
      invariant 0 <= i <= |nodes| && indent >= 0
      invariant PrintNodes(nodes, "", 0) == PrintNodes(nodes[i..], formatted, indent)
    {
      var node := nodes[i];
      PrintNodesAt(nodes, i, formatted, indent);
      if ClosesNode(node) {
        indent := indent - 1;
      }
      if indent < 0 {
        return Failure(CountError(indent));
      }
      formatted := formatted + Line(indent, node);
      if OpensNode(node) {
        indent := indent + 1;
      }
      i := i + 1;
    }
    assert nodes[i..] == [];
    return Success((formatted, indent));
  }

  /** One turn of the `forEach`, on the pieces from `i` on. */
  lemma PrintNodesAt(nodes: seq<string>, i: nat, formatted: string, indent: nat)
    requires i < |nodes|
    ensures indent < Closing(nodes[i]) ==>
      PrintNodes(nodes[i..], formatted, indent) == Failure(CountError(indent - Closing(nodes[i])))
    ensures indent >= Closing(nodes[i]) ==>
      PrintNodes(nodes[i..], formatted, indent)
      == PrintNodes(nodes[i + 1..], formatted + Line(indent - Closing(nodes[i]), nodes[i]),
                    indent - Closing(nodes[i]) + (if OpensNode(nodes[i]) then 1 else 0))
  {
    assert nodes[i..][0] == nodes[i] && nodes[i..][1..] == nodes[i + 1..];
  }

  // ---------------------------------------------------------------------
  // When it throws, and when it changes nothing

  /**
   * Printing fails exactly when some piece closes a level that the pieces
   * before it have not opened: the running level, counted without the
   * guard, would fall below zero there.
   */
  lemma PrintFailsIff(nodes: seq<string>, formatted: string, indent: nat)
    ensures PrintNodes(nodes, formatted, indent).Failure?
      <==> exists k :: 0 <= k < |nodes| && indent + Net(nodes[..k]) < Closing(nodes[k])
  {
    if PrintNodes(nodes, formatted, indent).Failure? {
      var k := PrintFailureAt(nodes, formatted, indent);
    }
    if exists k :: 0 <= k < |nodes| && indent + Net(nodes[..k]) < Closing(nodes[k]) {
      var k :| 0 <= k < |nodes| && indent + Net(nodes[..k]) < Closing(nodes[k]);
      PrintFailsAt(nodes, formatted, indent, k);
    }
  }

  /** The net level of the first `k` pieces, counted from the first piece. */
  lemma NetPrefix(nodes: seq<string>, k: nat)
    requires 1 <= k <= |nodes|
    ensures Net(nodes[..k]) == Delta(nodes[0]) + Net(nodes[1..][..k - 1])
  {
    assert nodes[..k][1..] == nodes[1..][..k - 1];
  }

  /** A failure happens at a piece that closes a level not opened before it. */
  lemma {:induction false} PrintFailureAt(nodes: seq<string>, formatted: string, indent: nat) returns (k: nat)
    requires PrintNodes(nodes, formatted, indent).Failure?
    ensures k < |nodes| && indent + Net(nodes[..k]) < Closing(nodes[k])
    decreases |nodes|
  {
    assert nodes[..0] == [];
    if indent < Closing(nodes[0]) {
      k := 0;
    } else {
      var level := indent - Closing(nodes[0]);
      var next := level + (if OpensNode(nodes[0]) then 1 else 0);
      var j := PrintFailureAt(nodes[1..], formatted + Line(level, nodes[0]), next);
      k := j + 1;
      NetPrefix(nodes, k);
    }
  }

  /** A piece that closes a level not opened before it makes printing fail. */
  lemma {:induction false} PrintFailsAt(nodes: seq<string>, formatted: string, indent: nat, k: nat)
    requires k < |nodes| && indent + Net(nodes[..k]) < Closing(nodes[k])
    ensures PrintNodes(nodes, formatted, indent).Failure?
    decreases |nodes|
  {
    assert nodes[..0] == [];
    if indent >= Closing(nodes[0]) {
      var level := indent - Closing(nodes[0]);
      var next := level + (if OpensNode(nodes[0]) then 1 else 0);
      NetPrefix(nodes, k);
      PrintFailsAt(nodes[1..], formatted + Line(level, nodes[0]), next, k - 1);
    }
  }

  /**
   * `formatXML` throws, with "Invalid count value: -1", exactly when some
   * piece closing a tag comes when no more pieces before it have opened a
   * level than have closed one.
   */
  lemma FormatFailsIff(xml: string)
    ensures FormatXml(xml).Failure?
      <==> exists k :: 0 <= k < |SplitNodes(xml)| && Net(SplitNodes(xml)[..k]) < Closing(SplitNodes(xml)[k])
    ensures FormatXml(xml).Failure? ==> FormatXml(xml).error == "Invalid count value: -1"
  {
    PrintFailsIff(SplitNodes(xml), "", 0);
    assert IntToString(-1) == "-1";
  }

  /** Text with no `>\s*<` anywhere that is not a closing piece comes back unchanged. */
  lemma SinglePieceUnchanged(xml: string)
    requires forall k :: 0 <= k <= |xml| ==> GapAt(xml, k).None?
    requires !ClosesNode(xml)
    ensures FormatXml(xml) == Success(xml)
  {
    NoGapSplitFrom(xml, 0);
    var line := Line(0, xml);
    assert [xml][1..] == [] && "" + line == line;
    assert PrintNodes([xml], "", 0) == PrintNodes([], line, if OpensNode(xml) then 1 else 0);
    assert line == "<" + xml + ">\n";
    assert line[1..|line| - 2] == xml;
  }

  /** `<a><b>x</b></a>`: the one-letter `a` adds no level, so its closing tag takes the level to -1. */
  lemma OneLetterParentFails()
    ensures FormatXml("<a><b>x</b></a>") == Failure("Invalid count value: -1")
  {
    var xml := "<a><b>x</b></a>";
    SplitExample(xml);
    PrintExample();
    assert IntToString(-1) == "-1";
  }

  lemma PrintExample()
    ensures PrintNodes(["<a", "b>x</b", "/a>"], "", 0).Failure?
  {
    ExampleTests();
    var nodes := ["<a", "b>x</b", "/a>"];
    assert PrintNodes(nodes, "", 0) == PrintNodes(nodes[1..], Line(0, nodes[0]), 0);
    assert nodes[1..][0] == nodes[1] && nodes[1..][1..] == [nodes[2]];
  }

  /** How the two tests classify the three pieces of `<a><b>x</b></a>`. */
  lemma ExampleTests()
    ensures !ClosesNode("<a") && !OpensNode("<a")
    ensures !ClosesNode("b>x</b") && !OpensNode("b>x</b")
    ensures ClosesNode("/a>")
  {
    var first, second, third := "<a", "b>x</b", "/a>";
    assert first[0] == '<' && first[1..] == "a" && !IsWordChar(first[0]);
    assert second[0] == 'b' && second[1] == '>' && |second| == 6;
    assert third[0] == '/' && third[1] == 'a' && IsWordChar('a');
  }

  /** The three pieces of `<a><b>x</b></a>`. */
  lemma SplitExample(xml: string)
    requires xml == "<a><b>x</b></a>"
    ensures SplitNodes(xml) == ["<a", "b>x</b", "/a>"]
  {
    ExampleChars(xml);
    SplitExampleTail(xml);
    SplitExampleMiddle(xml);
    assert SkipSpace(xml, 3) == 3;
    assert GapAt(xml, 2) == Some(4);
    ScanPast(xml, 0, 0, 2);
    assert xml[0..2] == "<a";
  }

  lemma ExampleChars(xml: string)
    requires xml == "<a><b>x</b></a>"
    ensures |xml| == 15
    ensures xml[0] == '<' && xml[1] == 'a' && xml[2] == '>' && xml[3] == '<'
    ensures xml[4] == 'b' && xml[5] == '>' && xml[6] == 'x' && xml[7] == '<' && xml[8] == '/'
    ensures xml[9] == 'b' && xml[10] == '>' && xml[11] == '<' && xml[12] == '/' && xml[13] == 'a' && xml[14] == '>'
  {
  }

  lemma SplitExampleTail(xml: string)
    requires xml == "<a><b>x</b></a>"
    ensures SplitFrom(xml, 12, 12) == ["/a>"]
  {
    ExampleChars(xml);
    assert SkipSpace(xml, 15) == 15;
    assert GapAt(xml, 14).None?;
    ScanPast(xml, 12, 12, 15);
    assert xml[12..] == "/a>";
  }

  lemma SplitExampleMiddle(xml: string)
    requires xml == "<a><b>x</b></a>"
    ensures SplitFrom(xml, 4, 4) == ["b>x</b"] + SplitFrom(xml, 12, 12)
  {
    ExampleChars(xml);
    assert SkipSpace(xml, 11) == 11;
    assert GapAt(xml, 10) == Some(12);
    assert SkipSpace(xml, 6) == 6;
    assert GapAt(xml, 5).None?;
    ScanPast(xml, 4, 4, 10);
    assert xml[4..10] == "b>x</b";
  }
}
