/**
 * The converter's pretty-printer `formatXml` (js/converter.js:113-148): the
 * text is split at closing tags, each closing tag goes on its own line one
 * level shallower, the text between closing tags is buffered at the current
 * level and deepens it by the number of opening tags it holds, and runs of
 * blank lines are collapsed at the end. The regular expressions it uses are
 * written out as scans with JavaScript's left-to-right, non-overlapping
 * matching.
 */
module ConverterFormat {
  import opened JsValues

  const Tab := "  "

  function Max(a: int, b: int): int { if a < b then b else a }

  /** The first occurrence of `c` at or after `from`. */
  function FindChar(s: string, c: char, from: nat): (r: Option<nat>)
    requires from <= |s|
    ensures r.Some? ==> from <= r.value < |s| && s[r.value] == c
    ensures r.Some? ==> forall k :: from <= k < r.value ==> s[k] != c
    ensures r.None? ==> forall k :: from <= k < |s| ==> s[k] != c
    decreases |s| - from
  {
    if from == |s| then None else if s[from] == c then Some(from) else FindChar(s, c, from + 1)
  }

  // ---------------------------------------------------------------------
  // `xml.split(/(<\/[^>]+>)/)`

  /** A match of `<\/[^>]+>` starting at `i`: where it ends. */
  function ClosingTagAt(s: string, i: nat): (r: Option<nat>)
    requires i <= |s|
    ensures r.Some? ==> i + 4 <= r.value <= |s|
  {
    if i + 2 < |s| && s[i] == '<' && s[i + 1] == '/' && s[i + 2] != '>' then
      match FindChar(s, '>', i + 3)
      case Some(j) => Some(j + 1)
      case None => None
    else None
  }

  /**
   * The pieces of `s[start..]` when the scan for the next closing tag is at
   * `i`: the text before each closing tag, the tag itself (the capturing
   * group is kept), and the text after the last one.
   */
  function SplitFrom(s: string, start: nat, i: nat): (r: seq<string>)
    requires start <= i <= |s|
    ensures |r| > 0
    decreases |s| - i
  {
    if i == |s| then [s[start..]]
    else match ClosingTagAt(s, i)
      case Some(e) => [s[start..i], s[i..e]] + SplitFrom(s, e, e)
      case None => SplitFrom(s, start, i + 1)
  }

  function SplitClosingTags(s: string): seq<string>
  {
    SplitFrom(s, 0, 0)
  }

  /** The pieces concatenated, as `join('')` would. */
  function Concat(parts: seq<string>): string
  {
    if parts == [] then [] else parts[0] + Concat(parts[1..])
  }

  /** Splitting loses nothing: the pieces put back together are the text. */
  lemma {:induction false} SplitFromConcat(s: string, start: nat, i: nat)
    requires start <= i <= |s|
    ensures Concat(SplitFrom(s, start, i)) == s[start..]
    decreases |s| - i
  {
    if i == |s| {
      assert Concat([s[start..]]) == s[start..] + Concat([]);
    } else {
      match ClosingTagAt(s, i)
      case Some(e) =>
        SplitFromConcat(s, e, e);
        var rest := SplitFrom(s, e, e);
        var parts := [s[start..i], s[i..e]] + rest;
        assert parts[1..] == [s[i..e]] + rest;
        assert ([s[i..e]] + rest)[1..] == rest;
        assert s[start..] == s[start..i] + (s[i..e] + s[e..]);
      case None =>
        SplitFromConcat(s, start, i + 1);
    }
  }

  lemma SplitConcat(s: string)
    ensures Concat(SplitClosingTags(s)) == s
  {
    SplitFromConcat(s, 0, 0);
  }

  /** Where no closing tag starts before the end of a prefix `d`, the first piece starts with `d`. */
  lemma {:induction false} FirstPieceStartsWith(s: string, d: string, i: nat)
    requires i <= |s| && StartsWith(s, d)
    requires forall k :: i <= k < |d| ==> ClosingTagAt(s, k).None?
    ensures StartsWith(SplitFrom(s, 0, i)[0], d)
    decreases |s| - i
  {
    if i < |s| {
      match ClosingTagAt(s, i)
      case Some(e) =>
        assert s[..i][..|d|] == s[..|d|];
      case None =>
        FirstPieceStartsWith(s, d, i + 1);
    }
  }

  // ---------------------------------------------------------------------
  // `part.match(/<[^\/][^>]*>/g)` and `part.match(/<[^>]*\/>/g)`, counted

  /** A match of `<[^\/][^>]*>` at `i`: where it ends. */
  function OpenTagAt(s: string, i: nat): (r: Option<nat>)
    requires i <= |s|
    ensures r.Some? ==> i < r.value <= |s|
  {
    if i + 1 < |s| && s[i] == '<' && s[i + 1] != '/' then
      match FindChar(s, '>', i + 2)
      case Some(j) => Some(j + 1)
      case None => None
    else None
  }

  function CountOpenTags(s: string, i: nat): nat
    requires i <= |s|
    decreases |s| - i
  {
    if i == |s| then 0
    else match OpenTagAt(s, i)
      case Some(e) => 1 + CountOpenTags(s, e)
      case None => CountOpenTags(s, i + 1)
  }

  /** A match of `<[^>]*\/>` at `i`: the first `>` after the `<` must follow a `/`. */
  function SelfClosingAt(s: string, i: nat): (r: Option<nat>)
    requires i <= |s|
    ensures r.Some? ==> i < r.value <= |s|
  {
    if i < |s| && s[i] == '<' then
      match FindChar(s, '>', i + 1)
      case Some(j) => if j >= i + 2 && s[j - 1] == '/' then Some(j + 1) else None
      case None => None
    else None
  }

  function CountSelfClosing(s: string, i: nat): nat
    requires i <= |s|
    decreases |s| - i
  {
    if i == |s| then 0
    else match SelfClosingAt(s, i)
      case Some(e) => 1 + CountSelfClosing(s, e)
      case None => CountSelfClosing(s, i + 1)
  }

  /** No `</` anywhere in `s`. */
  predicate NoClosingMark(s: string)
  {
    forall k :: 0 <= k < |s| - 1 ==> !(s[k] == '<' && s[k + 1] == '/')
  }

  lemma NoClosingMarkFromContains(s: string)
    requires !Contains(s, "</")
    ensures NoClosingMark(s)
  {
    forall k | 0 <= k < |s| - 1
      ensures !(s[k] == '<' && s[k + 1] == '/')
    {
      if s[k] == '<' && s[k + 1] == '/' {
        assert false;
      }
    }
  }

  /** Between `a` and the next `>` at `j`, at most one self-closing tag can start, and it ends after `j`. */
  lemma {:induction false} SelfClosingUpToGt(s: string, a: nat, j: nat)
    requires a <= j < |s| && s[j] == '>'
    requires forall k :: a <= k < j ==> s[k] != '>'
    ensures CountSelfClosing(s, a) <= 1 + CountSelfClosing(s, j + 1)
    decreases j - a
  {
    if a < j && SelfClosingAt(s, a).None? {
      SelfClosingUpToGt(s, a + 1, j);
    }
  }

  /**
   * In text without `</`, every self-closing tag is also an opening tag
   * match, so there are never more of the first than of the second.
   */
  lemma {:induction false} SelfClosingBounded(s: string, i: nat)
    requires i <= |s| && NoClosingMark(s)
    ensures CountSelfClosing(s, i) <= CountOpenTags(s, i)
    decreases |s| - i
  {
    if i < |s| {
      match OpenTagAt(s, i)
      case Some(e) =>
        SelfClosingBounded(s, e);
        OpenTagSelfClosing(s, i, e);
      case None =>
        if SelfClosingAt(s, i).Some? {
          SelfClosingOpens(s, i);
        }
        SelfClosingBounded(s, i + 1);
    }
  }

  /** An opening tag match from `i` to `e` holds at most one self-closing match starting before `e`. */
  lemma OpenTagSelfClosing(s: string, i: nat, e: nat)
    requires i < |s| && OpenTagAt(s, i) == Some(e)
    ensures CountSelfClosing(s, i) <= 1 + CountSelfClosing(s, e)
  {
    var j := e - 1;
    assert FindChar(s, '>', i + 2) == Some(j);
    if SelfClosingAt(s, i).None? {
      assert CountSelfClosing(s, i) == CountSelfClosing(s, i + 1);
      if s[i + 1] == '>' {
        assert CountSelfClosing(s, i + 1) == CountSelfClosing(s, i + 2);
        SelfClosingUpToGt(s, i + 2, j);
      } else {
        SelfClosingUpToGt(s, i + 1, j);
      }
    } else {
      assert s[i + 1] != '>';
      assert FindChar(s, '>', i + 1) == Some(j);
      assert SelfClosingAt(s, i) == Some(e);
    }
  }

  /** Without `</`, every self-closing match is also the start of an opening tag match. */
  lemma SelfClosingOpens(s: string, i: nat)
    requires i < |s| && NoClosingMark(s) && SelfClosingAt(s, i).Some?
    ensures OpenTagAt(s, i).Some?
  {
    var j := FindChar(s, '>', i + 1).value;
    assert s[i + 1] != '/';
    assert s[j] == '>' && j >= i + 2;
    assert FindChar(s, '>', i + 2).Some?;
  }

  // ---------------------------------------------------------------------
  // `formatted.replace(/\n\s*\n/g, '\n')`

  /** The end of the run of white space starting at `k`. */
  function RunEnd(s: string, k: nat): (m: nat)
    requires k <= |s|
    ensures k <= m <= |s|
    decreases |s| - k
  {
    if k < |s| && IsJsSpace(s[k]) then RunEnd(s, k + 1) else k
  }

  /** The last line feed in `s[k..m]`. */
  function LastNewline(s: string, k: nat, m: nat): (r: Option<nat>)
    requires k <= m <= |s|
    ensures r.Some? ==> k <= r.value < m && s[r.value] == '\n'
    decreases m
  {
    if m == k then None else if s[m - 1] == '\n' then Some(m - 1) else LastNewline(s, k, m - 1)
  }

  /**
   * The replacement scanning from `i`: a line feed followed by white space
   * holding another line feed is replaced, up to the last line feed of that
   * run, by a single line feed.
   */
  function CollapseBlankLines(s: string, i: nat): string
    requires i <= |s|
    decreases |s| - i
  {
    if i == |s| then []
    else if s[i] == '\n' then
      match LastNewline(s, i + 1, RunEnd(s, i + 1))
      case Some(p) => "\n" + CollapseBlankLines(s, p + 1)
      case None => [s[i]] + CollapseBlankLines(s, i + 1)
    else [s[i]] + CollapseBlankLines(s, i + 1)
  }

  /** Text without line feeds passes through unchanged. */
  lemma {:induction false} CollapseKeeps(s: string, i: nat, line: string)
    requires i + |line| <= |s| && s[i..i + |line|] == line && '\n' !in line
    ensures StartsWith(CollapseBlankLines(s, i), line)
    decreases |line|
  {
    if line != [] {
      assert s[i] == line[0];
      CollapseKeeps(s, i + 1, line[1..]);
    }
  }

  // ---------------------------------------------------------------------
  // The loop

  /** The loop's variables: the finished text, the current level and the buffered line. */
  datatype FormatState = FormatState(formatted: string, indent: int, buffer: string)

  /** One turn of `for (let part of parts)`, with the three tests the body makes on the piece. */
  function FormatStep(st: FormatState, part: string): (r: FormatState)
    requires st.indent >= 0
    ensures r.indent >= 0
  {
    StepWith(st, part, Contains(part, "</"), Trim(part) != [], Contains(part, "<?xml"))
  }

  /**
   * The body of the loop once the piece is tested: a closing tag flushes
   * the buffer and goes on its own line one level up (never above level
   * 0); a piece holding the XML declaration is copied on its own line; any
   * other non-blank piece is buffered at the current level and deepens the
   * level by its opening tags that are not self-closing. The level stays at
   * 0 or more, so `repeat` never throws.
   */
  function StepWith(st: FormatState, part: string, closes: bool, visible: bool, declares: bool): (r: FormatState)
    requires st.indent >= 0 && (!closes ==> !Contains(part, "</"))
    ensures r.indent >= 0
  {
    if closes then ClosePiece(st, part)
    else if visible then
      if declares then st.(formatted := st.formatted + part + "\n")
      else OpenPiece(st, part)
    else st
  }

  /** A closing tag: the buffer is flushed and the piece written one level up, never above level 0. */
  function ClosePiece(st: FormatState, part: string): (r: FormatState)
    ensures r.indent >= 0
  {
    var indent := Max(0, st.indent - 1);
    FormatState(st.formatted + st.buffer + "\n" + Repeat(Tab, indent) + part + "\n", indent, "")
  }

  /** Any other piece is buffered, trimmed, at the current level; its unclosed opening tags deepen the level. */
  function OpenPiece(st: FormatState, part: string): (r: FormatState)
    requires st.indent >= 0 && !Contains(part, "</")
    ensures r.indent >= 0
  {
    NoClosingMarkFromContains(part);
    SelfClosingBounded(part, 0);
    FormatState(st.formatted, st.indent + CountOpenTags(part, 0) - CountSelfClosing(part, 0),
                st.buffer + Repeat(Tab, st.indent) + Trim(part))
  }

  function FormatParts(parts: seq<string>): (r: FormatState)
    ensures r.indent >= 0
  {
    if parts == [] then FormatState("", 0, "") else FormatStep(FormatParts(parts[..|parts| - 1]), parts[|parts| - 1])
  }

  /** `formatXml(xml)`: the loop over the pieces, the pending buffer, then the clean-up. */
  function FormatXmlText(xml: string): string
  {
    CleanUp(Finished(FormatParts(SplitClosingTags(xml))))
  }

  /** The finished text once the loop is over: a non-blank buffer is appended. */
  function Finished(st: FormatState): string
  {
    if Trim(st.buffer) != [] then st.formatted + st.buffer else st.formatted
  }

  /** `formatted.replace(/\n\s*\n/g, '\n').trim()` */
  function CleanUp(formatted: string): string
  {
    Trim(CollapseBlankLines(formatted, 0))
  }

  /** `formatXml`, as the source runs it: the loop over the pieces, then the clean-up. */
  method FormatXml(xml: string) returns (r: string)
    ensures r == FormatXmlText(xml)
  {
    var formatted, indent, buffer := FormatPieces(SplitClosingTags(xml));
    ghost var st := FormatState(formatted, indent, buffer);
    if Trim(buffer) != [] {
      formatted := formatted + buffer;
    }
    assert formatted == Finished(st);
    r := Trim(CollapseBlankLines(formatted, 0));
  }

  /** The loop `for (let part of parts)` of `formatXml`, from an empty text at level 0. */
  method FormatPieces(parts: seq<string>) returns (formatted: string, indent: int, buffer: string)
    ensures FormatState(formatted, indent, buffer) == FormatParts(parts)
  {
    formatted, indent, buffer := "", 0, "";
    for i := 0 to |parts|
      invariant FormatState(formatted, indent, buffer) == FormatParts(parts[..i])
    {
      FormatPartsNext(parts, i);
      formatted, indent, buffer := FormatPiece(formatted, indent, buffer, parts[i]);
    }
    assert parts[..|parts|] == parts;
  }

  /** One more piece is one more turn of the loop. */
  lemma FormatPartsNext(parts: seq<string>, i: nat)
    requires i < |parts|
    ensures FormatParts(parts[..i + 1]) == FormatStep(FormatParts(parts[..i]), parts[i])
  {
    assert parts[..i + 1][..i] == parts[..i];
  }

  /** The body of `for (let part of parts)`. */
  method FormatPiece(formatted: string, indent: int, buffer: string, part: string)
      returns (formatted': string, indent': int, buffer': string)
    requires indent >= 0
    ensures FormatState(formatted', indent', buffer') == FormatStep(FormatState(formatted, indent, buffer), part)
  {
    ghost var st := FormatState(formatted, indent, buffer);
    var closes := Contains(part, "</");
    var trimmed := Trim(part);
    var declares := Contains(part, "<?xml");
    formatted', indent', buffer' := formatted, indent, buffer;
    if closes {
      indent' := Max(0, indent - 1);
      formatted' := formatted + buffer + "\n" + Repeat(Tab, indent') + part + "\n";
      buffer' := "";
      assert FormatState(formatted', indent', buffer') == ClosePiece(st, part);
    } else if trimmed != [] {
      var openTags := CountOpenTags(part, 0);
      var selfClosing := CountSelfClosing(part, 0);
      if declares {
        formatted' := formatted + part + "\n";
      } else {
        buffer' := buffer + Repeat(Tab, indent) + trimmed;
        indent' := indent + openTags - selfClosing;
        assert FormatState(formatted', indent', buffer') == OpenPiece(st, part);
      }
    }
  }

  // ---------------------------------------------------------------------
  // The declaration stays on the first line

  /** Formatting only appends to the finished text. */
  lemma {:induction false} FormattedGrows(parts: seq<string>, n: nat)
    requires 0 < n <= |parts|
    ensures StartsWith(FormatParts(parts).formatted, FormatParts(parts[..n]).formatted)
    decreases |parts|
  {
    if n < |parts| {
      var init := parts[..|parts| - 1];
      assert init[..n] == parts[..n];
      FormattedGrows(init, n);
      StepAppends(FormatParts(init), parts[|parts| - 1]);
      StartsWithTrans(FormatParts(parts).formatted, FormatParts(init).formatted, FormatParts(parts[..n]).formatted);
    } else {
      assert parts[..n] == parts;
    }
  }

  /** One turn only appends to the finished text. */
  lemma StepAppends(st: FormatState, part: string)
    requires st.indent >= 0
    ensures StartsWith(FormatStep(st, part).formatted, st.formatted)
  {
    StepWithAppends(st, part, Contains(part, "</"), Trim(part) != [], Contains(part, "<?xml"));
  }

  lemma StepWithAppends(st: FormatState, part: string, closes: bool, visible: bool, declares: bool)
    requires st.indent >= 0 && (!closes ==> !Contains(part, "</"))
    ensures StartsWith(StepWith(st, part, closes, visible, declares).formatted, st.formatted)
  {
    var r := StepWith(st, part, closes, visible, declares);
    if closes {
      var tail := st.buffer + "\n" + Repeat(Tab, Max(0, st.indent - 1)) + part + "\n";
      assert r.formatted == st.formatted + tail;
      assert (st.formatted + tail)[..|st.formatted|] == st.formatted;
    } else if visible && declares {
      assert r.formatted == st.formatted + (part + "\n");
      assert (st.formatted + (part + "\n"))[..|st.formatted|] == st.formatted;
    } else {
      assert r.formatted == st.formatted;
    }
  }

  /** Trimming the end keeps every prefix that ends in a visible character. */
  lemma TrimEndKeepsPrefix(s: string, n: nat)
    requires 0 < n <= |s| && !IsJsSpace(s[n - 1])
    ensures n <= |TrimEnd(s)| && TrimEnd(s)[..n] == s[..n]
  {
    var e := TrimEnd(s);
    assert !IsJsSpace(s[n - 1]);
    assert n <= |e|;
    assert e[..n] == s[..|e|][..n];
  }

  /** Trimming the start drops at most the one line feed in front of a visibly starting `line`. */
  lemma TrimStartDropsLead(e: string, lead: string, line: string)
    requires lead == "" || lead == "\n"
    requires |line| > 0 && !IsJsSpace(line[0])
    requires StartsWith(e, lead + line)
    ensures StartsWith(TrimStart(e), line)
  {
    assert e[|lead|] == (lead + line)[|lead|] == line[0];
    if lead == "" {
      assert TrimStart(e) == e;
      assert e[..|line|] == (lead + line)[..|line|] == line;
    } else {
      assert e[0] == '\n';
      var rest := e[1..];
      assert rest[0] == line[0];
      assert TrimStart(e) == TrimStart(rest) == rest;
      assert rest[..|line|] == e[1..1 + |line|] == (lead + line)[1..];
    }
  }

  /** Trimming text that starts with at most a line feed and then `line` keeps `line` in front. */
  lemma TrimKeepsLine(s: string, lead: string, line: string)
    requires lead == "" || lead == "\n"
    requires |line| > 0 && !IsJsSpace(line[0]) && !IsJsSpace(line[|line| - 1])
    requires StartsWith(s, lead + line)
    ensures StartsWith(Trim(s), line)
  {
    var n := |lead| + |line|;
    assert s[n - 1] == line[|line| - 1];
    TrimEndKeepsPrefix(s, n);
    var e := TrimEnd(s);
    assert e[..n] == lead + line;
    TrimStartDropsLead(e, lead, line);
    assert Trim(s) == TrimStart(e);
  }

  /** The first line of the declaration the converter writes. */
  const DeclarationLine := "<?xml version=\"1.0\" encoding=\"UTF-8\"?>"

  /** A prefix of a prefix is a prefix. */
  lemma StartsWithTrans(a: string, b: string, c: string)
    requires StartsWith(a, b) && StartsWith(b, c)
    ensures StartsWith(a, c)
  {
    assert a[..|c|] == a[..|b|][..|c|];
  }

  /** Putting the same text in front keeps a prefix a prefix, whatever follows. */
  lemma StartsWithFramed(pre: string, s: string, p: string, post: string)
    requires StartsWith(s, p)
    ensures StartsWith(pre + s + post, pre + p)
  {
    var t := pre + s + post;
    assert forall k :: 0 <= k < |pre + p| ==> t[k] == (pre + p)[k];
  }

  /** A piece whose first character is visible is not blank. */
  lemma TrimNonBlank(s: string)
    requires |s| > 0 && !IsJsSpace(s[0])
    ensures Trim(s) != []
  {
  }

  /** A first piece with a closing tag goes on its own line. */
  lemma FirstClosing(part: string)
    requires Contains(part, "</")
    ensures FormatParts([part]).formatted == "\n" + part + "\n"
  {
    FirstStepIs(part);
    ClosedFromStart(part, Trim(part) != [], Contains(part, "<?xml"));
  }

  /** A first piece holding the declaration and no closing tag is copied with a line feed. */
  lemma FirstDeclaration(part: string)
    requires !Contains(part, "</") && Contains(part, "<?xml") && Trim(part) != []
    ensures FormatParts([part]).formatted == part + "\n"
  {
    FirstStepIs(part);
  }

  lemma FirstStepIs(part: string)
    ensures FormatParts([part]) == FormatStep(FormatState("", 0, ""), part)
  {
    assert [part][..0] == [];
  }

  lemma ClosedFromStart(part: string, visible: bool, declares: bool)
    ensures StepWith(FormatState("", 0, ""), part, true, visible, declares).formatted == "\n" + part + "\n"
  {
    assert Repeat(Tab, 0) == [];
    assert ClosePiece(FormatState("", 0, ""), part).formatted == [] + [] + "\n" + [] + part + "\n";
  }

  /** The finished text after the first piece, when that piece is a non-blank declaration. */
  lemma FirstStepFormatted(part: string)
    requires Contains(part, "<?xml") && Trim(part) != []
    ensures Contains(part, "</") ==> FormatParts([part]).formatted == "\n" + part + "\n"
    ensures !Contains(part, "</") ==> FormatParts([part]).formatted == part + "\n"
  {
    if Contains(part, "</") {
      FirstClosing(part);
    } else {
      FirstDeclaration(part);
    }
  }

  /**
   * The first piece of a text that starts with `line` followed by a line
   * feed contains `<?xml` and holds the line; whichever branch takes it,
   * the finished text starts with it, after at most a line feed.
   */
  lemma FirstStepKeepsLine(part: string, line: string)
    requires StartsWith(part, line + "\n") && StartsWith(line, "<?xml")
    ensures var f := FormatParts([part]).formatted;
      StartsWith(f, line) || StartsWith(f, "\n" + line)
  {
    StartsWithTrans(part, line + "\n", line);
    StartsWithTrans(part, line, "<?xml");
    OccursAtContains(part, "<?xml", 0);
    assert part[0] == line[0] == '<';
    TrimNonBlank(part);
    FirstStepFormatted(part);
    if Contains(part, "</") {
      StartsWithFramed("\n", part, line, "\n");
    } else {
      StartsWithFramed("", part, line, "\n");
      assert "" + part + "\n" == part + "\n" && "" + line == line;
    }
  }

  /** A line that begins with `<?xml`, holds no other `<` and no line feed, and ends in a visible character. */
  predicate DeclarationLike(line: string)
  {
    StartsWith(line, "<?xml") && !IsJsSpace(line[|line| - 1])
    && (forall k :: 1 <= k < |line| ==> line[k] != '<')
    && (forall k :: 0 <= k < |line| ==> line[k] != '\n')
  }

  /** No closing tag starts inside the declaration line and its line feed, so the first piece holds both. */
  lemma FirstPieceHoldsLine(xml: string, line: string)
    requires StartsWith(xml, line + "\n") && DeclarationLike(line)
    ensures StartsWith(SplitClosingTags(xml)[0], line + "\n")
  {
    var d := line + "\n";
    forall k | 0 <= k < |d|
      ensures ClosingTagAt(xml, k).None?
    {
      assert xml[k] == d[k];
      if 0 < k < |line| {
        assert d[k] == line[k];
      }
      if k == 0 {
        assert xml[1] == line[1];
      }
    }
    FirstPieceStartsWith(xml, d, 0);
  }

  /** After the loop, the finished text starts with the declaration line, after at most a line feed. */
  lemma FinishedStartsWithLine(xml: string, line: string)
    requires StartsWith(xml, line + "\n") && DeclarationLike(line)
    ensures var st := FormatParts(SplitClosingTags(xml));
      StartsWith(st.formatted, line) || StartsWith(st.formatted, "\n" + line)
  {
    var parts := SplitClosingTags(xml);
    FirstPieceHoldsLine(xml, line);
    FirstStepKeepsLine(parts[0], line);
    FormattedGrows(parts, 1);
    assert parts[..1] == [parts[0]];
    var first := FormatParts([parts[0]]).formatted;
    var f := FormatParts(parts).formatted;
    if StartsWith(first, line) {
      StartsWithTrans(f, first, line);
    } else {
      StartsWithTrans(f, first, "\n" + line);
    }
  }

  /** Appending keeps a prefix. */
  lemma StartsWithAppend(a: string, b: string, p: string)
    requires StartsWith(a, p)
    ensures StartsWith(a + b, p)
  {
    assert (a + b)[..|p|] == a[..|p|];
  }

  /** Collapsing and trimming keep the declaration line in front. */
  lemma CleanUpKeepsLine(formatted: string, line: string)
    requires DeclarationLike(line)
    requires StartsWith(formatted, line) || StartsWith(formatted, "\n" + line)
    ensures StartsWith(CleanUp(formatted), line)
  {
    var collapsed := CollapseBlankLines(formatted, 0);
    assert line[0] == '<';
    if StartsWith(formatted, line) {
      CollapseKeeps(formatted, 0, line);
      TrimKeepsLine(collapsed, "", line);
    } else {
      var lead := "\n" + line;
      assert formatted[1..1 + |line|] == lead[1..] == line;
      assert RunEnd(formatted, 1) == 1;
      CollapseKeeps(formatted, 1, line);
      assert collapsed == "\n" + CollapseBlankLines(formatted, 1);
      assert StartsWith(collapsed, "\n" + line);
      TrimKeepsLine(collapsed, "\n", line);
    }
  }

  /** A text that starts with a declaration line keeps that line first once formatted. */
  lemma LineStaysFirst(xml: string, line: string)
    requires StartsWith(xml, line + "\n") && DeclarationLike(line)
    ensures StartsWith(FormatXmlText(xml), line)
  {
    FinishedStartsWithLine(xml, line);
    var st := FormatParts(SplitClosingTags(xml));
    if StartsWith(st.formatted, line) {
      StartsWithAppend(st.formatted, st.buffer, line);
    } else {
      StartsWithAppend(st.formatted, st.buffer, "\n" + line);
    }
    CleanUpKeepsLine(Finished(st), line);
  }

  lemma DeclarationLineLike()
    ensures DeclarationLike(DeclarationLine)
  {
    DeclarationLineStart();
    DeclarationLineOneTag();
    DeclarationLineOneLine();
  }

  lemma DeclarationLineStart()
    ensures StartsWith(DeclarationLine, "<?xml") && DeclarationLine[|DeclarationLine| - 1] == '>'
  {
    var l := DeclarationLine;
    assert l[0] == '<' && l[1] == '?' && l[2] == 'x' && l[3] == 'm' && l[4] == 'l';
    assert forall k :: 0 <= k < 5 ==> l[..5][k] == "<?xml"[k];
  }

  lemma DeclarationLineOneTag()
    ensures forall k :: 1 <= k < |DeclarationLine| ==> DeclarationLine[k] != '<'
  {
  }

  lemma DeclarationLineOneLine()
    ensures forall k :: 0 <= k < |DeclarationLine| ==> DeclarationLine[k] != '\n'
  {
  }

  /** `<?xml version="1.0" encoding="UTF-8"?>` stays the first line of the formatted text. */
  lemma DeclarationStaysFirst(xml: string)
    requires StartsWith(xml, DeclarationLine + "\n")
    ensures StartsWith(FormatXmlText(xml), DeclarationLine)
  {
    DeclarationLineLike();
    LineStaysFirst(xml, DeclarationLine);
  }
}
