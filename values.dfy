/**
 * The value tree shared by every component: what `JSON.parse`, or the XML
 * lifting of the parser, hands to the schema analyser, the converter and the
 * tree view; plus the few JavaScript built-ins those components lean on
 * (`String(v)`, `trim`, `Object.entries`, truthiness, decimal rendering).
 */
module JsValues {

  datatype Option<T> = None | Some(value: T)

  /** A computation that either yields a value or throws an `Error` with a message. */
  datatype Result<T> = Success(value: T) | Failure(error: string)

  /**
   * A parsed JSON value. Numbers carry the `Number.isInteger` split: `Int`
   * for integral numbers, `Dec` for the others, written in decimal as
   * `-`? whole `.` fraction. Object entries keep the order in which
   * `Object.entries` and `for ... in` visit them.
   */
  datatype Value =
    | Null
    | Bool(boolean: bool)
    | Int(integer: int)
    | Dec(negative: bool, whole: nat, fraction: string)
    | Str(text: string)
    | Arr(items: seq<Value>)
    | Obj(entries: seq<(string, Value)>)

  /**
   * The browser facilities the components call but that are not part of
   * this model, as total functions: `new Date(s)` giving a valid time,
   * `new URL(s)` not throwing, `JSON.stringify` (compact and indented),
   * and the ISO timestamp of the analysis.
   */
  datatype Host = Host(
    dateParses: string -> bool,
    urlParses: string -> bool,
    stringify: Value -> string,
    stringifyIndented: Value -> string,
    now: string)

  // ---------------------------------------------------------------------
  // Characters and strings

  predicate IsDigit(c: char) { '0' <= c <= '9' }

  predicate IsAsciiLetter(c: char) { 'a' <= c <= 'z' || 'A' <= c <= 'Z' }

  /** The characters matched by `\w` in a JavaScript regular expression. */
  predicate IsWordChar(c: char) { IsAsciiLetter(c) || IsDigit(c) || c == '_' }

  /** The characters matched by `\s` in a JavaScript regular expression and removed by `trim`. */
  predicate IsJsSpace(c: char)
  {
    var n := c as int;
    (9 <= n <= 13) || n == 32 || n == 0xA0 || n == 0x1680 || (0x2000 <= n <= 0x200A)
    || n == 0x2028 || n == 0x2029 || n == 0x202F || n == 0x205F || n == 0x3000 || n == 0xFEFF
  }

  /** `s.repeat(n)`; `repeat` throws for a negative count, so the count is a `nat`. */
  function Repeat(s: string, n: nat): (r: string)
    ensures |r| == n * |s|
  {
    if n == 0 then [] else Repeat(s, n - 1) + s
  }

  predicate AllDigits(s: string) { forall i :: 0 <= i < |s| ==> IsDigit(s[i]) }

  predicate StartsWith(s: string, p: string) { |p| <= |s| && s[..|p|] == p }

  predicate EndsWith(s: string, p: string) { |p| <= |s| && s[|s| - |p|..] == p }

  /** `s.includes(p)` */
  predicate Contains(s: string, p: string)
  {
    StartsWith(s, p) || (s != [] && Contains(s[1..], p))
  }

  /** `p` is found in `s` at index `i`. */
  predicate OccursAt(s: string, p: string, i: nat)
  {
    i + |p| <= |s| && s[i..i + |p|] == p
  }

  /** An occurrence at any index is found by `includes`. */
  lemma {:induction false} OccursAtContains(s: string, p: string, i: nat)
    requires OccursAt(s, p, i)
    ensures Contains(s, p)
  {
    if i > 0 {
      assert s[1..][i - 1..i - 1 + |p|] == s[i..i + |p|];
      OccursAtContains(s[1..], p, i - 1);
    }
  }

  /** Whatever surrounds it, a string includes each of its middle parts. */
  lemma InfixContains(a: string, p: string, b: string)
    ensures Contains(a + p + b, p)
  {
    assert (a + p + b)[|a|..|a| + |p|] == p;
    OccursAtContains(a + p + b, p, |a|);
  }

  /** The texts of `xs` concatenated in order (the result of a loop of `s += f(x)`). */
  function ConcatMap<T>(f: T -> string, xs: seq<T>): string
  {
    if xs == [] then "" else ConcatMap(f, xs[..|xs| - 1]) + f(xs[|xs| - 1])
  }

  /** Appending an element appends its text. */
  lemma ConcatMapSnoc<T>(f: T -> string, xs: seq<T>, x: T)
    ensures ConcatMap(f, xs + [x]) == ConcatMap(f, xs) + f(x)
  {
    assert (xs + [x])[..|xs|] == xs;
  }

  /** One turn of a loop that appends each element's text to `s0`. */
  lemma ConcatMapStep<T>(f: T -> string, s0: string, xs: seq<T>, i: nat, r: string, r': string)
    requires i < |xs| && r == s0 + ConcatMap(f, xs[..i]) && r' == r + f(xs[i])
    ensures r' == s0 + ConcatMap(f, xs[..i + 1])
  {
    assert xs[..i + 1] == xs[..i] + [xs[i]];
    ConcatMapSnoc(f, xs[..i], xs[i]);
    AppendAssoc(s0, ConcatMap(f, xs[..i]), f(xs[i]));
  }

  lemma {:induction false} ConcatMapAppend<T>(f: T -> string, a: seq<T>, b: seq<T>)
    ensures ConcatMap(f, a + b) == ConcatMap(f, a) + ConcatMap(f, b)
    decreases |b|
  {
    if b == [] {
      assert a + b == a;
    } else {
      assert (a + b)[..|a + b| - 1] == a + b[..|b| - 1];
      ConcatMapAppend(f, a, b[..|b| - 1]);
    }
  }

  /** Each element's text stands between the texts of the elements before it and after it. */
  lemma {:induction false} ConcatMapSplit<T>(f: T -> string, xs: seq<T>, k: nat)
    requires k < |xs|
    ensures ConcatMap(f, xs) == ConcatMap(f, xs[..k]) + f(xs[k]) + ConcatMap(f, xs[k + 1..])
  {
    var front, back := xs[..k + 1], xs[k + 1..];
    assert xs == front + back;
    ConcatMapAppend(f, front, back);
    assert front[..|front| - 1] == xs[..k];
  }

  /**
   * In a text made of a prefix, the concatenated texts and a suffix,
   * element `k`'s text stands after the prefix and the texts before it.
   */
  lemma ConcatMapOccurs<T>(text: string, pre: string, f: T -> string, xs: seq<T>, post: string, k: nat, at: nat)
    requires k < |xs|
    requires text == pre + ConcatMap(f, xs) + post
    requires at == |pre| + |ConcatMap(f, xs[..k])|
    ensures OccursAt(text, f(xs[k]), at)
  {
    ConcatMapSplit(f, xs, k);
    var before := pre + ConcatMap(f, xs[..k]);
    var after := ConcatMap(f, xs[k + 1..]) + post;
    assert text == before + f(xs[k]) + after;
    assert (before + f(xs[k]) + after)[|before|..|before| + |f(xs[k])|] == f(xs[k]);
  }

  /** The same, for a text made of a prefix, one concatenation, then another. */
  lemma ConcatMapOccursAfter<T, U>(text: string, pre: string, g: U -> string, ys: seq<U>, f: T -> string, xs: seq<T>, k: nat, at: nat)
    requires k < |xs|
    requires text == pre + ConcatMap(g, ys) + ConcatMap(f, xs)
    requires at == |pre| + |ConcatMap(g, ys)| + |ConcatMap(f, xs[..k])|
    ensures OccursAt(text, f(xs[k]), at)
  {
    assert text == (pre + ConcatMap(g, ys)) + ConcatMap(f, xs) + "";
    ConcatMapOccurs(text, pre + ConcatMap(g, ys), f, xs, "", k, at);
  }

  /** Where a string occurs, so does each of its prefixes. */
  lemma OccursAtPrefix(s: string, a: string, b: string, i: nat)
    requires OccursAt(s, a + b, i)
    ensures OccursAt(s, a, i)
  {
    assert s[i..i + |a|] == (a + b)[..|a|];
  }

  /** The texts of longer prefixes are longer: element `j`'s text ends before element `k`'s begins. */
  lemma ConcatMapPrefixGrows<T>(f: T -> string, xs: seq<T>, j: nat, k: nat)
    requires j < k <= |xs|
    ensures |ConcatMap(f, xs[..j])| + |f(xs[j])| <= |ConcatMap(f, xs[..k])| <= |ConcatMap(f, xs)|
  {
    ConcatMapAppend(f, xs[..j + 1], xs[j + 1..k]);
    assert xs[..j + 1] + xs[j + 1..k] == xs[..k];
    assert xs[..j + 1][..j] == xs[..j];
    ConcatMapAppend(f, xs[..k], xs[k..]);
    assert xs[..k] + xs[k..] == xs;
  }

  lemma AppendAssoc(a: string, b: string, c: string)
    ensures a + b + c == a + (b + c)
  {
  }

  /** Appending three pieces one by one appends their concatenation. */
  lemma AppendThree(s: string, a: string, b: string, c: string)
    ensures s + a + b + c == s + (a + b + c)
  {
  }

  /** `Array.prototype.join(sep)` over strings. */
  function Join(parts: seq<string>, sep: string): (r: string)
  {
    if parts == [] then ""
    else if |parts| == 1 then parts[0]
    else Join(parts[..|parts| - 1], sep) + sep + parts[|parts| - 1]
  }

  /** ASCII case folding, as `toLowerCase` does for the ASCII range. */
  function LowerChar(c: char): (r: char)
    ensures 'A' <= c <= 'Z' ==> r as int == c as int + 32
    ensures !('A' <= c <= 'Z') ==> r == c
  {
    if 'A' <= c <= 'Z' then (c as int + 32) as char else c
  }

  function ToLower(s: string): (r: string)
    ensures |r| == |s|
    ensures forall i :: 0 <= i < |s| ==> r[i] == LowerChar(s[i])
  {
    if s == [] then [] else [LowerChar(s[0])] + ToLower(s[1..])
  }

  /** `s.trimStart()` */
  function TrimStart(s: string): (r: string)
    ensures |r| <= |s| && r == s[|s| - |r|..]
    ensures r == [] || !IsJsSpace(r[0])
    ensures forall i :: 0 <= i < |s| - |r| ==> IsJsSpace(s[i])
  {
    if s != [] && IsJsSpace(s[0]) then TrimStart(s[1..]) else s
  }

  /** `s.trimEnd()` */
  function TrimEnd(s: string): (r: string)
    ensures |r| <= |s| && r == s[..|r|]
    ensures r == [] || !IsJsSpace(r[|r| - 1])
    ensures forall i :: |r| <= i < |s| ==> IsJsSpace(s[i])
  {
    if s != [] && IsJsSpace(s[|s| - 1]) then TrimEnd(s[..|s| - 1]) else s
  }

  /** `s.trim()`: the longest infix with no surrounding white space. */
  function Trim(s: string): (r: string)
    ensures |r| <= |s|
    ensures r == [] || (!IsJsSpace(r[0]) && !IsJsSpace(r[|r| - 1]))
    ensures (forall i :: 0 <= i < |s| ==> IsJsSpace(s[i])) <==> r == []
  {
    var e := TrimEnd(s);
    var r := TrimStart(e);
    assert r == [] ==> forall i :: 0 <= i < |s| ==> IsJsSpace(s[i]) by {
      if r == [] {
        forall i | 0 <= i < |s| ensures IsJsSpace(s[i]) {
          if i >= |e| { } else { assert IsJsSpace(e[i]); }
        }
      }
    }
    assert r != [] ==> exists i :: 0 <= i < |s| && !IsJsSpace(s[i]) by {
      if r != [] {
        assert r[0] == s[|e| - |r|];
      }
    }
    r
  }

  /** `s.replace(/c/g, rep)` for a one-character pattern. */
  function ReplaceChar(s: string, c: char, rep: string): (r: string)
    ensures c !in rep ==> c !in r
    ensures forall d :: d in r ==> d in rep || (d in s && d != c)
  {
    if s == [] then []
    else (if s[0] == c then rep else [s[0]]) + ReplaceChar(s[1..], c, rep)
  }

  // ---------------------------------------------------------------------
  // Decimal numerals

  function DigitChar(d: nat): (c: char)
    requires d < 10
    ensures IsDigit(c)
  {
    ('0' as int + d) as char
  }

  function DigitValue(c: char): (d: nat)
    requires IsDigit(c)
    ensures d < 10
  {
    c as int - '0' as int
  }

  /** `String(n)` for a natural number: its decimal numeral, without leading zeros. */
  function NatToString(n: nat): (r: string)
    ensures |r| > 0 && AllDigits(r)
    ensures r[0] == '0' ==> n == 0
  {
    if n < 10 then [DigitChar(n)] else NatToString(n / 10) + [DigitChar(n % 10)]
  }

  /** `parseInt(s, 10)` of a string of decimal digits. */
  function ParseDigits(s: string): nat
    requires AllDigits(s)
  {
    if s == [] then 0 else 10 * ParseDigits(s[..|s| - 1]) + DigitValue(s[|s| - 1])
  }

  lemma {:induction false} ParseNatToString(n: nat)
    ensures ParseDigits(NatToString(n)) == n
  {
    if n >= 10 {
      ParseNatToString(n / 10);
      var s := NatToString(n);
      assert s[..|s| - 1] == NatToString(n / 10);
    }
  }

  /** Distinct numbers have distinct numerals. */
  lemma NatToStringInjective(m: nat, n: nat)
    requires NatToString(m) == NatToString(n)
    ensures m == n
  {
    ParseNatToString(m);
    ParseNatToString(n);
  }

  // ---------------------------------------------------------------------
  // JavaScript views of a value

  /** `typeof v === 'object'`: null, arrays and objects. */
  predicate IsObjectTyped(v: Value) { v.Null? || v.Arr? || v.Obj? }

  /** Arrays and plain objects, the values that have children. */
  predicate IsContainer(v: Value) { v.Arr? || v.Obj? }

  /** JavaScript truthiness. A `Dec` is never zero, so it is always truthy. */
  predicate Truthy(v: Value)
  {
    match v
    case Null => false
    case Bool(b) => b
    case Int(n) => n != 0
    case Dec(_, _, _) => true
    case Str(s) => s != []
    case Arr(_) => true
    case Obj(_) => true
  }

  function IntToString(n: int): string
  {
    if n < 0 then "-" + NatToString(-n) else NatToString(n)
  }

  /** `String(v)`. */
  function JsString(v: Value): string
  {
    match v
    case Null => "null"
    case Bool(b) => if b then "true" else "false"
    case Int(n) => IntToString(n)
    case Dec(neg, whole, fraction) => (if neg then "-" else "") + NatToString(whole) + "." + fraction
    case Str(s) => s
    case Arr(items) => JoinItems(v, 0)
    case Obj(_) => "[object Object]"
  }

  /** `Array.prototype.join(",")` as `String` applies it: null becomes the empty string. */
  function JoinItems(v: Value, i: nat): string
    requires v.Arr? && i <= |v.items|
    decreases v, |v.items| - i
  {
    if i == |v.items| then ""
    else
      (if i == 0 then "" else ",")
      + (if v.items[i].Null? then "" else JsString(v.items[i]))
      + JoinItems(v, i + 1)
  }

  /** The number of children of a value: the elements of an array, the entries of an object. */
  function ChildCount(v: Value): nat
  {
    match v
    case Arr(items) => |items|
    case Obj(entries) => |entries|
    case _ => 0
  }

  /** The `i`-th child, as `forEach` and `Object.values` visit them. */
  function Child(v: Value, i: nat): Value
    requires i < ChildCount(v)
  {
    match v
    case Arr(items) => items[i]
    case Obj(entries) => entries[i].1
  }

  /** The keys of object entries, as `Object.keys` lists them. */
  function Keys(entries: seq<(string, Value)>): (r: seq<string>)
    ensures |r| == |entries|
    ensures forall i :: 0 <= i < |entries| ==> r[i] == entries[i].0
  {
    if entries == [] then [] else [entries[0].0] + Keys(entries[1..])
  }

  /** `obj[key]` on an object: the value of the first entry with that key. */
  function Lookup(entries: seq<(string, Value)>, key: string): (r: Option<Value>)
    ensures r.None? <==> key !in Keys(entries)
    ensures r.Some? ==> exists i :: 0 <= i < |entries| && entries[i] == (key, r.value)
  {
    if entries == [] then None
    else if entries[0].0 == key then Some(entries[0].1)
    else Lookup(entries[1..], key)
  }

  const HasOwnPropertyKey := "hasOwnProperty"

  /**
   * The `TypeError` both XML writers throw from `obj.hasOwnProperty(key)`
   * when the object has an own `hasOwnProperty` entry: parsed data holds no
   * functions, so that entry hides the inherited method with a value that
   * cannot be called.
   */
  const HasOwnPropertyError := "obj.hasOwnProperty is not a function"

  /** `obj.hasOwnProperty` finds an own entry rather than the inherited method. */
  predicate HidesHasOwnProperty(entries: seq<(string, Value)>)
  {
    HasOwnPropertyKey in Keys(entries)
  }

  const NullToObjectError := "Cannot convert undefined or null to object"

  /**
   * `Object.entries(v)`: the index-keyed elements of an array or string,
   * the entries of an object, nothing for other primitives; `null` throws.
   */
  function Entries(v: Value): (r: Result<seq<(string, Value)>>)
    ensures r.Failure? <==> v.Null?
    ensures v.Obj? ==> r == Success(v.entries)
    ensures v.Arr? ==> r.Success? && |r.value| == |v.items|
    ensures v.Arr? ==> forall i :: 0 <= i < |v.items| ==> r.value[i] == (NatToString(i), v.items[i])
    ensures v.Str? ==> r.Success? && |r.value| == |v.text|
    ensures v.Str? ==> forall i :: 0 <= i < |v.text| ==> r.value[i] == (NatToString(i), Str([v.text[i]]))
    ensures (v.Bool? || v.Int? || v.Dec?) ==> r == Success([])
  {
    match v
    case Null => Failure(NullToObjectError)
    case Arr(items) => Success(seq(|items|, i requires 0 <= i < |items| => (NatToString(i), items[i])))
    case Obj(entries) => Success(entries)
    case Str(s) => Success(seq(|s|, i requires 0 <= i < |s| => (NatToString(i), Str([s[i]]))))
    case _ => Success([])
  }
}
