/**
 * The value classifier and naming rules of the schema analyser: type
 * inference, key heuristics, field and table naming, relationship kinds
 * and the SQL column types. All of these are pure.
 */
module SchemaRules {
  import opened JsValues

  /** The inferred type of a field; `Mixed` is only ever produced by merging. */
  datatype FieldType =
    | Unknown | Boolean | Integer | Decimal | Datetime | Email | Url | String | Array | Object | Mixed

  datatype RelationshipKind = OneToOne | OneToMany | ManyToMany

  function KindName(k: RelationshipKind): string
  {
    match k
    case OneToOne => "one-to-one"
    case OneToMany => "one-to-many"
    case ManyToMany => "many-to-many"
  }

  /**
   * One column of an inferred table. `maxLength` and `format` are the
   * optional properties of the source's field record; `examples` holds the
   * sampled values.
   */
  datatype Field = Field(
    name: string,
    fieldType: FieldType,
    nullable: bool,
    examples: seq<Value>,
    maxLength: Option<nat>,
    format: Option<string>,
    isPrimaryKey: bool,
    isForeignKey: bool,
    isAttribute: bool,
    isTextContent: bool)

  datatype Table = Table(name: string, fields: seq<Field>, primaryKey: Option<string>)

  datatype Relationship = Relationship(
    parentTable: string,
    childTable: string,
    kind: RelationshipKind,
    foreignKey: string,
    relationshipType: RelationshipKind)

  // ---------------------------------------------------------------------
  // Recognisers for strings

  /** `new Date(s)` is a valid time and `s` contains a hyphen. */
  predicate IsDate(host: Host, s: string)
  {
    host.dateParses(s) && '-' in s
  }

  predicate IsUrl(host: Host, s: string)
  {
    host.urlParses(s)
  }

  /** A character of `[^\s@]`. */
  predicate MailChar(c: char) { !IsJsSpace(c) && c != '@' }

  predicate AllMailChars(s: string) { forall i :: 0 <= i < |s| ==> MailChar(s[i]) }

  /** `[^\s@]+\.[^\s@]+`: mail characters with a dot that is neither first nor last. */
  predicate IsMailDomain(d: string)
  {
    AllMailChars(d) && exists j :: 0 < j < |d| - 1 && d[j] == '.'
  }

  /** The test `/^[^\s@]+@[^\s@]+\.[^\s@]+$/`. */
  predicate IsEmail(s: string)
  {
    exists i :: 0 < i < |s| && s[i] == '@' && AllMailChars(s[..i]) && IsMailDomain(s[i + 1..])
  }

  /** An address accepted by the e-mail test has exactly one `@`. */
  lemma EmailHasOneAt(s: string, i: nat, j: nat)
    requires IsEmail(s)
    requires i < |s| && j < |s| && s[i] == '@' && s[j] == '@'
    ensures i == j
  {
    var k :| 0 < k < |s| && s[k] == '@' && AllMailChars(s[..k]) && IsMailDomain(s[k + 1..]);
    forall t | 0 <= t < |s| && t != k ensures s[t] != '@' {
      if t < k { assert s[t] == s[..k][t]; } else { assert s[t] == s[k + 1..][t - k - 1]; }
    }
  }

  // ---------------------------------------------------------------------
  // Type inference

  /**
   * `inferDataType`: null is unknown, strings are tried as date, e-mail and
   * URL in that order and are otherwise plain strings (digit-only strings
   * included); it never answers `Mixed`.
   */
  function InferDataType(host: Host, v: Value): (t: FieldType)
    ensures t != Mixed
    ensures t == Unknown <==> v.Null?
    ensures t == Boolean <==> v.Bool?
    ensures t == Integer <==> v.Int?
    ensures t == Decimal <==> v.Dec?
    ensures t == Array <==> v.Arr?
    ensures t == Object <==> v.Obj?
    ensures t == Datetime <==> v.Str? && IsDate(host, v.text)
    ensures t == Email <==> v.Str? && !IsDate(host, v.text) && IsEmail(v.text)
    ensures t == Url <==> v.Str? && !IsDate(host, v.text) && !IsEmail(v.text) && IsUrl(host, v.text)
    ensures t == String <==> v.Str? && !IsDate(host, v.text) && !IsEmail(v.text) && !IsUrl(host, v.text)
  {
    match v
    case Null => Unknown
    case Bool(_) => Boolean
    case Int(_) => Integer
    case Dec(_, _, _) => Decimal
    case Str(s) =>
      if IsDate(host, s) then Datetime
      else if IsEmail(s) then Email
      else if IsUrl(host, s) then Url
      else String
    case Arr(_) => Array
    case Obj(_) => Object
  }

  // ---------------------------------------------------------------------
  // Key heuristics

  const PrimaryKeyPatterns: seq<string> := ["id", "_id", "pk", "key", "uuid"]

  /** The lower-cased name contains one of the key-like patterns. */
  predicate IsPrimaryKeyCandidate(name: string)
  {
    exists p :: p in PrimaryKeyPatterns && Contains(ToLower(name), p)
  }

  /** The lower-cased name ends with `_id`, or ends with `id` and is not `id` itself. */
  predicate IsForeignKeyCandidate(name: string)
  {
    var lower := ToLower(name);
    EndsWith(lower, "_id") || (EndsWith(lower, "id") && lower != "id")
  }

  lemma {:induction false} EndsWithContains(s: string, p: string)
    requires EndsWith(s, p)
    ensures Contains(s, p)
  {
    if !StartsWith(s, p) {
      assert s != [];
      assert s[1..][|s[1..]| - |p|..] == s[|s| - |p|..];
      EndsWithContains(s[1..], p);
    }
  }

  /** Every foreign-key candidate is also a primary-key candidate. */
  lemma ForeignKeyIsPrimaryKeyCandidate(name: string)
    requires IsForeignKeyCandidate(name)
    ensures IsPrimaryKeyCandidate(name)
  {
    var lower := ToLower(name);
    assert EndsWith(lower, "id") by {
      if EndsWith(lower, "_id") {
        assert lower[|lower| - 2..] == lower[|lower| - 3..][1..];
      }
    }
    EndsWithContains(lower, "id");
    assert "id" in PrimaryKeyPatterns;
  }

  /** The `_id` test adds nothing: a name is a foreign-key candidate exactly when it ends in `id` and is not `id`. */
  lemma ForeignKeyCandidateShape(name: string)
    ensures IsForeignKeyCandidate(name) <==> (EndsWith(ToLower(name), "id") && ToLower(name) != "id")
  {
    var lower := ToLower(name);
    if EndsWith(lower, "_id") {
      assert lower[|lower| - 2..] == lower[|lower| - 3..][1..];
      assert lower != "id" by { assert |lower| >= 3; }
    }
  }

  /** `guessPrimaryKey`: the first key, in insertion order, that looks like a key. */
  function GuessPrimaryKey(keys: seq<string>): (r: Option<string>)
    ensures r.None? <==> forall k :: k in keys ==> !IsPrimaryKeyCandidate(k)
    ensures r.Some? ==> exists i :: (0 <= i < |keys| && keys[i] == r.value
      && IsPrimaryKeyCandidate(keys[i]) && forall j :: 0 <= j < i ==> !IsPrimaryKeyCandidate(keys[j]))
  {
    if keys == [] then None
    else if IsPrimaryKeyCandidate(keys[0]) then Some(keys[0])
    else
      var r := GuessPrimaryKey(keys[1..]);
      assert r.Some? ==> exists i :: (0 <= i < |keys| && keys[i] == r.value
        && IsPrimaryKeyCandidate(keys[i]) && forall j :: 0 <= j < i ==> !IsPrimaryKeyCandidate(keys[j])) by {
        if r.Some? {
          var i :| 0 <= i < |keys[1..]| && keys[1..][i] == r.value
            && IsPrimaryKeyCandidate(keys[1..][i]) && forall j :: 0 <= j < i ==> !IsPrimaryKeyCandidate(keys[1..][j]);
          assert keys[i + 1] == r.value;
          assert forall j :: 0 <= j < i + 1 ==> !IsPrimaryKeyCandidate(keys[j]) by {
            forall j | 0 <= j < i + 1 ensures !IsPrimaryKeyCandidate(keys[j]) {
              if j > 0 { assert keys[j] == keys[1..][j - 1]; }
            }
          }
        }
      }
      r
  }

  // ---------------------------------------------------------------------
  // Naming

  /** `name.replace(/[^a-zA-Z0-9_]/g, '_').toLowerCase()` */
  function SanitizeFieldName(name: string): (r: string)
    ensures |r| == |name|
    ensures forall i :: 0 <= i < |r| ==> ('a' <= r[i] <= 'z' || IsDigit(r[i]) || r[i] == '_')
    ensures forall i :: 0 <= i < |r| ==> (IsWordChar(name[i]) ==> r[i] == LowerChar(name[i]))
    ensures forall i :: 0 <= i < |r| ==> (!IsWordChar(name[i]) ==> r[i] == '_')
  {
    if name == [] then []
    else [if IsWordChar(name[0]) then LowerChar(name[0]) else '_'] + SanitizeFieldName(name[1..])
  }

  /** Sanitising twice is sanitising once. */
  lemma SanitizeFieldNameIdempotent(name: string)
    ensures SanitizeFieldName(SanitizeFieldName(name)) == SanitizeFieldName(name)
  {
    var once := SanitizeFieldName(name);
    var twice := SanitizeFieldName(once);
    forall i | 0 <= i < |once| ensures twice[i] == once[i] {
      assert IsWordChar(once[i]);
    }
  }

  /**
   * `pluralToSingular`: `ies` becomes `y`, otherwise a final `es`, else a
   * final `s`, is dropped; other words are unchanged.
   */
  function PluralToSingular(word: string): (r: string)
    ensures |r| <= |word|
    ensures EndsWith(word, "ies") ==> r == word[..|word| - 3] + "y"
    ensures !EndsWith(word, "ies") && EndsWith(word, "es") ==> r == word[..|word| - 2]
    ensures !EndsWith(word, "es") && EndsWith(word, "s") ==> r == word[..|word| - 1]
    ensures !EndsWith(word, "s") ==> r == word
  {
    if EndsWith(word, "ies") then word[..|word| - 3] + "y"
    else if EndsWith(word, "es") then word[..|word| - 2]
    else if EndsWith(word, "s") then word[..|word| - 1]
    else word
  }

  /** "categories" is singularised to "category", "books" to "book", and "address" to "addres". */
  lemma PluralExamples()
    ensures PluralToSingular("categories") == "category"
    ensures PluralToSingular("books") == "book"
    ensures PluralToSingular("address") == "addres"
  {
    assert EndsWith("categories", "ies") && "categories"[..7] == "categor";
    assert !EndsWith("books", "es") && EndsWith("books", "s");
    assert !EndsWith("address", "es") && EndsWith("address", "s");
  }

  // ---------------------------------------------------------------------
  // Relationships

  predicate HasPair(rels: seq<Relationship>, parent: string, child: string)
  {
    exists r :: r in rels && r.parentTable == parent && r.childTable == child
  }

  /**
   * `determineRelationshipType`: a one-to-many edge whose reverse is
   * already recorded is reported as many-to-many; other kinds pass through.
   */
  function DetermineRelationshipType(base: RelationshipKind, rels: seq<Relationship>, parent: string, child: string)
    : (k: RelationshipKind)
    ensures k == ManyToMany <==> base == ManyToMany || (base == OneToMany && HasPair(rels, child, parent))
    ensures k != ManyToMany ==> k == base
  {
    if base == OneToMany then (if HasPair(rels, child, parent) then ManyToMany else OneToMany)
    else base
  }

  // ---------------------------------------------------------------------
  // Fields

  /**
   * `analyzeField`: a field named after the sanitised key, typed by
   * `InferDataType`, nullable exactly for null, with the value as its only
   * example and key flags decided on the raw name. For a plain string it
   * records the length; the e-mail, URL and date tests that follow can no
   * longer succeed there, so no format is ever set and the type is never
   * overridden.
   */
  function AnalyzeField(host: Host, name: string, value: Value): (f: Field)
    ensures f.name == SanitizeFieldName(name)
    ensures f.fieldType == InferDataType(host, value)
    ensures f.format == None
    ensures f.nullable <==> value.Null?
    ensures f.examples == [value]
    ensures f.maxLength.Some? <==> f.fieldType == String
    ensures f.fieldType == String ==> f.maxLength == Some(|value.text|)
    ensures f.isPrimaryKey == IsPrimaryKeyCandidate(name) && f.isForeignKey == IsForeignKeyCandidate(name)
    ensures !f.isAttribute && !f.isTextContent
  {
    var t := InferDataType(host, value);
    var plain := t == String && value.Str?;
    var maxLength := if plain then Some(|value.text|) else None;
    var format: Option<string> :=
      if !plain then None
      else if IsEmail(value.text) then Some("email")
      else if IsUrl(host, value.text) then Some("url")
      else if IsDate(host, value.text) then Some("date")
      else None;
    var t' := if plain && !IsEmail(value.text) && !IsUrl(host, value.text) && IsDate(host, value.text)
              then Datetime else t;
    Field(SanitizeFieldName(name), t', value.Null?, [value], maxLength, format,
          IsPrimaryKeyCandidate(name), IsForeignKeyCandidate(name), false, false)
  }

  /**
   * One step of `mergeFieldsFromObject` on an existing field: a differing
   * known type collapses to `Mixed`, a non-null sample clears `nullable`,
   * the sample is kept while fewer than five are, and a string sample
   * widens `maxLength` while the field is still a string. Name, format and
   * flags are never touched.
   */
  function MergeField(host: Host, f: Field, v: Value): (g: Field)
    ensures g.name == f.name && g.format == f.format
    ensures g.isPrimaryKey == f.isPrimaryKey && g.isForeignKey == f.isForeignKey
    ensures g.isAttribute == f.isAttribute && g.isTextContent == f.isTextContent
    ensures |f.examples| < 5 ==> g.examples == f.examples + [v]
    ensures |f.examples| >= 5 ==> g.examples == f.examples
  {
    var newType := InferDataType(host, v);
    var t := if newType != f.fieldType && newType != Unknown then Mixed else f.fieldType;
    var nullable := if !v.Null? then false else f.nullable;
    var examples := if |f.examples| < 5 then f.examples + [v] else f.examples;
    var maxLength: Option<nat> :=
      if t == String && v.Str? then
        var before := if f.maxLength.Some? then f.maxLength.value else 0;
        Some(if before >= |v.text| then before else |v.text|)
      else f.maxLength;
    f.(fieldType := t, nullable := nullable, examples := examples, maxLength := maxLength)
  }

  /**
   * The type of a merged field: `Mixed` exactly when it already was, or
   * when a non-null sample infers a different type; otherwise unchanged.
   */
  lemma MergeFieldType(host: Host, f: Field, v: Value)
    ensures var g := MergeField(host, f, v);
      && (g.fieldType == f.fieldType || g.fieldType == Mixed)
      && (g.fieldType == Mixed <==> f.fieldType == Mixed || (InferDataType(host, v) != f.fieldType && !v.Null?))
  {
    assert InferDataType(host, v) == Unknown <==> v.Null?;
  }

  /** A merged field is nullable only if it was and the sample is null. */
  lemma MergeFieldNullable(host: Host, f: Field, v: Value)
    ensures MergeField(host, f, v).nullable <==> f.nullable && v.Null?
  {
  }

  /**
   * While a merged field is a string, a string sample raises `maxLength`
   * to at least its own length and never lowers it; in every other case
   * `maxLength` is left alone.
   */
  lemma MergeFieldLength(host: Host, f: Field, v: Value)
    ensures var g := MergeField(host, f, v);
      && (g.fieldType == String && v.Str? ==>
            g.maxLength.Some? && g.maxLength.value >= |v.text|
            && (f.maxLength.Some? ==> g.maxLength.value >= f.maxLength.value)
            && (g.maxLength.value == |v.text| || f.maxLength == g.maxLength))
      && (!(g.fieldType == String && v.Str?) ==> g.maxLength == f.maxLength)
  {
  }

  // ---------------------------------------------------------------------
  // SQL types

  /** `field.maxLength ? Math.min(field.maxLength * 2, 255) : 255` (a zero length counts as absent). */
  function VarcharWidth(maxLength: Option<nat>): (w: nat)
    ensures 2 <= w <= 255
    ensures w == 255 || (maxLength.Some? && w == 2 * maxLength.value)
    ensures maxLength.Some? && maxLength.value > 0 ==> w >= 2 * maxLength.value || w == 255
    ensures maxLength.Some? && 0 < maxLength.value < 128 ==> w == 2 * maxLength.value
  {
    if maxLength.Some? && maxLength.value != 0 then
      (if maxLength.value * 2 < 255 then maxLength.value * 2 else 255)
    else 255
  }

  /** `getSQLType`. */
  function SqlType(f: Field): string
  {
    match f.fieldType
    case Integer => "INTEGER"
    case Decimal => "DECIMAL(10,2)"
    case Boolean => "BOOLEAN"
    case Datetime => "TIMESTAMP"
    case Email => "VARCHAR(" + NatToString(VarcharWidth(f.maxLength)) + ")"
    case Url => "VARCHAR(" + NatToString(VarcharWidth(f.maxLength)) + ")"
    case String => "VARCHAR(" + NatToString(VarcharWidth(f.maxLength)) + ")"
    case Array => "JSON"
    case Object => "JSON"
    case _ => "TEXT"
  }

  /**
   * The column type classes: `TEXT` exactly for unknown and mixed fields,
   * `JSON` exactly for arrays and objects, a `VARCHAR` exactly for the
   * three string-like types.
   */
  lemma SqlTypeClasses(f: Field)
    ensures SqlType(f) == "TEXT" <==> f.fieldType == Unknown || f.fieldType == Mixed
    ensures SqlType(f) == "JSON" <==> f.fieldType == Array || f.fieldType == Object
    ensures StartsWith(SqlType(f), "VARCHAR(") <==> f.fieldType in {Email, Url, String}
  {
    var r := SqlType(f);
    match f.fieldType
    case Decimal => assert r[0] != 'V';
    case Datetime => assert r[0] != 'V';
    case Email => assert r[..8] == "VARCHAR(";
    case Url => assert r[..8] == "VARCHAR(";
    case String => assert r[..8] == "VARCHAR(";
    case _ =>
  }
}
