/**
 * `SchemaAnalyzer` as the source runs it: a schema object whose table and
 * relationship lists the mutually recursive walk appends to and whose
 * field records it widens in place. Every method is proved to leave the
 * state that the corresponding function of `SchemaSpec` computes, so the
 * invariants proved there (the state only grows, it stays valid, at most
 * ten elements of an array are looked at) carry over.
 */
module SchemaAnalyzer {
  import opened JsValues
  import opened SchemaRules
  import opened SchemaSpec

  /** A step that may throw ended as its specification says: the same error, or the specified state. */
  predicate Agrees(r: Result<State>, err: Option<string>, now: State)
  {
    match r
    case Failure(e) => err == Some(e)
    case Success(s) => err.None? && now == s
  }

  /** `guessPrimaryKey`: the loop over `Object.keys(obj)` that returns at the first candidate. */
  method FirstPrimaryKey(keys: seq<string>) returns (r: Option<string>)
    ensures r == GuessPrimaryKey(keys)
  {
    var i := 0;
    while i < |keys|
      invariant 0 <= i <= |keys|
      invariant GuessPrimaryKey(keys[i..]) == GuessPrimaryKey(keys)
    {
      assert keys[i..][0] == keys[i] && keys[i..][1..] == keys[i + 1..];
      if IsPrimaryKeyCandidate(keys[i]) {
        return Some(keys[i]);
      }
      i := i + 1;
    }
    return None;
  }

  /**
   * The body of `mergeFieldsFromObject` for an existing field, one
   * property at a time: type, nullability, examples, then length.
   */
  method WidenField(host: Host, f: Field, value: Value) returns (g: Field)
    ensures g == MergeField(host, f, value)
  {
    g := f;
    var newType := InferDataType(host, value);
    if newType != g.fieldType && newType != Unknown {
      g := g.(fieldType := Mixed);
    }
    if !value.Null? {
      g := g.(nullable := false);
    }
    if |g.examples| < 5 {
      g := g.(examples := g.examples + [value]);
    }
    ghost var typed := g;
    if g.fieldType == String && value.Str? {
      var before := if g.maxLength.Some? then g.maxLength.value else 0;
      g := g.(maxLength := Some(if before >= |value.text| then before else |value.text|));
    }
    assert typed == MergeField(host, f, value).(maxLength := f.maxLength);
  }

  /** One entry of the loop of `mergeFieldsFromObject`: widen the field the key names, or add one. */
  method MergeOne(host: Host, fields: seq<Field>, key: string, value: Value) returns (r: seq<Field>)
    ensures r == MergeEntry(host, fields, key, value)
  {
    var existing := FindField(fields, SanitizeFieldName(key));
    if existing.Some? {
      var widened := WidenField(host, fields[existing.value], value);
      r := fields[existing.value := widened];
    } else {
      r := fields + [AnalyzeField(host, key, value)];
    }
  }

  class SchemaBuilder {
    const host: Host
    var tables: seq<Table>
    var relationships: seq<Relationship>

    function Current(): State
      reads this
    {
      State(tables, relationships)
    }

    /** The schema literal of `analyzeJSONSchema`/`analyzeXMLSchema`: no tables, no relationships. */
    constructor(host: Host)
      ensures this.host == host && Current() == EmptyState()
    {
      this.host := host;
      tables := [];
      relationships := [];
    }

    /** `addRelationship`: pushes the edge unless its ordered pair is already recorded. */
    method AddRelationship(parent: string, child: string, base: RelationshipKind)
      modifies this
      ensures Current() == SchemaSpec.AddRelationship(old(Current()), parent, child, base)
    {
      var kind := DetermineRelationshipType(base, relationships, parent, child);
      var rel := Relationship(parent, child, base, parent + "_id", kind);
      var present := HasPair(relationships, parent, child);
      if !present {
        relationships := relationships + [rel];
      }
    }

    /** `mergeFieldsFromObject` (and `mergeFieldsFromXMLObject`, which only delegates). */
    method MergeFieldsFromObject(obj: Value, name: string) returns (err: Option<string>)
      modifies this
      ensures Agrees(SchemaSpec.MergeFieldsFromObject(host, obj, name, old(Current())), err, Current())
    {
      var found := FindTable(tables, name);
      if found.None? {
        return None;
      }
      var t := found.value;
      var entries := Entries(obj);
      if entries.Failure? {
        return Some(entries.error);
      }
      MergeEntriesAt(t, entries.value);
      err := None;
    }

    /**
     * The loop of `mergeFieldsFromObject` over the entries of the sample,
     * widening the field list of table `t`; nothing else reads the table
     * while the loop runs, so it is written back once at the end.
     */
    method MergeEntriesAt(t: nat, es: seq<(string, Value)>)
      requires t < |tables|
      modifies this
      ensures relationships == old(relationships)
      ensures tables == old(tables)[t := old(tables)[t].(fields := MergeEntries(host, old(tables)[t].fields, es, 0))]
    {
      var fields := tables[t].fields;
      ghost var start := fields;
      var i := 0;
      while i < |es|
        invariant 0 <= i <= |es|
        invariant MergeEntries(host, fields, es, i) == MergeEntries(host, start, es, 0)
        modifies {}
      {
        fields := MergeOne(host, fields, es[i].0, es[i].1);
        i := i + 1;
      }
      tables := tables[t := tables[t].(fields := fields)];
    }

    /** `processJSONObject`. */
    method ProcessJsonObject(v: Value, name: string) returns (err: Option<string>)
      modifies this
      ensures Agrees(ProcessJson(host, v, name, old(Current())), err, Current())
      decreases v, 2
    {
      err := None;
      if !IsContainer(v) {
        return;
      }
      if v.Arr? && |v.items| > 0 {
        var sample := v.items[0];
        if sample.Null? || sample.Obj? {
          err := CreateTableFromObject(sample, name);
          if err.Some? {
            return;
          }
          err := MergeRest(v.items, name);
        }
      } else {
        err := CreateTableFromObject(v, name);
      }
    }

    /** The loop `for (let i = 1; i < Math.min(obj.length, 10); i++)` merging the later samples. */
    method MergeRest(items: seq<Value>, name: string) returns (err: Option<string>)
      requires |items| > 0
      modifies this
      ensures Agrees(MergeSamples(host, items, 1, SampleEnd(items), name, old(Current())), err, Current())
    {
      var end := if |items| < 10 then |items| else 10;
      var i := 1;
      while i < end
        invariant 1 <= i <= end
        invariant MergeSamples(host, items, i, end, name, Current())
          == MergeSamples(host, items, 1, end, name, old(Current()))
      {
        ghost var before := Current();
        err := MergeFieldsFromObject(items[i], name);
        if err.Some? {
          return;
        }
        assert MergeSamples(host, items, i, end, name, before) == MergeSamples(host, items, i + 1, end, name, Current());
        i := i + 1;
      }
      err := None;
    }

    /** `createTableFromObject`. */
    method CreateTableFromObject(obj: Value, name: string) returns (err: Option<string>)
      requires IsObjectTyped(obj)
      modifies this
      ensures Agrees(CreateTableJson(host, obj, name, old(Current())), err, Current())
      decreases obj, 1
    {
      if FindTable(tables, name).Some? {
        return None;
      }
      if obj.Null? {
        return Some(NullToObjectError);
      }
      CreateTableJsonUnfold(host, obj, name, Current());
      var pk := FirstPrimaryKey(KeysOf(obj));
      var fields;
      fields, err := WalkJsonEntries(obj, name);
      if err.None? {
        tables := tables + [Table(name, fields, pk)];
      }
    }

    /** The loop `for (const [key, value] of Object.entries(obj))` of `createTableFromObject`. */
    method WalkJsonEntries(obj: Value, name: string) returns (fields: seq<Field>, err: Option<string>)
      requires IsContainer(obj)
      modifies this
      ensures var e := JsonEntries(host, obj, 0, name, old(Current()), []);
        && (e.Failure? ==> err == Some(e.error))
        && (e.Success? ==> err.None? && Current() == e.value.0 && fields == e.value.1)
      decreases obj, 0
    {
      ghost var whole := JsonEntries(host, obj, 0, name, Current(), []);
      fields, err := [], None;
      var i := 0;
      while i < ChildCount(obj)
        invariant 0 <= i <= ChildCount(obj)
        invariant JsonEntries(host, obj, i, name, Current(), fields) == whole
        invariant err.None?
        decreases ChildCount(obj) - i
      {
        fields, err := JsonEntryTurn(obj, i, name, fields);
        if err.Some? {
          return;
        }
        i := i + 1;
      }
      assert whole == Success((Current(), fields));
    }

    /** One turn of that loop: the entry's field, then its recursion. */
    method JsonEntryTurn(obj: Value, i: nat, name: string, fields: seq<Field>) returns (r: seq<Field>, err: Option<string>)
      requires IsContainer(obj) && i < ChildCount(obj)
      modifies this
      ensures var e := JsonEntries(host, obj, i, name, old(Current()), fields);
        && (err.Some? ==> e.Failure? && err == Some(e.error))
        && (err.None? ==> e == JsonEntries(host, obj, i + 1, name, Current(), r))
      decreases obj, 0, ChildCount(obj) - i
    {
      var key := EntryKey(obj, i);
      var value := Child(obj, i);
      JsonEntriesStep(host, obj, i, name, Current(), fields);
      r := fields + [AnalyzeField(host, key, value)];
      err := WalkJsonEntry(key, value, name);
    }

    /** The recursion of `createTableFromObject` for one entry, with the relationship it records. */
    method WalkJsonEntry(key: string, value: Value, name: string) returns (err: Option<string>)
      modifies this
      ensures Agrees(JsonChild(host, key, value, name, old(Current())), err, Current())
      decreases value, 3
    {
      err := None;
      if value.Arr? && |value.items| > 0 && IsObjectTyped(value.items[0]) {
        var child := PluralToSingular(key);
        err := ProcessJsonObject(value, child);
        if err.Some? {
          return;
        }
        AddRelationship(name, child, OneToMany);
      } else if value.Obj? {
        err := ProcessJsonObject(value, key);
        if err.Some? {
          return;
        }
        AddRelationship(name, key, OneToOne);
      }
    }

    /** `processXMLObject`. */
    method ProcessXmlObject(v: Value, name: string) returns (err: Option<string>)
      modifies this
      ensures Agrees(ProcessXml(host, v, name, old(Current())), err, Current())
      decreases v, 2
    {
      err := None;
      if !IsContainer(v) {
        return;
      }
      if v.Arr? && |v.items| > 0 {
        var sample := v.items[0];
        if IsObjectTyped(sample) {
          err := CreateTableFromXmlObject(sample, name);
          if err.Some? {
            return;
          }
          err := MergeRest(v.items, name);
        }
      } else {
        err := CreateTableFromXmlObject(v, name);
      }
    }

    /** `createTableFromXMLObject`. */
    method CreateTableFromXmlObject(obj: Value, name: string) returns (err: Option<string>)
      requires IsObjectTyped(obj)
      modifies this
      ensures Agrees(CreateTableXml(host, obj, name, old(Current())), err, Current())
      decreases obj, 1
    {
      if FindTable(tables, name).Some? {
        return None;
      }
      if obj.Null? {
        return Some(NullToObjectError);
      }
      CreateTableXmlUnfold(host, obj, name, Current());
      var fields;
      fields, err := WalkXmlEntries(obj, name);
      if err.None? {
        var pk := FirstPrimaryKey(KeysOf(obj));
        tables := tables + [Table(name, fields, pk)];
      }
    }

    /** The loop `for (const [key, value] of Object.entries(obj))` of `createTableFromXMLObject`. */
    method WalkXmlEntries(obj: Value, name: string) returns (fields: seq<Field>, err: Option<string>)
      requires IsContainer(obj)
      modifies this
      ensures var e := XmlEntries(host, obj, 0, name, old(Current()), []);
        && (e.Failure? ==> err == Some(e.error))
        && (e.Success? ==> err.None? && Current() == e.value.0 && fields == e.value.1)
      decreases obj, 0
    {
      ghost var whole := XmlEntries(host, obj, 0, name, Current(), []);
      fields, err := [], None;
      var i := 0;
      while i < ChildCount(obj)
        invariant 0 <= i <= ChildCount(obj)
        invariant XmlEntries(host, obj, i, name, Current(), fields) == whole
        invariant err.None?
        decreases ChildCount(obj) - i
      {
        fields, err := XmlEntryTurn(obj, i, name, fields);
        if err.Some? {
          return;
        }
        i := i + 1;
      }
      assert whole == Success((Current(), fields));
    }

    /** One turn of that loop: the entry's fields, then its recursion. */
    method XmlEntryTurn(obj: Value, i: nat, name: string, fields: seq<Field>) returns (r: seq<Field>, err: Option<string>)
      requires IsContainer(obj) && i < ChildCount(obj)
      modifies this
      ensures var e := XmlEntries(host, obj, i, name, old(Current()), fields);
        && (err.Some? ==> e.Failure? && err == Some(e.error))
        && (err.None? ==> e == XmlEntries(host, obj, i + 1, name, Current(), r))
      decreases obj, 0, ChildCount(obj) - i
    {
      var key := EntryKey(obj, i);
      var value := Child(obj, i);
      XmlEntriesStep(host, obj, i, name, Current(), fields);
      r, err := AppendEntryFields(key, value, fields);
      if err.Some? {
        return;
      }
      err := WalkXmlEntry(key, value, name);
    }

    /** The fields one entry of `createTableFromXMLObject` adds to those gathered so far. */
    method AppendEntryFields(key: string, value: Value, fields: seq<Field>) returns (r: seq<Field>, err: Option<string>)
      ensures var added := XmlEntryFields(host, key, value);
        && (added.Failure? ==> err == Some(added.error))
        && (added.Success? ==> err.None? && r == fields + added.value)
    {
      r, err := fields, None;
      if key == "@attributes" {
        var attrs := Entries(value);
        if attrs.Failure? {
          return r, Some(attrs.error);
        }
        r := AppendAttributes(fields, attrs.value);
      } else if key == "#text" {
        var field := AnalyzeField(host, "content", value);
        field := field.(isTextContent := true);
        r := fields + [field];
      } else if !IsContainer(value) {
        r := fields + [AnalyzeField(host, key, value)];
      }
    }

    /** The recursion of `createTableFromXMLObject` for one entry, with the relationship it records. */
    method WalkXmlEntry(key: string, value: Value, name: string) returns (err: Option<string>)
      modifies this
      ensures Agrees(XmlChild(host, key, value, name, old(Current())), err, Current())
      decreases value, 3
    {
      err := None;
      if key == "@attributes" || key == "#text" {
        return;
      }
      if value.Arr? {
        var child := PluralToSingular(key);
        err := ProcessXmlObject(value, child);
        if err.Some? {
          return;
        }
        AddRelationship(name, child, OneToMany);
      } else if value.Obj? {
        err := ProcessXmlObject(value, key);
        if err.Some? {
          return;
        }
        AddRelationship(name, key, OneToOne);
      }
    }

    /** The inner loop over `Object.entries(value)` for the `@attributes` key. */
    method AppendAttributes(fields: seq<Field>, attrs: seq<(string, Value)>) returns (r: seq<Field>)
      ensures r == fields + AttributeFields(host, attrs)
    {
      r := fields;
      var k := 0;
      while k < |attrs|
        invariant 0 <= k <= |attrs|
        invariant r == fields + AttributeFields(host, attrs[..k])
      {
        var field := AnalyzeField(host, attrs[k].0, attrs[k].1);
        field := field.(isAttribute := true);
        AttributeFieldsSnoc(host, attrs, k);
        r := r + [field];
        k := k + 1;
      }
      assert attrs[..k] == attrs;
    }
  }

  /** Taking one more attribute adds its field at the end. */
  lemma AttributeFieldsSnoc(host: Host, attrs: seq<(string, Value)>, k: nat)
    requires k < |attrs|
    ensures AttributeFields(host, attrs[..k + 1])
      == AttributeFields(host, attrs[..k]) + [AnalyzeField(host, attrs[k].0, attrs[k].1).(isAttribute := true)]
  {
    var longer := AttributeFields(host, attrs[..k + 1]);
    var shorter := AttributeFields(host, attrs[..k]);
    assert |longer| == |shorter| + 1;
    forall j | 0 <= j < k
      ensures longer[j] == shorter[j]
    {
      assert attrs[..k + 1][j] == attrs[..k][j];
    }
  }

  /**
   * `analyzeSchema`, with `analyzeJSONSchema`/`analyzeXMLSchema` inlined:
   * a fresh schema walked from `root`, then its metadata filled in.
   */
  method AnalyzeSchema(host: Host, data: Value, format: string) returns (r: Result<Schema>)
    ensures r == SchemaSpec.AnalyzeSchema(host, data, format)
  {
    if format != "json" && format != "xml" {
      return Failure(AnalysisFailedPrefix + UnsupportedFormatError);
    }
    var schema := new SchemaBuilder(host);
    var err;
    if format == "json" {
      err := schema.ProcessJsonObject(data, "root");
    } else {
      err := schema.ProcessXmlObject(data, "root");
    }
    if err.Some? {
      return Failure(AnalysisFailedPrefix + err.value);
    }
    r := Success(Finish(host, schema.Current()));
  }
}
