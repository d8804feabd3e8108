/**
 * The schema analyser's walk, written as functions on an explicit state:
 * the list of tables and the list of relationships that the source's
 * `schema` object accumulates. The methods of `SchemaAnalyzer` are proved
 * to compute exactly these functions; the invariants of the walk are
 * proved here, by induction along the same recursion.
 */
module SchemaSpec {
  import opened JsValues
  import opened SchemaRules

  datatype State = State(tables: seq<Table>, relationships: seq<Relationship>)

  // ---------------------------------------------------------------------
  // Lookups

  predicate HasTable(tables: seq<Table>, name: string)
  {
    exists t :: t in tables && t.name == name
  }

  /** `schema.tables.find(t => t.name === name)`, as an index. */
  function FindTable(tables: seq<Table>, name: string): (r: Option<nat>)
    ensures r.None? <==> !HasTable(tables, name)
    ensures r.Some? ==> r.value < |tables| && tables[r.value].name == name
    ensures r.Some? ==> forall j :: 0 <= j < r.value ==> tables[j].name != name
  {
    if tables == [] then None
    else if tables[0].name == name then Some(0)
    else
      var r := FindTable(tables[1..], name);
      if r.None? then None else Some(r.value + 1)
  }

  /** `table.fields.find(f => f.name === name)`, as an index: the first field with the name. */
  function FindField(fields: seq<Field>, name: string): (r: Option<nat>)
    ensures r.None? <==> forall j :: 0 <= j < |fields| ==> fields[j].name != name
    ensures r.Some? ==> r.value < |fields| && fields[r.value].name == name
    ensures r.Some? ==> forall j :: 0 <= j < r.value ==> fields[j].name != name
  {
    if fields == [] then None
    else if fields[0].name == name then Some(0)
    else
      var r := FindField(fields[1..], name);
      if r.None? then None else Some(r.value + 1)
  }

  // ---------------------------------------------------------------------
  // Invariants

  /** Each relationship is stored once per ordered pair, with its derived attributes. */
  predicate RelationshipsValid(rels: seq<Relationship>)
  {
    && (forall i, j :: 0 <= i < j < |rels| ==>
          (rels[i].parentTable, rels[i].childTable) != (rels[j].parentTable, rels[j].childTable))
    && (forall i :: 0 <= i < |rels| ==> rels[i].foreignKey == rels[i].parentTable + "_id")
    && (forall i :: 0 <= i < |rels| ==>
          rels[i].relationshipType
          == DetermineRelationshipType(rels[i].kind, rels[..i], rels[i].parentTable, rels[i].childTable))
  }

  /** A field keeps between one and five examples and never carries a format. */
  predicate FieldValid(f: Field)
  {
    1 <= |f.examples| <= 5 && f.format == None
  }

  predicate FieldsValid(fields: seq<Field>)
  {
    forall j :: 0 <= j < |fields| ==> FieldValid(fields[j])
  }

  predicate TablesValid(tables: seq<Table>)
  {
    forall i :: 0 <= i < |tables| ==> FieldsValid(tables[i].fields)
  }

  predicate Valid(st: State)
  {
    TablesValid(st.tables) && RelationshipsValid(st.relationships)
  }

  /** A field only widens: `Mixed` is permanent, `nullable` is only cleared, examples only grow. */
  predicate FieldWidens(f: Field, g: Field)
  {
    && g.name == f.name
    && (g.fieldType == f.fieldType || g.fieldType == Mixed)
    && (g.nullable ==> f.nullable)
    && |f.examples| <= |g.examples| && g.examples[..|f.examples|] == f.examples
  }

  predicate FieldsWiden(a: seq<Field>, b: seq<Field>)
  {
    |a| <= |b| && forall j :: 0 <= j < |a| ==> FieldWidens(a[j], b[j])
  }

  predicate TableWidens(t: Table, u: Table)
  {
    u.name == t.name && u.primaryKey == t.primaryKey && FieldsWiden(t.fields, u.fields)
  }

  /**
   * What any step of the walk does to the state: tables are only appended
   * or widened (names and primary keys stay), relationships only appended.
   */
  predicate Extends(st: State, st': State)
  {
    && |st.tables| <= |st'.tables|
    && (forall i :: 0 <= i < |st.tables| ==> TableWidens(st.tables[i], st'.tables[i]))
    && |st.relationships| <= |st'.relationships|
    && st'.relationships[..|st.relationships|] == st.relationships
  }

  lemma FieldWidensTransitive(f: Field, g: Field, h: Field)
    requires FieldWidens(f, g) && FieldWidens(g, h)
    ensures FieldWidens(f, h)
  {
    assert h.examples[..|f.examples|] == h.examples[..|g.examples|][..|f.examples|];
  }

  lemma FieldsWidenTransitive(a: seq<Field>, b: seq<Field>, c: seq<Field>)
    requires FieldsWiden(a, b) && FieldsWiden(b, c)
    ensures FieldsWiden(a, c)
  {
    forall j | 0 <= j < |a| ensures FieldWidens(a[j], c[j]) {
      FieldWidensTransitive(a[j], b[j], c[j]);
    }
  }

  lemma FieldsWidenReflexive(a: seq<Field>)
    ensures FieldsWiden(a, a)
  {
    forall j | 0 <= j < |a| ensures FieldWidens(a[j], a[j]) {
      assert a[j].examples[..|a[j].examples|] == a[j].examples;
    }
  }

  lemma ExtendsTransitive(a: State, b: State, c: State)
    requires Extends(a, b) && Extends(b, c)
    ensures Extends(a, c)
  {
    forall i | 0 <= i < |a.tables| ensures TableWidens(a.tables[i], c.tables[i]) {
      FieldsWidenTransitive(a.tables[i].fields, b.tables[i].fields, c.tables[i].fields);
    }
    assert c.relationships[..|a.relationships|] == c.relationships[..|b.relationships|][..|a.relationships|];
  }

  lemma ExtendsReflexive(st: State)
    ensures Extends(st, st)
  {
    forall i | 0 <= i < |st.tables| ensures TableWidens(st.tables[i], st.tables[i]) {
      FieldsWidenReflexive(st.tables[i].fields);
    }
  }

  /** Appending a table extends the state, and keeps it valid when the table's fields are. */
  lemma AppendTable(st: State, t: Table)
    ensures Extends(st, st.(tables := st.tables + [t]))
    ensures Valid(st) && FieldsValid(t.fields) ==> Valid(st.(tables := st.tables + [t]))
  {
    ExtendsReflexive(st);
  }

  // ---------------------------------------------------------------------
  // Relationships

  /**
   * `addRelationship`: records the edge unless the same ordered pair is
   * already present; its reported type is derived from the edges before it.
   */
  function AddRelationship(st: State, parent: string, child: string, base: RelationshipKind): (r: State)
    ensures r.tables == st.tables
    ensures HasPair(st.relationships, parent, child) ==> r == st
    ensures !HasPair(st.relationships, parent, child) ==>
      r.relationships == st.relationships
        + [Relationship(parent, child, base, parent + "_id",
                        DetermineRelationshipType(base, st.relationships, parent, child))]
  {
    if HasPair(st.relationships, parent, child) then st
    else
      var rel := Relationship(parent, child, base, parent + "_id",
                              DetermineRelationshipType(base, st.relationships, parent, child));
      st.(relationships := st.relationships + [rel])
  }

  /** Adding a relationship keeps pairs unique and never touches existing entries. */
  lemma AddRelationshipPreserves(st: State, parent: string, child: string, base: RelationshipKind)
    ensures var r := AddRelationship(st, parent, child, base);
      Extends(st, r) && (Valid(st) ==> Valid(r)) && HasPair(r.relationships, parent, child)
  {
    ExtendsReflexive(st);
    if !HasPair(st.relationships, parent, child) {
      var rel := Relationship(parent, child, base, parent + "_id",
                              DetermineRelationshipType(base, st.relationships, parent, child));
      AppendRelationshipExtends(st, rel);
      if RelationshipsValid(st.relationships) {
        AppendRelationshipValid(st.relationships, rel);
      }
    }
  }

  lemma AppendRelationshipExtends(st: State, rel: Relationship)
    ensures var r := st.(relationships := st.relationships + [rel]);
      Extends(st, r) && HasPair(r.relationships, rel.parentTable, rel.childTable)
  {
    var rs := st.relationships + [rel];
    assert rs[..|st.relationships|] == st.relationships;
    assert rs[|st.relationships|] in rs;
    ExtendsReflexive(st);
  }

  lemma AppendRelationshipValid(rels: seq<Relationship>, rel: Relationship)
    requires RelationshipsValid(rels) && !HasPair(rels, rel.parentTable, rel.childTable)
    requires rel.foreignKey == rel.parentTable + "_id"
    requires rel.relationshipType == DetermineRelationshipType(rel.kind, rels, rel.parentTable, rel.childTable)
    ensures RelationshipsValid(rels + [rel])
  {
    var rs := rels + [rel];
    var n := |rels|;
    assert rs[..n] == rels;
    forall i | 0 <= i < |rs|
      ensures rs[i].relationshipType
        == DetermineRelationshipType(rs[i].kind, rs[..i], rs[i].parentTable, rs[i].childTable)
    {
      if i < n { assert rs[..i] == rels[..i]; }
    }
    forall i, j | 0 <= i < j < |rs|
      ensures (rs[i].parentTable, rs[i].childTable) != (rs[j].parentTable, rs[j].childTable)
    {
      if j == n { assert rs[i] in rels; }
    }
  }

  /**
   * Only the newer edge of a reverse pair is promoted: after `A -> B` and
   * then `B -> A`, both one-to-many, the first stays one-to-many and the
   * second is reported as many-to-many.
   */
  lemma PromotionIsOneSided(st: State, a: string, b: string)
    requires a != b
    requires !HasPair(st.relationships, a, b) && !HasPair(st.relationships, b, a)
    ensures var s1 := AddRelationship(st, a, b, OneToMany);
            var s2 := AddRelationship(s1, b, a, OneToMany);
            && |s2.relationships| == |st.relationships| + 2
            && s2.relationships[|st.relationships|].relationshipType == OneToMany
            && s2.relationships[|st.relationships| + 1].relationshipType == ManyToMany
  {
    var s1 := AddRelationship(st, a, b, OneToMany);
    var last := s1.relationships[|st.relationships|];
    assert last in s1.relationships;
    assert !HasPair(s1.relationships, b, a) by {
      forall r | r in s1.relationships ensures !(r.parentTable == b && r.childTable == a) {
        if r != last { assert r in st.relationships; }
      }
    }
  }

  // ---------------------------------------------------------------------
  // Field merging

  /**
   * The loop of `mergeFieldsFromObject` over the entries from index `i`:
   * a sample whose sanitised key names an existing field widens it, any
   * other sample appends a fresh field.
   */
  function MergeEntries(host: Host, fields: seq<Field>, entries: seq<(string, Value)>, i: nat): (r: seq<Field>)
    requires i <= |entries|
    ensures |fields| <= |r|
    decreases |entries| - i
  {
    if i == |entries| then fields
    else MergeEntries(host, MergeEntry(host, fields, entries[i].0, entries[i].1), entries, i + 1)
  }

  /**
   * One entry of that loop: the first field with the sanitised key is
   * widened by the sample and every other field stays; without such a
   * field, the one `analyzeField` builds is appended.
   */
  function MergeEntry(host: Host, fields: seq<Field>, key: string, value: Value): (r: seq<Field>)
    ensures |fields| <= |r| <= |fields| + 1
    ensures HasField(fields, SanitizeFieldName(key)) ==> |r| == |fields|
    ensures FindField(fields, SanitizeFieldName(key)).Some? ==>
      && |r| == |fields|
      && r[FindField(fields, SanitizeFieldName(key)).value]
         == MergeField(host, fields[FindField(fields, SanitizeFieldName(key)).value], value)
      && forall k :: 0 <= k < |fields| && k != FindField(fields, SanitizeFieldName(key)).value ==> r[k] == fields[k]
    ensures !HasField(fields, SanitizeFieldName(key)) ==>
      |r| == |fields| + 1 && r[..|fields|] == fields && r[|fields|] == AnalyzeField(host, key, value)
      && (r[|fields|].nullable <==> value.Null?)
  {
    match FindField(fields, SanitizeFieldName(key))
    case Some(j) => fields[j := MergeField(host, fields[j], value)]
    case None => fields + [AnalyzeField(host, key, value)]
  }

  /** Some field carries the name `name`. */
  predicate HasField(fields: seq<Field>, name: string)
  {
    exists j :: 0 <= j < |fields| && fields[j].name == name
  }

  lemma WidenKeepsField(a: seq<Field>, b: seq<Field>, name: string)
    requires FieldsWiden(a, b) && HasField(a, name)
    ensures HasField(b, name)
  {
    var j :| 0 <= j < |a| && a[j].name == name;
    assert b[j].name == name;
  }

  lemma MergeEntryWidens(host: Host, fields: seq<Field>, key: string, value: Value)
    ensures var r := MergeEntry(host, fields, key, value);
      && FieldsWiden(fields, r)
      && (FieldsValid(fields) ==> FieldsValid(r))
      && HasField(r, SanitizeFieldName(key))
  {
    var r := MergeEntry(host, fields, key, value);
    var found := FindField(fields, SanitizeFieldName(key));
    if found.Some? {
      MergeExistingWidens(host, fields, found.value, value);
      assert r[found.value].name == SanitizeFieldName(key);
    } else {
      FieldsWidenReflexive(fields);
      assert r[|fields|].name == SanitizeFieldName(key);
    }
  }

  /** Widening the field at `j` in place widens the whole list and keeps it valid. */
  lemma MergeExistingWidens(host: Host, fields: seq<Field>, j: nat, value: Value)
    requires j < |fields|
    ensures FieldsWiden(fields, fields[j := MergeField(host, fields[j], value)])
    ensures FieldsValid(fields) ==> FieldsValid(fields[j := MergeField(host, fields[j], value)])
  {
    var g := MergeField(host, fields[j], value);
    var r := fields[j := g];
    MergeFieldType(host, fields[j], value);
    MergeFieldNullable(host, fields[j], value);
    assert FieldWidens(fields[j], g) by {
      assert g.examples[..|fields[j].examples|] == fields[j].examples;
    }
    forall k | 0 <= k < |fields| ensures FieldWidens(fields[k], r[k]) {
      if k != j { assert fields[k].examples[..|fields[k].examples|] == fields[k].examples; }
    }
  }

  /** Merging a sample only widens the fields and keeps every field valid. */
  lemma {:induction false} MergeEntriesWidens(host: Host, fields: seq<Field>, entries: seq<(string, Value)>, i: nat)
    requires i <= |entries|
    ensures FieldsWiden(fields, MergeEntries(host, fields, entries, i))
    ensures FieldsValid(fields) ==> FieldsValid(MergeEntries(host, fields, entries, i))
    decreases |entries| - i
  {
    if i == |entries| {
      FieldsWidenReflexive(fields);
    } else {
      var next := MergeEntry(host, fields, entries[i].0, entries[i].1);
      MergeEntryWidens(host, fields, entries[i].0, entries[i].1);
      MergeEntriesWidens(host, next, entries, i + 1);
      FieldsWidenTransitive(fields, next, MergeEntries(host, next, entries, i + 1));
    }
  }

  /** After merging a sample, every sanitised key of the sample names a field. */
  lemma {:induction false} MergeEntriesNames(host: Host, fields: seq<Field>, entries: seq<(string, Value)>, i: nat, k: nat)
    requires i <= k < |entries|
    ensures HasField(MergeEntries(host, fields, entries, i), SanitizeFieldName(entries[k].0))
    decreases |entries| - i
  {
    var next := MergeEntry(host, fields, entries[i].0, entries[i].1);
    if k == i {
      MergeEntryWidens(host, fields, entries[i].0, entries[i].1);
      MergeEntriesWidens(host, next, entries, i + 1);
      WidenKeepsField(next, MergeEntries(host, next, entries, i + 1), SanitizeFieldName(entries[i].0));
    } else {
      MergeEntriesNames(host, next, entries, i + 1, k);
    }
  }

  /**
   * `mergeFieldsFromObject`: nothing happens when no table has the name;
   * otherwise the first table with it is widened by every entry of the
   * sample, and a null sample throws.
   */
  function MergeFieldsFromObject(host: Host, obj: Value, name: string, st: State): (r: Result<State>)
    ensures !HasTable(st.tables, name) ==> r == Success(st)
    ensures r.Failure? <==> HasTable(st.tables, name) && obj.Null?
    ensures r.Failure? ==> r.error == NullToObjectError
    ensures r.Success? ==> |r.value.tables| == |st.tables| && r.value.relationships == st.relationships
  {
    match FindTable(st.tables, name)
    case None => Success(st)
    case Some(t) =>
      match Entries(obj)
      case Failure(e) => Failure(e)
      case Success(entries) =>
        var table := st.tables[t];
        Success(st.(tables := st.tables[t := table.(fields := MergeEntries(host, table.fields, entries, 0))]))
  }

  /**
   * A successful merge into an existing table changes that table only (the
   * first with the name): it keeps its name and primary key, and its
   * fields become those of the entry loop over the sample.
   */
  lemma MergeChangesOneTable(host: Host, obj: Value, name: string, st: State, t: nat)
    requires FindTable(st.tables, name) == Some(t)
    requires MergeFieldsFromObject(host, obj, name, st).Success?
    ensures Entries(obj).Success?
    ensures MergeFieldsFromObject(host, obj, name, st).value.tables[t].name == name
    ensures MergeFieldsFromObject(host, obj, name, st).value.tables[t].primaryKey == st.tables[t].primaryKey
    ensures MergeFieldsFromObject(host, obj, name, st).value.tables[t].fields
      == MergeEntries(host, st.tables[t].fields, Entries(obj).value, 0)
    ensures forall k :: 0 <= k < |st.tables| && k != t ==>
      MergeFieldsFromObject(host, obj, name, st).value.tables[k] == st.tables[k]
  {
  }

  lemma MergeFieldsPreserves(host: Host, obj: Value, name: string, st: State)
    ensures MergeFieldsFromObject(host, obj, name, st).Success? ==>
      && Extends(st, MergeFieldsFromObject(host, obj, name, st).value)
      && (Valid(st) ==> Valid(MergeFieldsFromObject(host, obj, name, st).value))
  {
    MergeFieldsExtends(host, obj, name, st);
    MergeFieldsValid(host, obj, name, st);
  }

  lemma MergeFieldsExtends(host: Host, obj: Value, name: string, st: State)
    ensures MergeFieldsFromObject(host, obj, name, st).Success? ==>
      Extends(st, MergeFieldsFromObject(host, obj, name, st).value)
  {
    ExtendsReflexive(st);
    var r := MergeFieldsFromObject(host, obj, name, st);
    if r.Success? && HasTable(st.tables, name) {
      var t := FindTable(st.tables, name).value;
      var entries := Entries(obj).value;
      MergeEntriesWidens(host, st.tables[t].fields, entries, 0);
    }
  }

  lemma MergeFieldsValid(host: Host, obj: Value, name: string, st: State)
    ensures MergeFieldsFromObject(host, obj, name, st).Success? && Valid(st) ==>
      Valid(MergeFieldsFromObject(host, obj, name, st).value)
  {
    var r := MergeFieldsFromObject(host, obj, name, st);
    if r.Success? && HasTable(st.tables, name) {
      var t := FindTable(st.tables, name).value;
      var entries := Entries(obj).value;
      MergeEntriesWidens(host, st.tables[t].fields, entries, 0);
    }
  }

  /**
   * A merged sample: the table named `name` afterwards has a field for
   * every sanitised key of the sample (fields first seen in later samples
   * are added).
   */
  lemma MergeAddsEveryKey(host: Host, obj: Value, name: string, st: State, k: nat)
    requires HasTable(st.tables, name) && obj.Obj? && k < |obj.entries|
    ensures var r := MergeFieldsFromObject(host, obj, name, st);
      var t := FindTable(st.tables, name).value;
      HasField(r.value.tables[t].fields, SanitizeFieldName(obj.entries[k].0))
  {
    var t := FindTable(st.tables, name).value;
    MergeEntriesNames(host, st.tables[t].fields, obj.entries, 0, k);
  }

  /**
   * A later sample `{key: value}` whose sanitised key names field `j` of the
   * table: that field becomes `MergeField` of the sample (so it turns
   * `mixed`, loses `nullable`, gains an example below five, widens its
   * `maxLength`, as `MergeField`'s lemmas state), and the table keeps every
   * other field.
   */
  lemma MergeSingleEntry(host: Host, key: string, value: Value, name: string, st: State, t: nat, j: nat)
    requires FindTable(st.tables, name) == Some(t)
    requires FindField(st.tables[t].fields, SanitizeFieldName(key)) == Some(j)
    ensures MergeFieldsFromObject(host, Obj([(key, value)]), name, st).Success?
    ensures MergeFieldsFromObject(host, Obj([(key, value)]), name, st).value.tables[t].fields
      == st.tables[t].fields[j := MergeField(host, st.tables[t].fields[j], value)]
  {
    var fields := st.tables[t].fields;
    var entries := [(key, value)];
    var merged := MergeEntry(host, fields, key, value);
    MergeChangesOneTable(host, Obj(entries), name, st, t);
    assert MergeEntries(host, fields, entries, 0) == MergeEntries(host, merged, entries, 1) == merged;
    assert merged == fields[j := MergeField(host, fields[j], value)];
  }

  /** The merge loop of `processJSONObject`/`processXMLObject`: samples `i` up to `end`. */
  function MergeSamples(host: Host, items: seq<Value>, i: nat, end: nat, name: string, st: State): (r: Result<State>)
    requires i <= end <= |items|
    ensures r.Failure? ==> r.error == NullToObjectError
    ensures r.Success? ==> |r.value.tables| == |st.tables| && r.value.relationships == st.relationships
    decreases end - i
  {
    if i == end then Success(st)
    else
      match MergeFieldsFromObject(host, items[i], name, st)
      case Failure(e) => Failure(e)
      case Success(s) => MergeSamples(host, items, i + 1, end, name, s)
  }

  lemma MergeSamplesPreserves(host: Host, items: seq<Value>, i: nat, end: nat, name: string, st: State)
    requires i <= end <= |items|
    ensures var r := MergeSamples(host, items, i, end, name, st);
      r.Success? ==> Extends(st, r.value) && (Valid(st) ==> Valid(r.value))
  {
    MergeSamplesExtends(host, items, i, end, name, st);
    if Valid(st) {
      MergeSamplesValid(host, items, i, end, name, st);
    }
  }

  lemma {:induction false} MergeSamplesExtends(host: Host, items: seq<Value>, i: nat, end: nat, name: string, st: State)
    requires i <= end <= |items|
    ensures MergeSamples(host, items, i, end, name, st).Success? ==>
      Extends(st, MergeSamples(host, items, i, end, name, st).value)
    decreases end - i
  {
    if i == end {
      ExtendsReflexive(st);
    } else {
      var m := MergeFieldsFromObject(host, items[i], name, st);
      if m.Success? {
        var r := MergeSamples(host, items, i + 1, end, name, m.value);
        assert MergeSamples(host, items, i, end, name, st) == r;
        if r.Success? {
          MergeFieldsExtends(host, items[i], name, st);
          MergeSamplesExtends(host, items, i + 1, end, name, m.value);
          ExtendsTransitive(st, m.value, r.value);
        }
      } else {
        assert MergeSamples(host, items, i, end, name, st).Failure?;
      }
    }
  }

  lemma {:induction false} MergeSamplesValid(host: Host, items: seq<Value>, i: nat, end: nat, name: string, st: State)
    requires i <= end <= |items| && Valid(st)
    ensures MergeSamples(host, items, i, end, name, st).Success? ==>
      Valid(MergeSamples(host, items, i, end, name, st).value)
    decreases end - i
  {
    if i < end {
      var m := MergeFieldsFromObject(host, items[i], name, st);
      if m.Success? {
        assert MergeSamples(host, items, i, end, name, st) == MergeSamples(host, items, i + 1, end, name, m.value);
        MergeFieldsValid(host, items[i], name, st);
        MergeSamplesValid(host, items, i + 1, end, name, m.value);
      } else {
        assert MergeSamples(host, items, i, end, name, st).Failure?;
      }
    }
  }

  /** Merging depends on the samples up to `end` only. */
  lemma {:induction false} MergeSamplesPrefix(host: Host, items: seq<Value>, i: nat, end: nat, name: string, st: State)
    requires i <= end <= |items|
    ensures MergeSamples(host, items, i, end, name, st) == MergeSamples(host, items[..end], i, end, name, st)
    decreases end - i
  {
    if i < end {
      assert items[..end][i] == items[i];
      MergeSamplesStep(host, items, i, end, name, st);
      MergeSamplesStep(host, items[..end], i, end, name, st);
      var m := MergeFieldsFromObject(host, items[i], name, st);
      if m.Success? { MergeSamplesPrefix(host, items, i + 1, end, name, m.value); }
    }
  }

  /** One sample of that loop: merged, then the rest from the merged state. */
  lemma MergeSamplesStep(host: Host, items: seq<Value>, i: nat, end: nat, name: string, st: State)
    requires i < end <= |items|
    ensures var m := MergeFieldsFromObject(host, items[i], name, st);
      MergeSamples(host, items, i, end, name, st)
      == if m.Failure? then Failure(m.error) else MergeSamples(host, items, i + 1, end, name, m.value)
  {
  }

  /** Only the first ten elements of an array are ever looked at. */
  function SampleEnd(items: seq<Value>): (n: nat)
    ensures n <= |items| && n <= 10
    ensures n == |items| || n == 10
  {
    if |items| < 10 then |items| else 10
  }

  // ---------------------------------------------------------------------
  // The JSON walk

  /** The key of the `i`-th entry, as `Object.entries` gives it. */
  function EntryKey(obj: Value, i: nat): string
    requires IsContainer(obj) && i < ChildCount(obj)
  {
    if obj.Obj? then obj.entries[i].0 else NatToString(i)
  }

  function KeysOf(obj: Value): (r: seq<string>)
    requires IsContainer(obj)
    ensures |r| == ChildCount(obj)
    ensures forall i :: 0 <= i < |r| ==> r[i] == EntryKey(obj, i)
  {
    seq(ChildCount(obj), i requires 0 <= i < ChildCount(obj) => EntryKey(obj, i))
  }

  /** The fields a JSON table gets: one per entry, in entry order. */
  function JsonFields(host: Host, obj: Value): (r: seq<Field>)
    requires IsContainer(obj)
    ensures |r| == ChildCount(obj)
    ensures forall k :: 0 <= k < |r| ==> r[k] == AnalyzeField(host, EntryKey(obj, k), Child(obj, k))
  {
    seq(ChildCount(obj), k requires 0 <= k < ChildCount(obj) => AnalyzeField(host, EntryKey(obj, k), Child(obj, k)))
  }

  lemma JsonFieldsStep(host: Host, obj: Value, i: nat, fields: seq<Field>)
    requires IsContainer(obj) && i < ChildCount(obj)
    ensures fields + [AnalyzeField(host, EntryKey(obj, i), Child(obj, i))] + JsonFields(host, obj)[i + 1..]
      == fields + JsonFields(host, obj)[i..]
  {
    var fs := JsonFields(host, obj);
    var x := fs[i];
    assert x == AnalyzeField(host, EntryKey(obj, i), Child(obj, i));
    assert fs[i..] == [x] + fs[i + 1..];
    assert fields + [x] + fs[i + 1..] == fields + ([x] + fs[i + 1..]);
  }

  /**
   * `processJSONObject`: primitives and null are ignored; a non-empty array
   * builds its table from element 0 (when that is null or a non-array
   * object) and merges elements 1 to 9; an object or empty array builds a
   * table from itself.
   */
  function ProcessJson(host: Host, v: Value, name: string, st: State): (r: Result<State>)
    ensures !IsContainer(v) ==> r == Success(st)
    ensures v.Arr? && |v.items| > 0 && !(v.items[0].Null? || v.items[0].Obj?) ==> r == Success(st)
    ensures r.Failure? ==> r.error == NullToObjectError
    decreases v, 2
  {
    if !IsContainer(v) then Success(st)
    else if v.Arr? && |v.items| > 0 then
      var sample := v.items[0];
      if sample.Null? || sample.Obj? then
        match CreateTableJson(host, sample, name, st)
        case Failure(e) => Failure(e)
        case Success(s) => MergeSamples(host, v.items, 1, SampleEnd(v.items), name, s)
      else Success(st)
    else CreateTableJson(host, v, name, st)
  }

  /**
   * `createTableFromObject`: a no-op when a table of that name exists;
   * otherwise the nested values are walked first and the new table, with
   * one field per entry, is appended after every table they created.
   */
  function CreateTableJson(host: Host, obj: Value, name: string, st: State): (r: Result<State>)
    requires IsObjectTyped(obj)
    ensures HasTable(st.tables, name) ==> r == Success(st)
    ensures !HasTable(st.tables, name) && obj.Null? ==> r == Failure(NullToObjectError)
    ensures r.Failure? ==> r.error == NullToObjectError
    ensures r.Success? && !HasTable(st.tables, name) ==>
      |r.value.tables| > 0 && r.value.tables[|r.value.tables| - 1].name == name
    decreases obj, 1
  {
    if HasTable(st.tables, name) then Success(st)
    else if obj.Null? then Failure(NullToObjectError)
    else
      var pk := GuessPrimaryKey(KeysOf(obj));
      match JsonEntries(host, obj, 0, name, st, [])
      case Failure(e) => Failure(e)
      case Success((s, fields)) => Success(s.(tables := s.tables + [Table(name, fields, pk)]))
  }

  /** The loop of `createTableFromObject` from entry `i` on, with the fields gathered so far. */
  function JsonEntries(host: Host, obj: Value, i: nat, name: string, st: State, fields: seq<Field>)
    : (r: Result<(State, seq<Field>)>)
    requires IsContainer(obj) && i <= ChildCount(obj)
    ensures r.Failure? ==> r.error == NullToObjectError
    decreases obj, 0, ChildCount(obj) - i
  {
    if i == ChildCount(obj) then Success((st, fields))
    else
      var key := EntryKey(obj, i);
      var value := Child(obj, i);
      match JsonChild(host, key, value, name, st)
      case Failure(e) => Failure(e)
      case Success(s) => JsonEntries(host, obj, i + 1, name, s, fields + [AnalyzeField(host, key, value)])
  }

  /** `createTableFromObject` for a new table: the entry loop, then the append. */
  lemma CreateTableJsonUnfold(host: Host, obj: Value, name: string, st: State)
    requires obj.Obj? || obj.Arr?
    requires !HasTable(st.tables, name)
    ensures var e := JsonEntries(host, obj, 0, name, st, []);
      CreateTableJson(host, obj, name, st)
      == if e.Failure? then Failure(e.error)
         else Success(e.value.0.(tables := e.value.0.tables + [Table(name, e.value.1, GuessPrimaryKey(KeysOf(obj)))]))
  {
  }

  /** One turn of the entry loop of `createTableFromObject`. */
  lemma JsonEntriesStep(host: Host, obj: Value, i: nat, name: string, st: State, fields: seq<Field>)
    requires IsContainer(obj) && i < ChildCount(obj)
    ensures var c := JsonChild(host, EntryKey(obj, i), Child(obj, i), name, st);
      JsonEntries(host, obj, i, name, st, fields)
      == if c.Failure? then Failure(c.error)
         else JsonEntries(host, obj, i + 1, name, c.value, fields + [AnalyzeField(host, EntryKey(obj, i), Child(obj, i))])
  {
  }

  /** A new JSON table has one field per entry, in entry order, and the guessed primary key. */
  lemma CreateTableJsonFields(host: Host, obj: Value, name: string, st: State)
    requires IsObjectTyped(obj)
    ensures var r := CreateTableJson(host, obj, name, st);
      r.Success? && !HasTable(st.tables, name) ==>
        r.value.tables[|r.value.tables| - 1] == Table(name, JsonFields(host, obj), GuessPrimaryKey(KeysOf(obj)))
  {
    if !HasTable(st.tables, name) && !obj.Null? {
      JsonEntriesFields(host, obj, 0, name, st, []);
    }
  }

  /** The loop gathers exactly one field per remaining entry, in entry order. */
  lemma {:induction false} JsonEntriesFields(host: Host, obj: Value, i: nat, name: string, st: State, fields: seq<Field>)
    requires IsContainer(obj) && i <= ChildCount(obj)
    ensures var r := JsonEntries(host, obj, i, name, st, fields);
      r.Success? ==> r.value.1 == fields + JsonFields(host, obj)[i..]
    decreases ChildCount(obj) - i
  {
    if i < ChildCount(obj) {
      var key := EntryKey(obj, i);
      var value := Child(obj, i);
      var c := JsonChild(host, key, value, name, st);
      if c.Success? {
        JsonEntriesFields(host, obj, i + 1, name, c.value, fields + [AnalyzeField(host, key, value)]);
        JsonFieldsStep(host, obj, i, fields);
      }
    } else {
      assert JsonFields(host, obj)[i..] == [];
    }
  }

  /**
   * The recursion of `createTableFromObject` for one entry: an array whose
   * element 0 is object-typed is walked under the singular of the key and
   * gives a one-to-many edge; an object is walked under the key itself and
   * gives a one-to-one edge. The edge is recorded even when the walk
   * built no table.
   */
  function JsonChild(host: Host, key: string, value: Value, name: string, st: State): (r: Result<State>)
    ensures r.Failure? ==> r.error == NullToObjectError
    ensures !IsContainer(value) ==> r == Success(st)
    ensures value.Arr? && |value.items| > 0 && value.items[0].Arr? ==>
      r == Success(AddRelationship(st, name, PluralToSingular(key), OneToMany))
    decreases value, 3
  {
    if value.Arr? && |value.items| > 0 && IsObjectTyped(value.items[0]) then
      var child := PluralToSingular(key);
      match ProcessJson(host, value, child, st)
      case Failure(e) => Failure(e)
      case Success(s) => Success(AddRelationship(s, name, child, OneToMany))
    else if value.Obj? then
      match ProcessJson(host, value, key, st)
      case Failure(e) => Failure(e)
      case Success(s) => Success(AddRelationship(s, name, key, OneToOne))
    else Success(st)
  }

  /**
   * A walked entry always records its edge: under the singular of the key
   * for an array whose element 0 is object-typed, under the key for an
   * object, whether or not a child table was built.
   */
  lemma JsonChildRecordsEdge(host: Host, key: string, value: Value, name: string, st: State)
    ensures var r := JsonChild(host, key, value, name, st);
      && (r.Success? && value.Arr? && |value.items| > 0 && IsObjectTyped(value.items[0]) ==>
            HasPair(r.value.relationships, name, PluralToSingular(key)))
      && (r.Success? && value.Obj? ==> HasPair(r.value.relationships, name, key))
  {
    var child := if value.Arr? then PluralToSingular(key) else key;
    var kind := if value.Arr? then OneToMany else OneToOne;
    var p := ProcessJson(host, value, child, st);
    if p.Success? { AddRelationshipPreserves(p.value, name, child, kind); }
  }

  /** The JSON walk keeps the state valid and only ever extends it. */
  lemma {:induction false} ProcessJsonPreserves(host: Host, v: Value, name: string, st: State)
    ensures var r := ProcessJson(host, v, name, st);
      r.Success? ==> Extends(st, r.value) && (Valid(st) ==> Valid(r.value))
    decreases v, 2
  {
    ExtendsReflexive(st);
    if IsContainer(v) {
      if v.Arr? && |v.items| > 0 {
        var sample := v.items[0];
        if sample.Null? || sample.Obj? {
          CreateTableJsonPreserves(host, sample, name, st);
          var c := CreateTableJson(host, sample, name, st);
          if c.Success? {
            MergeSamplesPreserves(host, v.items, 1, SampleEnd(v.items), name, c.value);
            var r := MergeSamples(host, v.items, 1, SampleEnd(v.items), name, c.value);
            if r.Success? { ExtendsTransitive(st, c.value, r.value); }
          }
        }
      } else {
        CreateTableJsonPreserves(host, v, name, st);
      }
    }
  }

  lemma {:induction false} CreateTableJsonPreserves(host: Host, obj: Value, name: string, st: State)
    requires IsObjectTyped(obj)
    ensures var r := CreateTableJson(host, obj, name, st);
      r.Success? ==> Extends(st, r.value) && (Valid(st) ==> Valid(r.value))
    decreases obj, 1
  {
    ExtendsReflexive(st);
    if !HasTable(st.tables, name) && !obj.Null? {
      FieldsValidEmpty();
      JsonEntriesPreserves(host, obj, 0, name, st, []);
      var e := JsonEntries(host, obj, 0, name, st, []);
      if e.Success? {
        var t := Table(name, e.value.1, GuessPrimaryKey(KeysOf(obj)));
        AppendTable(e.value.0, t);
        ExtendsTransitive(st, e.value.0, e.value.0.(tables := e.value.0.tables + [t]));
      }
    }
  }

  lemma FieldsValidEmpty()
    ensures FieldsValid([])
  {
  }

  lemma {:induction false} JsonEntriesPreserves(host: Host, obj: Value, i: nat, name: string, st: State, fields: seq<Field>)
    requires IsContainer(obj) && i <= ChildCount(obj)
    ensures var r := JsonEntries(host, obj, i, name, st, fields);
      r.Success? ==> (Extends(st, r.value.0)
        && (Valid(st) && FieldsValid(fields) ==> Valid(r.value.0) && FieldsValid(r.value.1)))
    decreases obj, 0, ChildCount(obj) - i
  {
    ExtendsReflexive(st);
    if i < ChildCount(obj) {
      var key := EntryKey(obj, i);
      var value := Child(obj, i);
      JsonChildPreserves(host, key, value, name, st);
      var c := JsonChild(host, key, value, name, st);
      if c.Success? {
        var fields' := fields + [AnalyzeField(host, key, value)];
        JsonEntriesPreserves(host, obj, i + 1, name, c.value, fields');
        var r := JsonEntries(host, obj, i + 1, name, c.value, fields');
        if r.Success? { ExtendsTransitive(st, c.value, r.value.0); }
      }
    }
  }

  lemma {:induction false} JsonChildPreserves(host: Host, key: string, value: Value, name: string, st: State)
    ensures var r := JsonChild(host, key, value, name, st);
      r.Success? ==> Extends(st, r.value) && (Valid(st) ==> Valid(r.value))
    decreases value, 3
  {
    ExtendsReflexive(st);
    var child := if value.Arr? then PluralToSingular(key) else key;
    var kind := if value.Arr? then OneToMany else OneToOne;
    if (value.Arr? && |value.items| > 0 && IsObjectTyped(value.items[0])) || value.Obj? {
      ProcessJsonPreserves(host, value, child, st);
      var p := ProcessJson(host, value, child, st);
      if p.Success? {
        AddRelationshipPreserves(p.value, name, child, kind);
        ExtendsTransitive(st, p.value, AddRelationship(p.value, name, child, kind));
      }
    }
  }

  /** Elements of an array at index 10 or later have no effect on the JSON walk. */
  lemma SamplingCapJson(host: Host, items: seq<Value>, name: string, st: State)
    requires |items| > 10
    ensures ProcessJson(host, Arr(items), name, st) == ProcessJson(host, Arr(items[..10]), name, st)
  {
    var sample := items[0];
    assert items[..10][0] == sample;
    if sample.Null? || sample.Obj? {
      var c := CreateTableJson(host, sample, name, st);
      if c.Success? { MergeSamplesPrefix(host, items, 1, 10, name, c.value); }
    }
  }

  // ---------------------------------------------------------------------
  // The XML walk

  /** The fields of an `@attributes` object: one per attribute, flagged as such. */
  function AttributeFields(host: Host, attrs: seq<(string, Value)>): (r: seq<Field>)
    ensures |r| == |attrs|
    ensures forall k :: 0 <= k < |r| ==> r[k] == AnalyzeField(host, attrs[k].0, attrs[k].1).(isAttribute := true)
  {
    seq(|attrs|, k requires 0 <= k < |attrs| => AnalyzeField(host, attrs[k].0, attrs[k].1).(isAttribute := true))
  }

  /**
   * The fields one entry contributes to an XML table: every attribute of
   * `@attributes`, a `content` field for `#text`, one field for a scalar
   * (null included), none for an array or object.
   */
  function XmlEntryFields(host: Host, key: string, value: Value): (r: Result<seq<Field>>)
    ensures r.Failure? <==> key == "@attributes" && value.Null?
    ensures r.Failure? ==> r.error == NullToObjectError
  {
    if key == "@attributes" then
      match Entries(value)
      case Failure(e) => Failure(e)
      case Success(attrs) => Success(AttributeFields(host, attrs))
    else if key == "#text" then Success([AnalyzeField(host, "content", value).(isTextContent := true)])
    else if IsContainer(value) then Success([])
    else Success([AnalyzeField(host, key, value)])
  }

  /** The fields an entry contributes are valid, whatever the entry. */
  lemma XmlEntryFieldsValid(host: Host, key: string, value: Value)
    ensures var r := XmlEntryFields(host, key, value);
      r.Success? ==> FieldsValid(r.value)
  {
    if key == "@attributes" {
      if !value.Null? {
        AttributeFieldsShape(host, Entries(value).value);
      }
    } else if key == "#text" || !IsContainer(value) {
      XmlOtherEntryShape(host, key, value);
    }
  }

  /** `@attributes` contributes one field per attribute, each flagged as an attribute and not as text. */
  lemma XmlAttributesEntryShape(host: Host, value: Value)
    requires !value.Null?
    ensures var r := XmlEntryFields(host, "@attributes", value);
      && r.Success? && |r.value| == |Entries(value).value|
      && forall j :: 0 <= j < |r.value| ==> r.value[j].isAttribute && !r.value[j].isTextContent
  {
    AttributeFieldsShape(host, Entries(value).value);
  }

  /** Every attribute field is valid, flagged as an attribute and not as text content. */
  lemma AttributeFieldsShape(host: Host, attrs: seq<(string, Value)>)
    ensures var r := AttributeFields(host, attrs);
      && FieldsValid(r)
      && forall j :: 0 <= j < |r| ==> r[j].isAttribute && !r[j].isTextContent
  {
  }

  /**
   * Any other key contributes no attribute: `#text` one valid `content`
   * field flagged as text, a scalar one valid unflagged field, a nested
   * array or object nothing.
   */
  lemma XmlOtherEntryShape(host: Host, key: string, value: Value)
    requires key != "@attributes"
    ensures var r := XmlEntryFields(host, key, value);
      && r.Success?
      && |r.value| == (if IsContainer(value) && key != "#text" then 0 else 1)
      && FieldsValid(r.value)
      && (key == "#text" ==> r.value[0].name == "content" && r.value[0].isTextContent && !r.value[0].isAttribute)
      && (key != "#text" && |r.value| == 1 ==> !r.value[0].isTextContent && !r.value[0].isAttribute)
  {
    if key == "#text" {
      XmlTextEntryShape(host, value);
    } else if !IsContainer(value) {
      XmlScalarEntryShape(host, key, value);
    }
  }

  lemma XmlTextEntryShape(host: Host, value: Value)
    ensures var r := XmlEntryFields(host, "#text", value);
      && r.Success? && |r.value| == 1 && FieldsValid(r.value)
      && r.value[0].name == "content" && r.value[0].isTextContent && !r.value[0].isAttribute
  {
    var f := AnalyzeField(host, "content", value).(isTextContent := true);
    assert XmlEntryFields(host, "#text", value) == Success([f]);
    SingleFieldValid(f);
    ContentNameClean();
  }

  /** `content` is already a clean field name. */
  lemma ContentNameClean()
    ensures SanitizeFieldName("content") == "content"
  {
    var s := "content";
    var r := SanitizeFieldName(s);
    forall i | 0 <= i < |s|
      ensures r[i] == s[i]
    {
      assert 'a' <= s[i] <= 'z';
    }
  }

  lemma XmlScalarEntryShape(host: Host, key: string, value: Value)
    requires key != "@attributes" && key != "#text" && !IsContainer(value)
    ensures var r := XmlEntryFields(host, key, value);
      && r.Success? && |r.value| == 1 && FieldsValid(r.value)
      && !r.value[0].isTextContent && !r.value[0].isAttribute
  {
    var f := AnalyzeField(host, key, value);
    assert XmlEntryFields(host, key, value) == Success([f]);
    SingleFieldValid(f);
  }

  lemma SingleFieldValid(f: Field)
    requires FieldValid(f)
    ensures FieldsValid([f])
  {
  }

  /** `processXMLObject`: as the JSON walk, but any object-typed element 0 (null and arrays too) builds the table. */
  function ProcessXml(host: Host, v: Value, name: string, st: State): (r: Result<State>)
    ensures !IsContainer(v) ==> r == Success(st)
    ensures v.Arr? && |v.items| > 0 && !IsObjectTyped(v.items[0]) ==> r == Success(st)
    ensures r.Failure? ==> r.error == NullToObjectError
    decreases v, 2
  {
    if !IsContainer(v) then Success(st)
    else if v.Arr? && |v.items| > 0 then
      var sample := v.items[0];
      if IsObjectTyped(sample) then
        match CreateTableXml(host, sample, name, st)
        case Failure(e) => Failure(e)
        case Success(s) => MergeSamples(host, v.items, 1, SampleEnd(v.items), name, s)
      else Success(st)
    else CreateTableXml(host, v, name, st)
  }

  /**
   * `createTableFromXMLObject`: a no-op when the table exists; otherwise
   * the entries are walked and the table is appended after every table
   * they created, with the primary key guessed from the raw keys.
   */
  function CreateTableXml(host: Host, obj: Value, name: string, st: State): (r: Result<State>)
    requires IsObjectTyped(obj)
    ensures HasTable(st.tables, name) ==> r == Success(st)
    ensures !HasTable(st.tables, name) && obj.Null? ==> r == Failure(NullToObjectError)
    ensures r.Failure? ==> r.error == NullToObjectError
    ensures r.Success? && !HasTable(st.tables, name) ==>
      |r.value.tables| > 0
      && r.value.tables[|r.value.tables| - 1].name == name
      && r.value.tables[|r.value.tables| - 1].primaryKey == GuessPrimaryKey(KeysOf(obj))
    decreases obj, 1
  {
    if HasTable(st.tables, name) then Success(st)
    else if obj.Null? then Failure(NullToObjectError)
    else
      match XmlEntries(host, obj, 0, name, st, [])
      case Failure(e) => Failure(e)
      case Success((s, fields)) => Success(s.(tables := s.tables + [Table(name, fields, GuessPrimaryKey(KeysOf(obj)))]))
  }

  /** The loop of `createTableFromXMLObject` from entry `i` on. */
  function XmlEntries(host: Host, obj: Value, i: nat, name: string, st: State, fields: seq<Field>)
    : (r: Result<(State, seq<Field>)>)
    requires IsContainer(obj) && i <= ChildCount(obj)
    ensures r.Failure? ==> r.error == NullToObjectError
    decreases obj, 0, ChildCount(obj) - i
  {
    if i == ChildCount(obj) then Success((st, fields))
    else
      var key := EntryKey(obj, i);
      var value := Child(obj, i);
      match XmlEntryFields(host, key, value)
      case Failure(e) => Failure(e)
      case Success(added) =>
        match XmlChild(host, key, value, name, st)
        case Failure(e) => Failure(e)
        case Success(s) => XmlEntries(host, obj, i + 1, name, s, fields + added)
  }

  /** `createTableFromXMLObject` for a new table: the entry loop, then the append. */
  lemma CreateTableXmlUnfold(host: Host, obj: Value, name: string, st: State)
    requires obj.Obj? || obj.Arr?
    requires !HasTable(st.tables, name)
    ensures var e := XmlEntries(host, obj, 0, name, st, []);
      CreateTableXml(host, obj, name, st)
      == if e.Failure? then Failure(e.error)
         else Success(e.value.0.(tables := e.value.0.tables + [Table(name, e.value.1, GuessPrimaryKey(KeysOf(obj)))]))
  {
  }

  /** One turn of the entry loop of `createTableFromXMLObject`. */
  lemma XmlEntriesStep(host: Host, obj: Value, i: nat, name: string, st: State, fields: seq<Field>)
    requires IsContainer(obj) && i < ChildCount(obj)
    ensures var key := EntryKey(obj, i);
      var value := Child(obj, i);
      var added := XmlEntryFields(host, key, value);
      var c := XmlChild(host, key, value, name, st);
      XmlEntries(host, obj, i, name, st, fields)
      == if added.Failure? then Failure(added.error)
         else if c.Failure? then Failure(c.error)
         else XmlEntries(host, obj, i + 1, name, c.value, fields + added.value)
  {
  }

  /** The recursion of `createTableFromXMLObject` for one entry other than `@attributes` and `#text`. */
  function XmlChild(host: Host, key: string, value: Value, name: string, st: State): (r: Result<State>)
    ensures r.Failure? ==> r.error == NullToObjectError
    ensures key == "@attributes" || key == "#text" || !IsContainer(value) ==> r == Success(st)
    decreases value, 3
  {
    if key == "@attributes" || key == "#text" then Success(st)
    else if value.Arr? then
      var child := PluralToSingular(key);
      match ProcessXml(host, value, child, st)
      case Failure(e) => Failure(e)
      case Success(s) => Success(AddRelationship(s, name, child, OneToMany))
    else if value.Obj? then
      match ProcessXml(host, value, key, st)
      case Failure(e) => Failure(e)
      case Success(s) => Success(AddRelationship(s, name, key, OneToOne))
    else Success(st)
  }

  /** A walked array or object child always records its edge, even when no child table was built. */
  lemma XmlChildRecordsEdge(host: Host, key: string, value: Value, name: string, st: State)
    ensures var r := XmlChild(host, key, value, name, st);
      && (r.Success? && key != "@attributes" && key != "#text" && value.Arr? ==>
            HasPair(r.value.relationships, name, PluralToSingular(key)))
      && (r.Success? && key != "@attributes" && key != "#text" && value.Obj? ==>
            HasPair(r.value.relationships, name, key))
  {
    var child := if value.Arr? then PluralToSingular(key) else key;
    var kind := if value.Arr? then OneToMany else OneToOne;
    var p := ProcessXml(host, value, child, st);
    if p.Success? { AddRelationshipPreserves(p.value, name, child, kind); }
  }

  /** The XML walk keeps the state valid and only ever extends it. */
  lemma {:induction false} ProcessXmlPreserves(host: Host, v: Value, name: string, st: State)
    ensures var r := ProcessXml(host, v, name, st);
      r.Success? ==> Extends(st, r.value) && (Valid(st) ==> Valid(r.value))
    decreases v, 2
  {
    ExtendsReflexive(st);
    if IsContainer(v) {
      if v.Arr? && |v.items| > 0 {
        var sample := v.items[0];
        if IsObjectTyped(sample) {
          CreateTableXmlPreserves(host, sample, name, st);
          var c := CreateTableXml(host, sample, name, st);
          if c.Success? {
            MergeSamplesPreserves(host, v.items, 1, SampleEnd(v.items), name, c.value);
            var r := MergeSamples(host, v.items, 1, SampleEnd(v.items), name, c.value);
            if r.Success? { ExtendsTransitive(st, c.value, r.value); }
          }
        }
      } else {
        CreateTableXmlPreserves(host, v, name, st);
      }
    }
  }

  lemma {:induction false} CreateTableXmlPreserves(host: Host, obj: Value, name: string, st: State)
    requires IsObjectTyped(obj)
    ensures var r := CreateTableXml(host, obj, name, st);
      r.Success? ==> Extends(st, r.value) && (Valid(st) ==> Valid(r.value))
    decreases obj, 1
  {
    ExtendsReflexive(st);
    if !HasTable(st.tables, name) && !obj.Null? {
      FieldsValidEmpty();
      XmlEntriesPreserves(host, obj, 0, name, st, []);
      var e := XmlEntries(host, obj, 0, name, st, []);
      if e.Success? {
        var t := Table(name, e.value.1, GuessPrimaryKey(KeysOf(obj)));
        AppendTable(e.value.0, t);
        ExtendsTransitive(st, e.value.0, e.value.0.(tables := e.value.0.tables + [t]));
      }
    }
  }

  lemma {:induction false} XmlEntriesPreserves(host: Host, obj: Value, i: nat, name: string, st: State, fields: seq<Field>)
    requires IsContainer(obj) && i <= ChildCount(obj)
    ensures var r := XmlEntries(host, obj, i, name, st, fields);
      r.Success? ==> (Extends(st, r.value.0)
        && (Valid(st) && FieldsValid(fields) ==> Valid(r.value.0) && FieldsValid(r.value.1)))
    decreases obj, 0, ChildCount(obj) - i
  {
    ExtendsReflexive(st);
    if i < ChildCount(obj) {
      var key := EntryKey(obj, i);
      var value := Child(obj, i);
      var added := XmlEntryFields(host, key, value);
      XmlEntryFieldsValid(host, key, value);
      if added.Success? {
        XmlChildPreserves(host, key, value, name, st);
        var c := XmlChild(host, key, value, name, st);
        if c.Success? {
          XmlEntriesPreserves(host, obj, i + 1, name, c.value, fields + added.value);
          var r := XmlEntries(host, obj, i + 1, name, c.value, fields + added.value);
          if r.Success? { ExtendsTransitive(st, c.value, r.value.0); }
        }
      }
    }
  }

  lemma {:induction false} XmlChildPreserves(host: Host, key: string, value: Value, name: string, st: State)
    ensures var r := XmlChild(host, key, value, name, st);
      r.Success? ==> Extends(st, r.value) && (Valid(st) ==> Valid(r.value))
    decreases value, 3
  {
    ExtendsReflexive(st);
    if key != "@attributes" && key != "#text" && IsContainer(value) {
      var child := if value.Arr? then PluralToSingular(key) else key;
      var kind := if value.Arr? then OneToMany else OneToOne;
      ProcessXmlPreserves(host, value, child, st);
      var p := ProcessXml(host, value, child, st);
      if p.Success? {
        AddRelationshipPreserves(p.value, name, child, kind);
        ExtendsTransitive(st, p.value, AddRelationship(p.value, name, child, kind));
      }
    }
  }

  /** Elements of an array at index 10 or later have no effect on the XML walk. */
  lemma SamplingCapXml(host: Host, items: seq<Value>, name: string, st: State)
    requires |items| > 10
    ensures ProcessXml(host, Arr(items), name, st) == ProcessXml(host, Arr(items[..10]), name, st)
  {
    var sample := items[0];
    assert items[..10][0] == sample;
    if IsObjectTyped(sample) {
      var c := CreateTableXml(host, sample, name, st);
      if c.Success? { MergeSamplesPrefix(host, items, 1, 10, name, c.value); }
    }
  }

  // ---------------------------------------------------------------------
  // The entry point

  datatype Metadata = Metadata(totalTables: nat, totalFields: nat, analyzedAt: string)

  datatype Schema = Schema(tables: seq<Table>, relationships: seq<Relationship>, metadata: Metadata)

  const AnalysisFailedPrefix := "Schema analysis failed: "
  const UnsupportedFormatError := "Unsupported format for schema analysis"

  /** `tables.reduce((sum, table) => sum + table.fields.length, 0)`, folded from the left. */
  function TotalFields(tables: seq<Table>): nat
  {
    if tables == [] then 0 else TotalFields(tables[..|tables| - 1]) + |tables[|tables| - 1].fields|
  }

  /** The field count of a concatenation is the sum of the counts. */
  lemma {:induction false} TotalFieldsAppend(a: seq<Table>, b: seq<Table>)
    ensures TotalFields(a + b) == TotalFields(a) + TotalFields(b)
    decreases |b|
  {
    if b == [] {
      assert a + b == a;
    } else {
      var n := |b| - 1;
      assert (a + b)[..|a + b| - 1] == a + b[..n];
      assert (a + b)[|a + b| - 1] == b[n];
      TotalFieldsAppend(a, b[..n]);
    }
  }

  /** The field count is at least the number of fields of any one table. */
  lemma {:induction false} TotalFieldsCovers(tables: seq<Table>, i: nat)
    requires i < |tables|
    ensures |tables[i].fields| <= TotalFields(tables)
    decreases |tables|
  {
    if i < |tables| - 1 {
      TotalFieldsCovers(tables[..|tables| - 1], i);
    }
  }

  /** The schema object returned once the walk has finished. */
  function Finish(host: Host, st: State): (s: Schema)
    ensures s.tables == st.tables && s.relationships == st.relationships
    ensures s.metadata.totalTables == |st.tables| && s.metadata.totalFields == TotalFields(st.tables)
  {
    Schema(st.tables, st.relationships, Metadata(|st.tables|, TotalFields(st.tables), host.now))
  }

  function EmptyState(): (st: State)
    ensures Valid(st)
  {
    State([], [])
  }

  /**
   * `analyzeSchema`: the JSON or XML walk from an empty schema under the
   * table name `root`; any other format, and any error thrown by the walk,
   * is reported with the `Schema analysis failed: ` prefix.
   */
  function AnalyzeSchema(host: Host, data: Value, format: string): (r: Result<Schema>)
    ensures r.Failure? ==> StartsWith(r.error, AnalysisFailedPrefix)
    ensures format != "json" && format != "xml" ==> r == Failure(AnalysisFailedPrefix + UnsupportedFormatError)
    ensures r.Failure? && (format == "json" || format == "xml") ==> r.error == AnalysisFailedPrefix + NullToObjectError
    ensures r.Success? ==> (r.value.metadata.totalTables == |r.value.tables|
      && r.value.metadata.totalFields == TotalFields(r.value.tables)
      && r.value.metadata.analyzedAt == host.now)
  {
    if format == "json" then
      match ProcessJson(host, data, "root", EmptyState())
      case Failure(e) => Failure(AnalysisFailedPrefix + e)
      case Success(st) => Success(Finish(host, st))
    else if format == "xml" then
      match ProcessXml(host, data, "root", EmptyState())
      case Failure(e) => Failure(AnalysisFailedPrefix + e)
      case Success(st) => Success(Finish(host, st))
    else Failure(AnalysisFailedPrefix + UnsupportedFormatError)
  }

  /**
   * A successful analysis yields a valid schema: relationship pairs are
   * unique with their derived attributes, and every field keeps one to
   * five examples and no format.
   */
  lemma AnalyzeSchemaValid(host: Host, data: Value, format: string)
    ensures var r := AnalyzeSchema(host, data, format);
      r.Success? ==> Valid(State(r.value.tables, r.value.relationships))
  {
    ProcessJsonPreserves(host, data, "root", EmptyState());
    ProcessXmlPreserves(host, data, "root", EmptyState());
  }

  /** The tables of a JSON analysis are those of the walk from `root`. */
  lemma AnalyzeJsonTables(host: Host, data: Value)
    ensures var r := AnalyzeSchema(host, data, "json");
      var w := ProcessJson(host, data, "root", EmptyState());
      && (r.Success? <==> w.Success?)
      && (r.Success? ==> r.value.tables == w.value.tables && r.value.relationships == w.value.relationships)
  {
  }

  /** A JSON object root yields a table named `root`, last, with one field per key in key order. */
  lemma JsonRootTable(host: Host, data: Value)
    requires data.Obj?
    ensures var r := AnalyzeSchema(host, data, "json");
      r.Success? ==>
        && |r.value.tables| > 0
        && var root := r.value.tables[|r.value.tables| - 1];
        && root.name == "root"
        && |root.fields| == |data.entries|
        && (forall k :: 0 <= k < |data.entries| ==> root.fields[k].name == SanitizeFieldName(data.entries[k].0))
        && root.primaryKey == GuessPrimaryKey(Keys(data.entries))
  {
    AnalyzeJsonTables(host, data);
    var c := CreateTableJson(host, data, "root", EmptyState());
    CreateTableJsonFields(host, data, "root", EmptyState());
    assert ProcessJson(host, data, "root", EmptyState()) == c;
    if c.Success? {
      var root := c.value.tables[|c.value.tables| - 1];
      assert KeysOf(data) == Keys(data.entries);
      forall k | 0 <= k < |data.entries| ensures root.fields[k].name == SanitizeFieldName(data.entries[k].0) {
        assert root.fields[k] == AnalyzeField(host, EntryKey(data, k), Child(data, k));
      }
    }
  }

  /** A scalar or null root yields an empty schema. */
  lemma ScalarRootIsEmpty(host: Host, data: Value, format: string)
    requires !IsContainer(data) && (format == "json" || format == "xml")
    ensures AnalyzeSchema(host, data, format) == Success(Schema([], [], Metadata(0, 0, host.now)))
  {
  }

  /** A root array whose element 0 is null makes the analysis fail: `Object.keys(null)` throws. */
  lemma NullSampleFails(host: Host, items: seq<Value>, format: string)
    requires |items| > 0 && items[0].Null? && (format == "json" || format == "xml")
    ensures AnalyzeSchema(host, Arr(items), format) == Failure(AnalysisFailedPrefix + NullToObjectError)
  {
  }

  /** An empty object builds a field-less table without a primary key. */
  lemma EmptyObjectTable(host: Host, name: string, st: State)
    requires !HasTable(st.tables, name)
    ensures CreateTableJson(host, Obj([]), name, st) == Success(st.(tables := st.tables + [Table(name, [], None)]))
  {
    assert KeysOf(Obj([])) == [];
    assert JsonEntries(host, Obj([]), 0, name, st, []) == Success((st, []));
  }

  /** The entry loop over an object with a single entry that walks successfully. */
  lemma SingleEntry(host: Host, key: string, value: Value, name: string, st: State)
    requires JsonChild(host, key, value, name, st).Success?
    ensures JsonEntries(host, Obj([(key, value)]), 0, name, st, [])
      == Success((JsonChild(host, key, value, name, st).value, [AnalyzeField(host, key, value)]))
  {
    var obj := Obj([(key, value)]);
    assert EntryKey(obj, 0) == key && Child(obj, 0) == value;
    var s := JsonChild(host, key, value, name, st).value;
    assert [] + [AnalyzeField(host, key, value)] == [AnalyzeField(host, key, value)];
    assert JsonEntries(host, obj, 1, name, s, [AnalyzeField(host, key, value)])
      == Success((s, [AnalyzeField(host, key, value)]));
  }

  /** The inner table of `{"a": {"a": {}}}` under `a`: two tables named `a`. */
  lemma SameNameInner(host: Host)
    ensures var r := CreateTableJson(host, Obj([("a", Obj([]))]), "a", EmptyState());
      && r.Success? && |r.value.tables| == 2
      && r.value.tables[0].name == "a" && r.value.tables[1].name == "a"
  {
    var s0 := EmptyState();
    EmptyObjectTable(host, "a", s0);
    var s1 := s0.(tables := [Table("a", [], None)]);
    assert s0.tables + [Table("a", [], None)] == s1.tables;
    assert ProcessJson(host, Obj([]), "a", s0) == Success(s1);
    SingleEntry(host, "a", Obj([]), "a", s0);
  }

  /** The root table of `{"a": {"a": {}}}` comes after both tables named `a`. */
  lemma SameNameRoot(host: Host)
    ensures var r := CreateTableJson(host, Obj([("a", Obj([("a", Obj([]))]))]), "root", EmptyState());
      && r.Success? && |r.value.tables| == 3
      && r.value.tables[0].name == "a" && r.value.tables[1].name == "a" && r.value.tables[2].name == "root"
  {
    var mid := Obj([("a", Obj([]))]);
    var s0 := EmptyState();
    SameNameInner(host);
    assert ProcessJson(host, mid, "a", s0) == CreateTableJson(host, mid, "a", s0);
    SingleEntry(host, "a", mid, "root", s0);
  }

  /**
   * A key nested inside an object of the same name gives two tables of
   * that name: the existence check runs before the recursion, the append
   * after it.
   */
  lemma SameNameNestingDuplicates(host: Host)
    ensures var r := AnalyzeSchema(host, Obj([("a", Obj([("a", Obj([]))]))]), "json");
      && r.Success?
      && |r.value.tables| == 3
      && r.value.tables[0].name == "a" && r.value.tables[1].name == "a" && r.value.tables[2].name == "root"
  {
    var data := Obj([("a", Obj([("a", Obj([]))]))]);
    SameNameRoot(host);
    assert ProcessJson(host, data, "root", EmptyState()) == CreateTableJson(host, data, "root", EmptyState());
  }
}
