/**
 * `generateSQLDDL`: the SQL text produced from an inferred schema. The
 * text is specified by `DdlText` (a header, one `CREATE TABLE` block per
 * table in order, then one constraint block per relationship in order);
 * the method builds it with `sql +=` as the source does. The lemmas say
 * what a reader of the text can rely on: every table and relationship has
 * its block at a known offset, in schema order, tables before
 * constraints, and the constraints of a column line can be read back.
 */
module SchemaDdl {
  import opened JsValues
  import opened SchemaRules
  import opened SchemaSpec

  const Header := "-- Generated Database Schema\n\n"
  const PrimaryKeySuffix := " PRIMARY KEY"
  const NotNullSuffix := " NOT NULL"
  const ColumnSeparator := ",\n"

  // ---------------------------------------------------------------------
  // One column

  /**
   * One column line: two spaces, the field name, its SQL type, then the
   * primary-key and not-null constraints. The field's default is always
   * null, so no `DEFAULT` clause is ever written.
   */
  function ColumnDefinition(f: Field): string
  {
    var definition := "  " + f.name + " " + SqlType(f);
    var withKey := if f.isPrimaryKey then definition + PrimaryKeySuffix else definition;
    if !f.nullable then withKey + NotNullSuffix else withKey
  }

  /** The constraints a reader finds at the end of a column line: (primary key, not null). */
  function ColumnConstraints(line: string): (bool, bool)
  {
    var notNull := EndsWith(line, NotNullSuffix);
    var head := if notNull then line[..|line| - |NotNullSuffix|] else line;
    (EndsWith(head, PrimaryKeySuffix), notNull)
  }

  /** No SQL type ends like either constraint: never in `L` (`NULL`) or `Y` (`KEY`). */
  lemma SqlTypeLastChar(f: Field)
    ensures var t := SqlType(f); |t| > 0 && t[|t| - 1] != 'L' && t[|t| - 1] != 'Y'
  {
    var t := SqlType(f);
    if f.fieldType in {Email, Url, String} {
      var w := NatToString(VarcharWidth(f.maxLength));
      assert t == "VARCHAR(" + w + ")";
      assert t[|t| - 1] == ')';
    }
  }

  /** Reading a column line back gives exactly the field's primary-key flag and its non-nullability. */
  lemma ColumnConstraintsRoundTrip(f: Field)
    ensures ColumnConstraints(ColumnDefinition(f)) == (f.isPrimaryKey, !f.nullable)
  {
    var definition := "  " + f.name + " " + SqlType(f);
    var withKey := if f.isPrimaryKey then definition + PrimaryKeySuffix else definition;
    var line := ColumnDefinition(f);
    SqlTypeLastChar(f);
    assert definition[|definition| - 1] == SqlType(f)[|SqlType(f)| - 1];
    assert |withKey| > 0 && withKey[|withKey| - 1] != 'L' by {
      if f.isPrimaryKey {
        assert withKey[|withKey| - 1] == 'Y';
      }
    }
    if !f.nullable {
      assert line[..|line| - |NotNullSuffix|] == withKey;
      assert line[|line| - |NotNullSuffix|..] == NotNullSuffix;
    } else {
      assert line == withKey;
      assert !EndsWith(line, NotNullSuffix);
    }
    if f.isPrimaryKey {
      assert withKey[|withKey| - |PrimaryKeySuffix|..] == PrimaryKeySuffix;
    } else {
      assert withKey == definition;
      assert !EndsWith(withKey, PrimaryKeySuffix);
    }
  }

  // ---------------------------------------------------------------------
  // Blocks and the whole text

  /** `table.fields.map(...)`: the column lines of a table, in field order. */
  function ColumnDefinitions(fields: seq<Field>): (r: seq<string>)
    ensures |r| == |fields|
    ensures forall i :: 0 <= i < |fields| ==> r[i] == ColumnDefinition(fields[i])
  {
    seq(|fields|, i requires 0 <= i < |fields| => ColumnDefinition(fields[i]))
  }

  /** The `CREATE TABLE` statement of one table: its column lines joined by `,\n`. */
  function TableDdl(t: Table): string
  {
    "CREATE TABLE " + t.name + " (\n" + Join(ColumnDefinitions(t.fields), ColumnSeparator) + "\n);\n\n"
  }

  /**
   * The comment and foreign-key constraint written for one relationship,
   * three lines of text; the comment names the base kind, not the
   * promoted one.
   */
  function RelationshipDdl(rel: Relationship): string
  {
    RelationshipComment(rel) + RelationshipConstraint(rel) + RelationshipReference(rel)
  }

  function RelationshipComment(rel: Relationship): string
  {
    "-- Relationship: " + rel.parentTable + " -> " + rel.childTable + " (" + KindName(rel.kind) + ")\n"
  }

  function RelationshipConstraint(rel: Relationship): string
  {
    "ALTER TABLE " + rel.childTable + " ADD CONSTRAINT fk_" + rel.childTable + "_" + rel.parentTable + "\n"
  }

  function RelationshipReference(rel: Relationship): string
  {
    "  FOREIGN KEY (" + rel.foreignKey + ") REFERENCES " + rel.parentTable + "(id);\n\n"
  }

  /** The whole DDL text of a schema: the header, the table blocks, the constraint blocks. */
  function DdlText(schema: Schema): string
  {
    Header + ConcatMap(TableDdl, schema.tables) + ConcatMap(RelationshipDdl, schema.relationships)
  }

  /** Where the block of table `k` starts: after the header and the blocks of the tables before it. */
  function TableOffset(schema: Schema, k: nat): nat
    requires k <= |schema.tables|
  {
    |Header| + |ConcatMap(TableDdl, schema.tables[..k])|
  }

  /** Where the block of relationship `k` starts: after every table block and the relationships before it. */
  function RelationshipOffset(schema: Schema, k: nat): nat
    requires k <= |schema.relationships|
  {
    |Header| + |ConcatMap(TableDdl, schema.tables)| + |ConcatMap(RelationshipDdl, schema.relationships[..k])|
  }

  /** Every table's `CREATE TABLE` block stands in the text at its offset. */
  lemma TableDeclared(schema: Schema, k: nat)
    requires k < |schema.tables|
    ensures OccursAt(DdlText(schema), TableDdl(schema.tables[k]), TableOffset(schema, k))
    ensures Contains(DdlText(schema), "CREATE TABLE " + schema.tables[k].name + " (\n")
  {
    var text := DdlText(schema);
    var t := schema.tables[k];
    var at := TableOffset(schema, k);
    ConcatMapOccurs(text, Header, TableDdl, schema.tables, ConcatMap(RelationshipDdl, schema.relationships), k, at);
    var open := "CREATE TABLE " + t.name + " (\n";
    var columns := Join(ColumnDefinitions(t.fields), ColumnSeparator);
    OccursAtPrefix(text, open + columns, "\n);\n\n", at);
    OccursAtPrefix(text, open, columns, at);
    OccursAtContains(text, open, at);
  }

  /** Every relationship's constraint block stands in the text at its offset. */
  lemma RelationshipDeclared(schema: Schema, k: nat)
    requires k < |schema.relationships|
    ensures OccursAt(DdlText(schema), RelationshipDdl(schema.relationships[k]), RelationshipOffset(schema, k))
  {
    ConcatMapOccursAfter(DdlText(schema), Header, TableDdl, schema.tables, RelationshipDdl, schema.relationships,
                         k, RelationshipOffset(schema, k));
  }

  /**
   * The blocks come in schema order and do not overlap: a table's block
   * ends before the next table's begins, and every table block ends
   * before the first constraint.
   */
  lemma BlocksInOrder(schema: Schema, j: nat, k: nat)
    requires j < k <= |schema.tables|
    ensures TableOffset(schema, j) + |TableDdl(schema.tables[j])| <= TableOffset(schema, k)
    ensures TableOffset(schema, k) <= RelationshipOffset(schema, 0)
  {
    ConcatMapPrefixGrows(TableDdl, schema.tables, j, k);
    assert schema.relationships[..0] == [];
  }

  /** Constraint blocks come in relationship order and do not overlap. */
  lemma RelationshipsInOrder(schema: Schema, j: nat, k: nat)
    requires j < k <= |schema.relationships|
    ensures RelationshipOffset(schema, j) + |RelationshipDdl(schema.relationships[j])| <= RelationshipOffset(schema, k)
  {
    ConcatMapPrefixGrows(RelationshipDdl, schema.relationships, j, k);
  }

  /** The text of a schema with no tables and no relationships is the header alone. */
  lemma EmptySchemaDdl(metadata: Metadata)
    ensures DdlText(Schema([], [], metadata)) == Header
  {
    assert Header + "" + "" == Header;
  }

  // ---------------------------------------------------------------------
  // The generator as the source runs it

  /** The callback of `table.fields.map`: the column line grown by `definition +=`. */
  method DefineColumn(f: Field) returns (definition: string)
    ensures definition == ColumnDefinition(f)
  {
    definition := "  " + f.name + " " + SqlType(f);
    if f.isPrimaryKey {
      definition := definition + PrimaryKeySuffix;
    }
    if !f.nullable {
      definition := definition + NotNullSuffix;
    }
  }

  /** `generateSQLDDL`: the header, a loop over the tables, then a loop over the relationships. */
  method GenerateSqlDdl(schema: Schema) returns (sql: string)
    ensures sql == DdlText(schema)
  {
    sql := Header;
    sql := WriteTables(sql, schema.tables);
    sql := WriteRelationships(sql, schema.relationships);
  }

  /** `for (const table of schema.tables)`, appending each table's block. */
  method WriteTables(sql: string, tables: seq<Table>) returns (r: string)
    ensures r == sql + ConcatMap(TableDdl, tables)
  {
    r := sql;
    for i := 0 to |tables|
      invariant r == sql + ConcatMap(TableDdl, tables[..i])
    {
      var next := WriteTable(r, tables[i]);
      ConcatMapStep(TableDdl, sql, tables, i, r, next);
      r := next;
    }
    assert tables[..|tables|] == tables;
  }

  /** `for (const rel of schema.relationships)`, appending each relationship's block. */
  method WriteRelationships(sql: string, rels: seq<Relationship>) returns (r: string)
    ensures r == sql + ConcatMap(RelationshipDdl, rels)
  {
    r := sql;
    for i := 0 to |rels|
      invariant r == sql + ConcatMap(RelationshipDdl, rels[..i])
    {
      var next := WriteRelationship(r, rels[i]);
      ConcatMapStep(RelationshipDdl, sql, rels, i, r, next);
      r := next;
    }
    assert rels[..|rels|] == rels;
  }

  /** The body of the table loop: three `sql +=` statements. */
  method WriteTable(sql: string, table: Table) returns (r: string)
    ensures r == sql + TableDdl(table)
  {
    r := sql + ("CREATE TABLE " + table.name + " (\n");
    var definitions := DefineColumns(table.fields);
    r := r + Join(definitions, ColumnSeparator);
    r := r + "\n);\n\n";
    AppendThree(sql, "CREATE TABLE " + table.name + " (\n", Join(definitions, ColumnSeparator), "\n);\n\n");
  }

  /** The body of the relationship loop: three `sql +=` statements. */
  method WriteRelationship(sql: string, rel: Relationship) returns (r: string)
    ensures r == sql + RelationshipDdl(rel)
  {
    r := sql + ("-- Relationship: " + rel.parentTable + " -> " + rel.childTable + " (" + KindName(rel.kind) + ")\n");
    r := r + ("ALTER TABLE " + rel.childTable + " ADD CONSTRAINT fk_" + rel.childTable + "_" + rel.parentTable + "\n");
    r := r + ("  FOREIGN KEY (" + rel.foreignKey + ") REFERENCES " + rel.parentTable + "(id);\n\n");
    AppendThree(sql, RelationshipComment(rel), RelationshipConstraint(rel), RelationshipReference(rel));
  }

  /** `table.fields.map(...)`, one callback per field. */
  method DefineColumns(fields: seq<Field>) returns (definitions: seq<string>)
    ensures definitions == ColumnDefinitions(fields)
  {
    definitions := [];
    for j := 0 to |fields|
      invariant definitions == ColumnDefinitions(fields)[..j]
    {
      var definition := DefineColumn(fields[j]);
      definitions := definitions + [definition];
    }
  }
}
