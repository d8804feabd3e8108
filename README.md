# data-formatter, modelled in Dafny

This project models the in-browser core of the data-formatter tool, which takes JSON
or XML text, turns it into a value tree, and then does four things with it:

- **Schema inference** (`js/schema.js`, `SchemaAnalyzer`). It walks a JSON or XML value
  tree and builds:
  - a list of tables, each with typed fields (nullability, up to five examples,
    maximum string length, primary-key and foreign-key flags);
  - a list of parent/child relationships, where a reverse one-to-many edge is promoted
    to many-to-many;
  - SQL DDL text.
- **Conversion** (`js/converter.js`, `DataConverter`):
  - the JSON to XML serialiser with element-name sanitising and entity escaping;
  - the XML pretty-printer;
  - structure statistics, conversion notes and the preview.
- **Parsing** (`js/parser.js`, `DataParser`):
  - format detection;
  - scalar coercion of XML text;
  - the lifting of an XML element tree into a value;
  - the value to XML serialiser, escaping, the XML pretty-printer `formatXML`, the
    format/minify dispatch and structure statistics.
- **Tree view** (`js/treeview.js`, `TreeView`):
  - the rendering reset;
  - node numbering and toggle choice while the tree is built;
  - the node-statistics walk.

## How it is modelled

- **Values.** Parsed data is the datatype `JsValues.Value`:
  - `Null`, `Bool`, `Int` and `Dec` (a non-integral number written as whole and
    fraction digits);
  - `Str`;
  - `Arr`, a sequence;
  - `Obj`, a sequence of key/value pairs in insertion order.
- **Browser facilities.** The ones the core calls but does not define are fields of
  `JsValues.Host` (or `Parser.Parsers`), passed as parameters:
  - `new Date(s)` validity and `new URL(s)`;
  - `JSON.stringify` and `JSON.parse`;
  - the `DOMParser` element tree;
  - the `analyzedAt` timestamp.
- **Schema analyser.** `SchemaSpec` is the specification as functions over a
  `State(tables, relationships)`. `SchemaAnalyzer.SchemaBuilder` is a class whose
  fields `tables` and `relationships` its methods update in place, just as the
  JavaScript pushes onto `schema.tables` and `schema.relationships`. Each method is
  proved equal to its `SchemaSpec` function, and every property is proved about those
  functions:
  - `Valid`: every field keeps one to five examples, and relationships are unique per
    ordered pair;
  - `Extends`: tables and relationships are only appended, and fields only widen.
- **Other string builders.** The loops that build strings (`objectToXml`, `formatXml`,
  `generateSQLDDL`, `objectToXML`) and the structure walks are methods with loop
  invariants. Each is proved against a function, and the lemmas are about that function.
- **Statistics walks.** The walks that mutate a shared counter record (`analyzeStructure`,
  `analyzeJSONStructure`, `analyzeXMLStructure`, `analyzeNode`) are classes whose methods
  are proved equal to a fold over the pre-order list of visited values
  (`ValueWalk.Visits`).
- **Tree view.** `TreeView.TreeViewState` holds `nodeCounter` and `expandedNodes`. The
  DOM it builds is the datatype `RenderedNode`.
- **Behaviour worth noting.** The model keeps these consequences of the code:
  - an object root produces a table named `root`;
  - sanitised field names within one table are not deduplicated;
  - an array whose first sample is `null` makes the analysis fail, because
    `Object.entries(null)` throws, and the model has that error path;
  - `formatData` with format "xml" throws when an element with a one-letter name has
    child elements, because the parser's pretty-printer then asks `repeat` for a
    count of -1;
  - both XML writers throw "obj.hasOwnProperty is not a function" on an object with
    an own `hasOwnProperty` key (which `JSON.parse` produces), because their key loops
    call `obj.hasOwnProperty(key)`. So JSON to XML conversion, and XML formatting and
    minifying, fail for such data.

## Model

| member | source | states |
|---|---|---|
| SchemaRules.InferDataType | js/schema.js:199-237 | null, boolean, integer, decimal, array and object each map to their own type and back (both directions); a string is `datetime` iff it parses as a date, else `email` iff it matches the e-mail shape, else `url` iff it parses as a URL, else `string`; `mixed` is never returned |
| SchemaRules.EmailHasOneAt | js/schema.js:239-242 | a string accepted by the e-mail pattern has exactly one `@` |
| SchemaRules.ForeignKeyIsPrimaryKeyCandidate | js/schema.js:260-269 | every foreign-key candidate name is also a primary-key candidate (ending in "id" implies containing "id") |
| SchemaRules.ForeignKeyCandidateShape | js/schema.js:266-269 | a name is a foreign-key candidate iff its lower-case form ends in "id" and is not exactly "id" |
| SchemaRules.GuessPrimaryKey | js/schema.js:271-278 | no key is returned iff no key is a primary-key candidate; a returned key is a candidate and every key before it in insertion order is not |
| SchemaRules.SanitizeFieldName | js/schema.js:280-282 | same length as the input; every output character is a lower-case letter, digit or `_`; letters, digits and `_` are kept (lower-cased) and every other character becomes `_` |
| SchemaRules.SanitizeFieldNameIdempotent | js/schema.js:280-282 | sanitising an already sanitised name changes nothing |
| SchemaRules.PluralToSingular | js/schema.js:284-295 | the four rules in order ("ies" to "y", strip "es", strip a final "s", unchanged), and the result is never longer than the input |
| SchemaRules.PluralExamples | js/schema.js:284-295 | "categories" gives "category", "books" gives "book" and "address" gives "addres" |
| SchemaRules.DetermineRelationshipType | js/schema.js:316-334 | the type is many-to-many iff the requested kind is many-to-many, or it is one-to-many and the reverse pair is already recorded; otherwise it is the requested kind |
| SchemaRules.AnalyzeField | js/schema.js:165-197 | a new field has the sanitised name, the inferred type, `nullable` iff the value is null, the value as sole example, a `maxLength` exactly for strings, the PK/FK flags of the raw name, and never a format (the format branch is unreachable) |
| SchemaRules.MergeField | js/schema.js:336-365 | merging a sample keeps the name, format and flags; it appends the sample to the examples only while there are fewer than five |
| SchemaRules.MergeFieldType | js/schema.js:344-347 | the type either stays or becomes `mixed`; it is `mixed` afterwards iff it was `mixed` or the sample is non-null and infers a different type, so `mixed` is permanent |
| SchemaRules.MergeFieldNullable | js/schema.js:349-351 | the field is nullable afterwards iff it was nullable and the sample is null: `nullable` is only ever cleared |
| SchemaRules.MergeFieldLength | js/schema.js:357-359 | while the type is `string` and the sample is a string, `maxLength` becomes the larger of the old maximum and the sample's length; otherwise it is unchanged |
| SchemaRules.VarcharWidth | js/schema.js:421-422 | the VARCHAR width is between 2 and 255, equals twice the longest observed length below 128, and is 255 otherwise |
| SchemaRules.SqlTypeClasses | js/schema.js:408-428 | the SQL type is TEXT iff the field type is unknown or mixed, JSON iff array or object, and a VARCHAR iff email, url or string |
| SchemaSpec.FindTable | js/schema.js:89-90 | returns the first index whose table has the name, and nothing iff no table has it |
| SchemaSpec.FindField | js/schema.js:341-342 | returns the first index whose field has the name, and nothing iff no field has it |
| SchemaSpec.FieldWidensTransitive | js/schema.js:336-365 | the "field only widens" relation composes |
| SchemaSpec.ExtendsTransitive | js/schema.js:88-163 | the "state only grows" relation composes across steps of the walk |
| SchemaSpec.AppendTable | js/schema.js:118 | pushing a table extends the state, and keeps it valid when the new table's fields are valid |
| SchemaSpec.AddRelationship | js/schema.js:297-314 | an already recorded ordered pair leaves the state unchanged; otherwise exactly one relationship is appended, with foreign key parent + "_id" and the type from `determineRelationshipType`; tables are untouched |
| SchemaSpec.AddRelationshipPreserves | js/schema.js:297-314 | adding a relationship only appends, keeps pairs unique and records the pair |
| SchemaSpec.AppendRelationshipValid | js/schema.js:305-313 | appending a fresh pair with the derived foreign key and type keeps the relationship list valid |
| SchemaSpec.PromotionIsOneSided | js/schema.js:297-334 | adding a one-to-many edge and then its reverse gives two entries, the older stays one-to-many and only the newer is many-to-many |
| SchemaSpec.MergeEntry | js/schema.js:340-364 | a sample under an existing sanitised name replaces the first field with that name by `MergeField` of it and the sample, and leaves every other field as it was; a sample under an unseen name appends the field `analyzeField` makes, which is non-nullable whenever the value is non-null |
| SchemaSpec.MergeEntryWidens | js/schema.js:340-364 | one merged entry widens every field, keeps fields valid and leaves a field under the entry's sanitised name |
| SchemaSpec.MergeEntriesWidens | js/schema.js:340-364 | the whole entry loop widens every field and keeps fields valid |
| SchemaSpec.MergeEntriesNames | js/schema.js:340-364 | after the loop, every entry's sanitised key names a field |
| SchemaSpec.MergeFieldsFromObject | js/schema.js:336-365 | an absent table name changes nothing; it fails (with the `Object.entries(null)` message) exactly when the table exists and the sample is null; it never adds tables or relationships |
| SchemaSpec.MergeChangesOneTable | js/schema.js:337-364 | a successful merge changes only the first table with the name: it keeps its name and primary key, its fields become the merge of the sample's entries in order, and every other table stays as it was |
| SchemaSpec.MergeSingleEntry | js/schema.js:340-354 | a one-key sample whose sanitised key names a field of the table turns that field into `MergeField` of it and the sample, and keeps the table's other fields |
| SchemaSpec.MergeFieldsPreserves | js/schema.js:336-365 | merging a sample extends the state and keeps it valid |
| SchemaSpec.MergeFieldsExtends | js/schema.js:336-365 | merging a sample only widens fields and appends nothing else |
| SchemaSpec.MergeFieldsValid | js/schema.js:336-365 | merging a sample into a valid state leaves it valid |
| SchemaSpec.MergeAddsEveryKey | js/schema.js:340-364 | after merging an object sample, every one of its sanitised keys names a field of the table |
| SchemaSpec.MergeSamples | js/schema.js:62-64 | merging a run of samples fails only with the null-sample error and never adds tables or relationships |
| SchemaSpec.MergeSamplesPreserves | js/schema.js:62-64 | merging a run of samples extends the state and keeps it valid |
| SchemaSpec.MergeSamplesExtends | js/schema.js:62-64 | a successful run of merges extends the state |
| SchemaSpec.MergeSamplesValid | js/schema.js:62-64 | a successful run of merges from a valid state ends in a valid state |
| SchemaSpec.MergeSamplesPrefix | js/schema.js:62-64 | samples beyond the end of the run have no effect |
| SchemaSpec.SampleEnd | js/schema.js:62 | the sampling loop stops at the array's length or at 10, whichever is smaller |
| SchemaSpec.JsonFields | js/schema.js:101-104 | a JSON table has exactly one field per key, in key order, each made by `analyzeField` |
| SchemaSpec.ProcessJson | js/schema.js:54-69 | scalars change nothing; an array whose first element is neither null nor an object changes nothing; the only failure is the null-sample error |
| SchemaSpec.CreateTableJson | js/schema.js:88-119 | an existing table name changes nothing; a null object fails; on success the new table is the last one, appended after every table made for nested values |
| SchemaSpec.CreateTableJsonUnfold | js/schema.js:88-119 | the table is built from the entry walk's fields and the first primary-key candidate among the keys |
| SchemaSpec.CreateTableJsonFields | js/schema.js:88-119 | the appended table is exactly (name, one field per key, guessed primary key) |
| SchemaSpec.JsonChild | js/schema.js:105-115 | scalar values add nothing; an array whose first element is an array still records a one-to-many relationship to the singular key, with no child table |
| SchemaSpec.JsonChildRecordsEdge | js/schema.js:105-115 | an array value records the relationship to the singular of its key and an object value records the relationship to the key, whatever the child walk builds |
| SchemaSpec.ProcessJsonPreserves | js/schema.js:54-69 | the JSON walk only appends tables and relationships, only widens fields, and keeps the state valid |
| SchemaSpec.CreateTableJsonPreserves | js/schema.js:88-119 | building a JSON table extends the state and keeps it valid |
| SchemaSpec.JsonEntriesPreserves | js/schema.js:101-116 | the entry loop extends the state and keeps the state and the collected fields valid |
| SchemaSpec.JsonChildPreserves | js/schema.js:105-115 | one nested entry extends the state and keeps it valid |
| SchemaSpec.SamplingCapJson | js/schema.js:59-65 | array elements at index 10 or later have no effect on the JSON walk |
| SchemaSpec.AttributeFields | js/schema.js:135-140 | each attribute becomes the field `analyzeField` makes, marked as an attribute, in attribute order |
| SchemaSpec.XmlEntryFields | js/schema.js:134-158 | the fields one XML entry contributes; it fails exactly for a null `@attributes` entry |
| SchemaSpec.XmlAttributesEntryShape | js/schema.js:135-140 | a non-null `@attributes` entry gives one attribute field per attribute, none marked as text content |
| SchemaSpec.XmlTextEntryShape | js/schema.js:141-144 | a `#text` entry gives one valid field named "content", marked as text content |
| SchemaSpec.XmlOtherEntryShape | js/schema.js:141-158 | an entry other than `@attributes` gives one field, except an array or object child, which gives none |
| SchemaSpec.XmlScalarEntryShape | js/schema.js:155-158 | a scalar child gives one plain field |
| SchemaSpec.ProcessXml | js/schema.js:71-86 | scalars change nothing; an array whose first element is not null, array or object changes nothing; the only failure is the null-sample error |
| SchemaSpec.CreateTableXml | js/schema.js:121-163 | an existing table name changes nothing; a null object fails; on success the new table is last and carries the guessed primary key |
| SchemaSpec.CreateTableXmlUnfold | js/schema.js:121-163 | the XML table is built from the entry walk's fields and the guessed primary key |
| SchemaSpec.XmlChild | js/schema.js:145-154 | `@attributes`, `#text` and scalar entries add no table or relationship |
| SchemaSpec.XmlChildRecordsEdge | js/schema.js:145-154 | an array child records the relationship to the singular of its key, even when no table is built, and an object child the relationship to its key |
| SchemaSpec.ProcessXmlPreserves | js/schema.js:71-86 | the XML walk extends the state and keeps it valid |
| SchemaSpec.CreateTableXmlPreserves | js/schema.js:121-163 | building an XML table extends the state and keeps it valid |
| SchemaSpec.XmlEntriesPreserves | js/schema.js:134-159 | the XML entry loop extends the state and keeps the state and collected fields valid |
| SchemaSpec.XmlChildPreserves | js/schema.js:145-154 | one nested XML entry extends the state and keeps it valid |
| SchemaSpec.SamplingCapXml | js/schema.js:76-82 | array elements at index 10 or later have no effect on the XML walk |
| SchemaSpec.TotalFieldsAppend | js/schema.js:29-30 | the field total of two table lists is the sum of their totals |
| SchemaSpec.TotalFieldsCovers | js/schema.js:29-30 | the field total is at least the field count of each table |
| SchemaSpec.Finish | js/schema.js:23-31 | the result carries the walk's tables and relationships, `totalTables` is the number of tables and `totalFields` the sum of field counts |
| SchemaSpec.EmptyState | js/schema.js:17-21 | the starting schema is valid |
| SchemaSpec.AnalyzeSchema | js/schema.js:2-14 | every error starts "Schema analysis failed: "; a format other than json/xml fails with the unsupported-format message; on success the totals match the tables and `analyzedAt` is the host's timestamp |
| SchemaSpec.AnalyzeSchemaValid | js/schema.js:2-52 | a successful analysis has fields with one to five examples and at most one relationship per ordered pair, each with its derived foreign key and type |
| SchemaSpec.AnalyzeJsonTables | js/schema.js:16-33 | JSON analysis succeeds iff the walk from an empty schema under "root" succeeds, and returns its tables and relationships |
| SchemaSpec.JsonRootTable | js/schema.js:16-33 | an object root yields a last table named "root" with one field per key, named by the sanitised keys, and the guessed primary key |
| SchemaSpec.ScalarRootIsEmpty | js/schema.js:54-58 | a scalar root gives an empty schema with zero totals |
| SchemaSpec.NullSampleFails | js/schema.js:57-60 | an array whose first element is null makes the analysis fail with the `Object.entries(null)` message |
| SchemaSpec.EmptyObjectTable | js/schema.js:88-119 | an empty object gives a table with no fields and no primary key |
| SchemaSpec.SameNameNestingDuplicates | js/schema.js:88-119 | because the existence check runs before recursion and the push after it, `{"a": {"a": {}}}` yields two tables named "a" before "root" |
| SchemaAnalyzer.FirstPrimaryKey | js/schema.js:271-278 | the loop returns what `GuessPrimaryKey` specifies: the first candidate key, or none |
| SchemaAnalyzer.WidenField | js/schema.js:343-359 | the in-place updates of one field give exactly `MergeField` |
| SchemaAnalyzer.MergeOne | js/schema.js:340-364 | one iteration of the merge loop gives exactly `MergeEntry` |
| SchemaAnalyzer.SchemaBuilder.constructor | js/schema.js:17-21 | a new analyser holds the empty, valid schema |
| SchemaAnalyzer.SchemaBuilder.AddRelationship | js/schema.js:297-314 | the new state is `SchemaSpec.AddRelationship` of the old |
| SchemaAnalyzer.SchemaBuilder.MergeFieldsFromObject | js/schema.js:336-365 | the error and the new state agree with `SchemaSpec.MergeFieldsFromObject` |
| SchemaAnalyzer.SchemaBuilder.MergeEntriesAt | js/schema.js:340-364 | only table `t`'s fields change, to the merge of all entries in order |
| SchemaAnalyzer.SchemaBuilder.ProcessJsonObject | js/schema.js:54-69 | the error and the new state agree with `ProcessJson` |
| SchemaAnalyzer.SchemaBuilder.MergeRest | js/schema.js:62-64 | the sampling loop agrees with `MergeSamples` over elements 1 to min(n, 10) - 1 |
| SchemaAnalyzer.SchemaBuilder.CreateTableFromObject | js/schema.js:88-119 | the error and the new state agree with `CreateTableJson` |
| SchemaAnalyzer.SchemaBuilder.WalkJsonEntries | js/schema.js:101-116 | the entry loop agrees with `JsonEntries`, returning its fields |
| SchemaAnalyzer.SchemaBuilder.WalkJsonEntry | js/schema.js:105-115 | one nested entry agrees with `JsonChild` |
| SchemaAnalyzer.SchemaBuilder.ProcessXmlObject | js/schema.js:71-86 | the error and the new state agree with `ProcessXml` |
| SchemaAnalyzer.SchemaBuilder.CreateTableFromXmlObject | js/schema.js:121-163 | the error and the new state agree with `CreateTableXml` |
| SchemaAnalyzer.SchemaBuilder.WalkXmlEntries | js/schema.js:134-159 | the XML entry loop agrees with `XmlEntries`, returning its fields |
| SchemaAnalyzer.SchemaBuilder.AppendEntryFields | js/schema.js:135-158 | the fields pushed for one XML entry are `XmlEntryFields`, or its error |
| SchemaAnalyzer.SchemaBuilder.WalkXmlEntry | js/schema.js:145-154 | one nested XML entry agrees with `XmlChild` |
| SchemaAnalyzer.SchemaBuilder.AppendAttributes | js/schema.js:136-139 | the attribute loop appends exactly `AttributeFields` |
| SchemaAnalyzer.AnalyzeSchema | js/schema.js:2-52 | running the analyser object gives exactly `SchemaSpec.AnalyzeSchema` |
| SchemaDdl.ColumnConstraintsRoundTrip | js/schema.js:377-393 | from a column definition line one can read back whether the field is the primary key and whether it is NOT NULL |
| SchemaDdl.ColumnDefinitions | js/schema.js:377-393 | one column definition per field, in field order |
| SchemaDdl.TableDeclared | js/schema.js:374-397 | each table's block occurs in the DDL at its offset and contains "CREATE TABLE name (" |
| SchemaDdl.RelationshipDeclared | js/schema.js:399-403 | each relationship's ALTER TABLE block occurs in the DDL at its offset |
| SchemaDdl.BlocksInOrder | js/schema.js:374-403 | table blocks appear in table order and all of them come before every relationship block |
| SchemaDdl.RelationshipsInOrder | js/schema.js:399-403 | relationship blocks appear in relationship order without overlapping |
| SchemaDdl.EmptySchemaDdl | js/schema.js:372 | an empty schema gives just the header comment |
| SchemaDdl.DefineColumn | js/schema.js:378-392 | one field's column line is `ColumnDefinition` |
| SchemaDdl.GenerateSqlDdl | js/schema.js:371-406 | the text built by the loops is `DdlText` |
| SchemaDdl.WriteTables | js/schema.js:374-397 | the table loop appends every table's block in order |
| SchemaDdl.WriteRelationships | js/schema.js:399-403 | the relationship loop appends every relationship's block in order |
| SchemaDdl.DefineColumns | js/schema.js:377-393 | the column loop gives `ColumnDefinitions` |
| Converter.Convert | js/converter.js:2-18 | equal source and target formats fail with the same-format message |
| Converter.ConvertSucceeds | js/converter.js:2-18 | conversion succeeds iff the pair is xml to json, or json to xml for data in which no object has an own `hasOwnProperty` key |
| Converter.UnsupportedWrapped | js/converter.js:7-17 | any other pair of distinct formats fails with a message starting "Conversion failed: " |
| Converter.JsonToXmlConverts | js/converter.js:2-28 | json to xml gives the formatted document, which starts with the XML declaration; data reaching an own `hasOwnProperty` key fails with "Conversion failed: JSON to XML conversion failed: obj.hasOwnProperty is not a function" |
| Converter.HiddenHasOwnPropertyRefused | js/converter.js:2-28 | `{"a": {"hasOwnProperty": 1}}` cannot be converted from json to xml, and the message says why |
| Converter.Substring | js/converter.js:256 | `substring(0, n)` is a prefix of length n clamped to 0 and the text's length |
| Converter.PreviewCases | js/converter.js:248-260 | a failure becomes "Preview failed: " + its message; a result of at most `maxLength` characters is returned unchanged; a longer one becomes its first `maxLength` characters followed by the truncation mark |
| Converter.Structure.constructor | js/converter.js:155-161 | the statistics start all false and zero |
| Converter.Structure.AnalyzeStructure | js/converter.js:167-186 | the record after the recursive walk is the fold of the per-value update over the values in pre-order |
| Converter.Structure.AnalyzeChildren | js/converter.js:172-184 | the loop over children folds the update over each child's visits in order |
| Converter.DetectDataStructure | js/converter.js:154-165 | the detected structure is the fold over the whole tree from the empty record |
| Converter.StructureFold | js/converter.js:167-186 | over any visit list, `totalElements` counts the visits, `maxDepth` is the deepest depth, and each flag holds iff some visit has it |
| Converter.DetectedStructure | js/converter.js:154-186 | `totalElements` is the number of values in the tree, `maxDepth` its height, and `hasNestedStructures` holds iff some child of the root is an array or object |
| Converter.NotesIff | js/converter.js:203-227 | each note is present iff its condition holds: the names note iff json to xml, the array and nesting notes iff json to xml and the flag, the three XML notes iff xml to json, the depth note iff `maxDepth` > 5 |
| Converter.NotesCount | js/converter.js:203-227 | at most four notes, and xml to json starts with its three fixed notes in order |
| ConverterText.ReplaceNonNameCharsSpec | js/converter.js:89 | every character outside letters, digits, `_` and `-` becomes `_`, the rest are kept |
| ConverterText.SanitizeIsName | js/converter.js:86-98 | a sanitised name is non-empty, uses only letters, digits, `_` and `-`, and does not start with a digit |
| ConverterText.SanitizedFixed | js/converter.js:86-98 | a name already of that shape is returned unchanged |
| ConverterText.SanitizeIdempotent | js/converter.js:86-98 | sanitising twice is sanitising once |
| ConverterText.SanitizeKeepsNames | js/converter.js:86-98 | a name is unchanged iff it already has the sanitised shape |
| ConverterText.LeadingHyphenKept | js/converter.js:86-98 | "-id" is kept as is, although section 2.3 of XML 1.0 does not let a name start with `-` |
| ConverterText.EscapeChainIsEscape | js/converter.js:100-111 | the five chained replacements, `&` first, equal the one-pass entity escape, so no inserted entity is escaped again |
| ConverterText.EscapeChainSound | js/converter.js:100-111 | the escaped text has no `<`, `>`, `"` or `'`, and unescaping the five entities gives back the input |
| ConverterXml.ElementWrapped | js/converter.js:38-84 | the XML of a value under a name starts with "<" + the sanitised name and ends with its closing tag |
| ConverterXml.NullIsNil | js/converter.js:41-43 | null gives the element with the `xsi:nil` attributes and no content |
| ConverterXml.ScalarText | js/converter.js:45-47 | a scalar gives an element whose text has no markup characters and unescapes to `String(value)` |
| ConverterXml.ContainerElement | js/converter.js:49-81 | an array or object gives its children's elements in order between the open and close tags |
| ConverterXml.ChildIsElement | js/converter.js:49-81 | each child is written as its own element, named "item" in an array and by the key in an object |
| ConverterXml.ChildElementInside | js/converter.js:49-81 | the i-th child's element occurs inside its parent's XML right after the earlier children |
| ConverterXml.ChildOccurs | js/converter.js:49-81 | within the children text, child i sits at the offset given by the children before it |
| ConverterXml.ThrowsIffReached | js/converter.js:38-84 | the serialiser throws exactly when a walk of the whole value meets an object with an own `hasOwnProperty` key |
| ConverterXml.ChildrenThrowIffReached | js/converter.js:49-81 | the children written so far throw exactly when their walks meet such an object |
| ConverterXml.ChildrenThrowStays | js/converter.js:49-81 | once a child has thrown, the later children do not undo it |
| ConverterXml.ObjectToXml | js/converter.js:38-84 | the recursive loops build `ElementXml`, or throw the `hasOwnProperty` TypeError exactly when `Throws` holds |
| ConverterXml.AppendItems | js/converter.js:49-57 | the array loop appends each item's element in order, or throws when an item throws |
| ConverterXml.AppendMembers | js/converter.js:59-81 | the object loop appends each member's element in key order; it throws on the first key when the object has an own `hasOwnProperty` key, and when a member throws |
| ConverterXml.AppendMember | js/converter.js:62-79 | one key's output is `MemberXml`, or the `hasOwnProperty` error when the value throws |
| ConverterXml.JsonToXml | js/converter.js:20-28 | the method gives the declaration plus the element, pretty-printed, or the `hasOwnProperty` TypeError with the "JSON to XML conversion failed: " prefix |
| ConverterXml.JsonToXmlDeclared | js/converter.js:20-28 | the converted document starts with the XML declaration line |
| ConverterFormat.FindChar | js/converter.js:119 | finds the first occurrence of a character after a position, or reports that there is none |
| ConverterFormat.SplitConcat | js/converter.js:119 | splitting before each closing tag loses nothing: the pieces concatenate back to the input |
| ConverterFormat.SelfClosingBounded | js/converter.js:130-132 | in a piece without "</", self-closing tags never outnumber opening tags, so the indent step is never negative |
| ConverterFormat.FormatParts | js/converter.js:118-145 | the indent after any number of pieces is never negative |
| ConverterFormat.FormatXml | js/converter.js:113-148 | the method's loop with its mutable text, indent and buffer computes `FormatXmlText` |
| ConverterFormat.FormatPieces | js/converter.js:121-145 | the piece loop computes the fold of the step over the pieces |
| ConverterFormat.FormatPiece | js/converter.js:122-139 | one iteration of the loop is `FormatStep` |
| ConverterFormat.FormattedGrows | js/converter.js:121-145 | the formatted text only grows: it starts with the text formatted from any prefix of the pieces |
| ConverterFormat.FirstClosing | js/converter.js:123-127 | a first piece holding a closing tag is written on its own line |
| ConverterFormat.FirstDeclaration | js/converter.js:133-134 | a first piece holding `<?xml` and no closing tag is written on its own line |
| ConverterFormat.LineStaysFirst | js/converter.js:113-148 | a document whose first line is a declaration-like line keeps that line first after formatting |
| ConverterFormat.DeclarationStaysFirst | js/converter.js:113-148 | the formatted XML of `jsonToXml` starts with the XML declaration |
| ConverterFormat.CollapseKeeps | js/converter.js:147 | collapsing blank lines keeps a leading line that has no line break |
| XmlEscape.EscapedHasNoMarkup | js/parser.js:182-193 | escaped text contains none of `<`, `>`, `"`, `'` |
| XmlEscape.EscapePlain | js/parser.js:182-193 | text without the five special characters is left unchanged |
| XmlEscape.UnescapeEscape | js/parser.js:182-193 | unescaping the five entities gives back the input |
| XmlEscape.EscapeInjective | js/parser.js:182-193 | different texts escape differently |
| XmlEscape.EscapeAppend | js/parser.js:182-193 | escaping works character by character: it distributes over concatenation |
| Parser.DocumentElement | js/parser.js:39 | the parsed document's root is an element |
| Parser.ParseDispatch | js/parser.js:2-18 | it fails with "Invalid input data" iff the input is not a non-empty string; after trimming, a leading `{` or `[` selects JSON, else a leading `<` or any `<?xml` selects XML, else it fails with the unrecognized-format message |
| Parser.ParsedFormat | js/parser.js:2-44 | a successful parse reports "json" iff the trimmed text looks like JSON, with the JSON parser's value, and "xml" otherwise, with the lifted document element |
| Parser.BlankIsUnrecognized | js/parser.js:2-18 | a non-empty all-whitespace input is reported as an unrecognized format |
| Parser.Stats.constructor | js/parser.js:238-246 | statistics start at zero |
| Parser.Stats.Count | js/parser.js:263-278 | one visit raises `elements` and one of arrays, objects or primitives, and the depth to at least the level |
| Parser.Stats.AnalyzeJsonStructure | js/parser.js:263-278 | the recursive walk is the fold of the update over the pre-order visits |
| Parser.Stats.AnalyzeJsonChildren | js/parser.js:266-273 | the child loop folds the update over each child's visits in order |
| Parser.Stats.AnalyzeXmlStructure | js/parser.js:280-299 | the XML walk is the fold over the visits that skip blank-string children |
| Parser.Stats.AnalyzeXmlChildren | js/parser.js:284-295 | the XML child loop folds over the non-skipped children's visits in order |
| Parser.XmlVisits | js/parser.js:280-299 | the XML walk visits the value itself first |
| Parser.StatsFold | js/parser.js:263-299 | over any visits, `elements` grows by their number, as does the sum of arrays, objects and primitives, and the depth is the deepest level |
| Parser.JsonStats | js/parser.js:263-278 | from zero, `elements` = arrays + objects + primitives = the number of values, and `depth` is the tree's height |
| Parser.XmlVisitCount | js/parser.js:280-299 | the XML walk visits no more values than the tree has |
| Parser.XmlWalkIsJsonWalk | js/parser.js:280-299 | without blank-string values, the XML walk is the JSON walk |
| Parser.XmlStats | js/parser.js:280-299 | from zero, `elements` = arrays + objects + primitives, between 1 and the number of values |
| ParserText.EscapeValue | js/parser.js:182-193 | escaping succeeds exactly for strings (`replace` on a non-string throws) and gives the one-pass entity escape |
| ParserText.RemoveRootTagsPlain | js/parser.js:167 | a text with no `<root>` or `</root>` passes the tag removal unchanged |
| ParserText.RemoveBothTags | js/parser.js:167 | both `<root>` and `</root>` are removed around a one-character text |
| ParserText.ObjectToXml | js/parser.js:137-180 | the method with its `xml +=` loop, and the `hasOwnProperty` test on each key, computes `ObjectXml` |
| ParserText.MemberToXml | js/parser.js:149-171 | one key's output is `MemberXml` |
| ParserText.ItemsToXml | js/parser.js:151-154 | the array loop writes each item under the key, in order |
| ParserText.AttributesToXml | js/parser.js:158-162 | the attribute loop writes each escaped attribute, in order |
| ParserText.MembersFailureStays | js/parser.js:144-173 | once a member throws, the whole serialisation fails with that error |
| ParserText.ScalarWrapped | js/parser.js:138-140 | a non-object input is wrapped in the root tags around text that has no markup and unescapes to `String(obj)` |
| ParserText.ScalarMemberWrapped | js/parser.js:169-171 | a scalar member is wrapped in its key's tags around its escaped text |
| ParserText.MembersSucceed | js/parser.js:144-173 | serialising the keys succeeds iff there are none, or the object has no own `hasOwnProperty` key and every member whose key is not `@attributes` or `#text` succeeds; with such a key it throws "obj.hasOwnProperty is not a function" |
| ParserText.OnlySkippedKeys | js/parser.js:146-147 | an object with only `@attributes` and `#text` keys gives the empty text |
| ParserText.TextMustBeString | js/parser.js:164-165 | a member whose `#text` is not a string throws, as `escapeXML` calls `replace` on it |
| ParserText.ObjectItemUnwrapped | js/parser.js:137-180 | an object inside an array loses its wrapper element: its output is its members only |
| ParserText.RootKeyLosesTags | js/parser.js:167 | a nested key named "root" loses its tags, because the removal of root tags is global |
| ParserText.InnerRootText | js/parser.js:169-171 | a top-level key "root" keeps its tags |
| ParserText.CollapseKeepsVisible | js/parser.js:129 | collapsing every `>`, whitespace, `<` run to `><` changes only whitespace between tags |
| ParserText.MinifiedXml | js/parser.js:124-135 | XML minifying succeeds when serialisation does, keeps all non-whitespace text of the serialisation in order, and has no leading or trailing whitespace |
| ParserText.FormatDispatch | js/parser.js:111-135 | formatting succeeds iff the format is json, or xml with a value `ObjectXml` writes without throwing (no `replace` or `hasOwnProperty` TypeError) and that the pretty-printer accepts; minifying succeeds iff the format is json, or xml with a value `ObjectXml` writes; their errors start "Formatting failed: " and "Minification failed: " |
| ParserText.HiddenHasOwnPropertyUnwritten | js/parser.js:111-135 | `{a: {hasOwnProperty: 1}}` fails to format and to minify as xml with the `hasOwnProperty` TypeError |
| ParserText.HiddenExampleXml | js/parser.js:137-180 | writing `{a: {hasOwnProperty: 1}}` throws from the nested key loop |
| ParserText.OneLetterParentUnformatted | js/parser.js:111-122 | formatting `{a: {b: "x"}}` as XML throws "Formatting failed: Invalid count value: -1" |
| ParserText.NestedExampleXml | js/parser.js:137-180 | `{a: {b: "x"}}` is written as `<a><b>x</b></a>` |
| ParserFormat.SkipSpace | js/parser.js:200 | the `\s*` run: every skipped character is white space, and the one it stops at is not |
| ParserFormat.GapAt | js/parser.js:200 | a separator match starts with `>`, ends with `<` and has only white space between |
| ParserFormat.NoGapSplitFrom | js/parser.js:200 | text with no separator splits into itself alone |
| ParserFormat.ScanPast | js/parser.js:200 | positions where no separator starts add no piece |
| ParserFormat.PrintNodes | js/parser.js:200-210 | printing the pieces either fails with "Invalid count value: -1" or writes at least three characters per piece |
| ParserFormat.FormatXml | js/parser.js:195-213 | the only error `formatXML` throws is the `RangeError` "Invalid count value: -1" |
| ParserFormat.FormatXmlLoop | js/parser.js:195-213 | the method computes `FormatXml` |
| ParserFormat.PrintLoop | js/parser.js:200-210 | the `forEach` updating `formatted` and `indent` computes `PrintNodes` |
| ParserFormat.PrintFailsIff | js/parser.js:200-210 | printing fails iff some piece closes a level while the pieces before it have opened no more levels than they closed |
| ParserFormat.PrintFailureAt | js/parser.js:200-210 | a failed printing names a piece that closes a level the pieces before it did not open |
| ParserFormat.PrintFailsAt | js/parser.js:200-210 | a piece that closes a level the pieces before it did not open makes printing fail |
| ParserFormat.FormatFailsIff | js/parser.js:195-213 | `formatXML` throws iff, for some piece, the closing pieces before and at it outnumber the opening pieces before it, and the message is then "Invalid count value: -1" |
| ParserFormat.SinglePieceUnchanged | js/parser.js:195-213 | text with no `>\s*<` that does not start like a closing tag comes back unchanged |
| ParserFormat.OneLetterParentFails | js/parser.js:200-209 | `<a><b>x</b></a>` throws "Invalid count value: -1", because a one-letter element adds no level but its closing tag removes one |
| ParserFormat.ExampleTests | js/parser.js:201-209 | `<a` and `b>x</b` neither open nor close a level, and `/a>` closes one |
| ParserFormat.PrintExample | js/parser.js:200-210 | printing the pieces `<a`, `b>x</b`, `/a>` fails |
| ParserFormat.SplitExample | js/parser.js:200 | `<a><b>x</b></a>` splits into `<a`, `b>x</b` and `/a>` |
| ParserValue.DecimalParts | js/parser.js:101 | a text split as whole "." fraction has only digits on both sides and a non-empty fraction |
| ParserValue.DecimalPartsComplete | js/parser.js:101 | every digits "." digits text is recognised as a decimal |
| ParserValue.ConvertValueKinds | js/parser.js:86-109 | the result is never an array or object; an integer is non-negative; a decimal is non-negative with a normalised fraction; a string result is the trimmed input |
| ParserValue.DigitsBecomeIntegers | js/parser.js:97-99 | an all-digit text becomes the integer it denotes |
| ParserValue.NegativeStaysText | js/parser.js:86-109 | "-5" stays the string "-5" |
| ParserValue.LiteralBack | js/parser.js:91-95 | "true", "false" and "null" become true, false and null |
| ParserValue.NumeralBack | js/parser.js:97-99 | the decimal numeral of a natural converts back to it |
| ParserValue.DecimalBack | js/parser.js:101-103 | the decimal text of a normalised non-negative decimal converts back to it |
| ParserValue.ConvertTrimmed | js/parser.js:89 | converting trimmed text is the same as converting the original |
| ParserValue.ConvertValueStable | js/parser.js:86-109 | converting the `String` of a converted value gives the same value again |
| ParserXml.PutLookup | js/parser.js:71-78 | storing a key makes it read back as the new value and leaves other keys alone |
| ParserXml.PutKeys | js/parser.js:71-78 | storing a new key appends it to the key order and storing an existing key keeps the order |
| ParserXml.PutTwice | js/parser.js:73-77 | storing the same key twice is storing the later value |
| ParserXml.XmlToObject | js/parser.js:46-84 | the method filling the result dictionary in place computes `XmlValue` |
| ParserXml.CollectAttributes | js/parser.js:49-54 | the attribute loop gives the attribute entries in order |
| ParserXml.LiftChild | js/parser.js:56-80 | one child step of the loop is the specified lifting step |
| ParserXml.StoreChild | js/parser.js:67-78 | storing a child element is `AddChild` |
| ParserXml.AddChildLookup | js/parser.js:67-78 | a repeated name whose stored value is truthy collects the values into an array in document order; otherwise the child is stored; other keys are unaffected |
| ParserXml.FalsyOverwritten | js/parser.js:67-78 | a repeat over a falsy stored value overwrites it instead of making an array |
| ParserXml.RepeatsCollected | js/parser.js:67-78 | k children of one name with truthy values give nothing, the one value, or an array of all values in order |
| ParserXml.AttributesRead | js/parser.js:49-54 | each attribute reads back as its string value |
| ParserXml.AttributesLifted | js/parser.js:49-54 | an element with attributes gives an object whose first entry is `@attributes` holding them |
| ParserXml.EmptyElement | js/parser.js:83 | an element with no attributes, child elements or non-blank text gives the empty string |
| ParserXml.LeadingTextReturned | js/parser.js:58-62 | non-blank text arriving before any attribute or stored child is returned at once, converted, and later children are dropped |
| ParserXml.LaterTextStored | js/parser.js:63-65 | non-blank text arriving after something was stored is kept under `#text`, converted |
| ParserXml.ReturnedStays | js/parser.js:61-62 | once text has been returned, later children change nothing |
| ParserXml.NeverArray | js/parser.js:46-84 | an element never lifts to an array |
| TreeView.NodeIdInjective | js/treeview.js:30 | different counters give different node ids |
| TreeView.TreeViewState.constructor | js/treeview.js:2-5 | a new view has no expanded nodes and counter 0 |
| TreeView.TreeViewState.Render | js/treeview.js:7-27 | falsy data shows the empty state and leaves the counter and expanded set untouched; otherwise it clears the expanded set, resets the counter, renders from id 0, and leaves the counter at the number of values |
| TreeView.TreeViewState.CreateTreeNode | js/treeview.js:29-46 | each call consumes exactly one id per value in its subtree (null leaves included) and builds `RenderNode` |
| TreeView.TreeViewState.CreateContainerNode | js/treeview.js:48-107 | an array or object node is built with its children numbered consecutively after it |
| TreeView.ContainerRendered | js/treeview.js:48-107 | a container's node has its id, key, kind, toggle and count, is expanded iff root or in the expanded set, and holds its children's nodes |
| TreeView.RootExpanded | js/treeview.js:31 | the root is always expanded, and its toggle is "expanded" iff it has children |
| TreeView.LeafToggleIffEmpty | js/treeview.js:48-103 | a container's toggle is the leaf toggle iff it is empty, and children are emitted iff it is non-empty, one per item |
| TreeView.NonRootCollapsed | js/treeview.js:21-31 | right after a render, no non-root container is expanded |
| TreeView.RenderChildrenLength | js/treeview.js:64-103 | one child node per item or key |
| TreeView.IdsIncreasing | js/treeview.js:29-107 | the ids in a rendered subtree increase in document order and lie between its first id and that id plus the subtree's size |
| TreeView.ChildIdsIncreasing | js/treeview.js:64-103 | the ids of consecutive siblings' subtrees increase and stay within the parent's range |
| TreeView.RenderIdsDistinct | js/treeview.js:19-30 | within one render, no two nodes get the same id |
| TreeView.NodeStats.constructor | js/treeview.js:295-301 | statistics start at zero |
| TreeView.NodeStats.AnalyzeNode | js/treeview.js:307-320 | the recursive walk is the fold of the update over the pre-order visits |
| TreeView.NodeStats.AnalyzeChildren | js/treeview.js:312-318 | the child loop folds over each child's visits in order |
| TreeView.GetNodeStats | js/treeview.js:294-305 | the statistics are the fold over the whole tree from zero |
| TreeView.NodeStatsFold | js/treeview.js:307-320 | over any visits, `totalNodes` and the sum of objects, arrays and primitives grow by their number, and `maxDepth` is the deepest level |
| TreeView.NodeStatsCount | js/treeview.js:294-320 | `totalNodes` = objects + arrays + primitives = the number of values, and `maxDepth` is the tree's height |
| TreeView.ScalarStats | js/treeview.js:294-320 | a scalar or null gives one node, one primitive and depth 0 |
| JsValues.Trim | js/parser.js:89 | trimming removes exactly the leading and trailing whitespace and is empty iff the text is all whitespace |
| JsValues.ToLower | js/schema.js:262 | lower-casing keeps the length, maps A-Z to a-z and leaves every other character as it is |
| JsValues.Entries | js/schema.js:101 | `Object.entries` throws for null, lists an object's entries, lists an array's items and a string's characters under their index keys, and gives nothing for booleans and numbers |
| JsValues.ParseNatToString | js/parser.js:97-99 | reading back the decimal numeral of a natural gives it back |
| ValueWalk.VisitCount | js/converter.js:167-186 | the pre-order walk visits every value of the tree once |
| ValueWalk.DeepestVisit | js/converter.js:167-186 | the deepest visited level is the start depth plus the tree's height |
| ValueWalk.NestedVisitExists | js/converter.js:173-180 | a container is visited below the root iff some child of the root is a container |

## Left out

- js/app.js, js/visualizer.js, js/fetcher.js and js/samples.js are not part of this model: they are DOM wiring, SVG drawing, network access and static samples.
- `JSON.parse` and `JSON.stringify` are not modelled. They are host functions, so `parseJSON`, `xmlToJson`, the JSON cases of `formatData`/`minifyData` and `getDataStats` (its `size` field is the stringified length) are reduced to those calls.
- `DOMParser` is not modelled. `parseXML` takes an abstract element tree from the host. `validateData` and `validateConversion` only wrap that parser and `JSON.parse`, so they are left out.
- `isDate` and `isUrl` depend on `new Date` and `new URL`, so they are host predicates. The `analyzedAt` timestamp is the host's `now`.
- `generateConversionSummary` and `isNumeric` have no callers in the core.
- `createLeafNode`, `formatValue` and `escapeHtml` build HTML text. The model keeps the node kind, id, key, toggle and children, not the markup.
- The DOM handlers of the tree view are browser-DOM manipulation: `bindEvents`, `expandAll`, `collapseAll`, `searchInTree`, `expandParents`, `clearSearchHighlights`, `exportTreeAsText` and `extractTextFromNode`.
- Numbers are not floating point. `Int` and `Dec` are exact, so `parseFloat`/`parseInt` rounding, exponent notation and `-0` are not modelled.
- Strings are sequences of code points, not UTF-16 code units. Lengths of text with surrogate pairs can differ from `String.length`.
- Object keys are kept in insertion order. The JavaScript rule that integer-like keys come first in `for ... in` and `Object.entries` is not modelled, and duplicate keys cannot occur after `JSON.parse`.
- The unused `level`, `parentTable` and `tableName` parameters are dropped.
- ParserValue.ConvertValueKinds: `convertValue` passes non-string input through unchanged, but every call in the core passes trimmed text, so the model takes a string.
- Parser.ParseDispatch: the host parsers' own error messages are opaque, so the JSON and XML branches are stated as equal to the parser calls rather than by their messages.
- JsValues.ToLower: only A-Z are lower-cased. JavaScript's `toLowerCase` also folds other letters, for example the Kelvin sign U+212A to "k", and maps U+0130 to two code points, so a name such as "\u212Aey" is a primary-key candidate in the browser and not in the model.
- ParserXml.StoreChild: the stored-value test looks only at the entries already stored. In the browser `result[childName]` also finds members inherited from `Object.prototype`: a first child named `constructor`, `toString` or `valueOf` becomes an array holding that function and its value, and `__proto__` replaces the prototype instead of adding a key.
- Converter.Convert: its contract states only the same-format error. What it returns for each pair is stated by ConvertSucceeds, UnsupportedWrapped and JsonToXmlConverts.
