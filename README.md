# csv2rdf in Dafny

A model of `Csvlint::Csvw::Csv2Rdf`, the csvlint class that turns annotated
CSV rows into RDF. It follows the W3C Recommendation "Generating RDF from
Tabular Data on the Web"; the vocabulary is `http://www.w3.org/ns/csvw#`.
A session draws a table group node. It then validates either the one source
(no metadata) or every table of a schema, and turns each row the validator
calls back with into RDF statements.

Modules:

- `Wrappers`, `Seqs`, `Numerals`: `Option` with a keyed lookup, two sequence facts, and decimal
  integer text with its parser.
- `Rdf`: values (IRIs, counter-numbered blank nodes, literals, bare Ruby
  values, `nil`, arrays), statements, parsed JSON, and the vocabulary IRIs.
- `Prefixes`: `expand_prefixes` with `TERMS` and the `NAMESPACES` table.
  Ruby's `gsub` with a `^` anchor is modelled line by line.
- `Escaping`: `URI.escape(name, /[^A-Za-z0-9_.]/)`, which is UTF-8 followed by
  percent-encoding per section 2.1 of RFC 3986, together with its decoder.
- `Coercion`: `value_to_rdf` and the numeric and date/time datatype lists.
- `Tables`: columns, tables, schemas, validator records, and the URI
  operations the class calls.
- `Urls`: the `property` and `value` helpers, the subject of a column, and
  the row URL.
- `Annotations`: `transform_annotation` as a recursive function over the
  JSON value. Its accumulator holds the statements and the next blank node
  number.
- `Rows`: `transform`, `initialize_result` and `transform_data` as functions
  from the session state before a call to the state after it.
- `Sessions`: the constructor's control flow, as functions.
- `Csv2Rdf`: the class. Its methods update the fields in place with loops,
  as the Ruby methods do. Each method is proved to end in the state that the
  functions of `Rows`, `Sessions` and `Annotations` give.
- `Properties`: what the transformation promises, stated about those
  functions.

## Model

| member | source | states |
|---|---|---|
| Csv2Rdf.Csv2Rdf.constructor | lib/csvlint/csvw/csv2rdf.rb:12-44 | the object's fields end as the session: the group node, then single-table or per-table validation runs; prefixes fixed to `expand_prefixes` |
| Csv2Rdf.Csv2Rdf.TransformSource | lib/csvlint/csvw/csv2rdf.rb:19-28 | without metadata, every record of the one run is transformed, then the run's errors and warnings are added to the session's own |
| Csv2Rdf.Csv2Rdf.TransformTables | lib/csvlint/csvw/csv2rdf.rb:33-42 | each schema table handled in order, in place |
| Csv2Rdf.Csv2Rdf.TransformTable | lib/csvlint/csvw/csv2rdf.rb:34-41 | a table's URL becomes the source and the row count and columns restart; a suppressed table's records are dropped; the run's errors and warnings become warnings |
| Csv2Rdf.Csv2Rdf.TransformRun | lib/csvlint/csvw/csv2rdf.rb:26 | the validator's callback: `transform` on each record in order |
| Csv2Rdf.Csv2Rdf.Transform | lib/csvlint/csvw/csv2rdf.rb:47-69 | a blank record adds the blank_rows/structure error; otherwise columns are set up while empty, and rows past the header rows go to `TransformRow` |
| Csv2Rdf.Csv2Rdf.TransformRow | lib/csvlint/csvw/csv2rdf.rb:53-64 | a counted row node, the row's data, then the statements that describe the row |
| Csv2Rdf.Csv2Rdf.WriteRowTriples | lib/csvlint/csvw/csv2rdf.rb:57-63 | appends row membership, `Row` type, rownum, url, and one `describes` per subject, in that order |
| Csv2Rdf.Csv2Rdf.InitializeResult | lib/csvlint/csvw/csv2rdf.rb:71-121 | folds the record's errors in, then the header or schema branch |
| Csv2Rdf.Csv2Rdf.AddHeaderColumns | lib/csvlint/csvw/csv2rdf.rb:77-79 | appends one column per header cell, column i numbered i+1 and named by cell i |
| Csv2Rdf.Csv2Rdf.AddGeneratedColumns | lib/csvlint/csvw/csv2rdf.rb:106-114 | appends `count` columns named `_col.(declared+i+1)` |
| Csv2Rdf.Csv2Rdf.SetRowTitles | lib/csvlint/csvw/csv2rdf.rb:116-118 | the row titles are the title columns' `name \|\| default_name`, in order |
| Csv2Rdf.Csv2Rdf.IntroduceTable | lib/csvlint/csvw/csv2rdf.rb:82-84 | appends the table's group membership, its `Table` type and its url |
| Csv2Rdf.Csv2Rdf.WriteSchemaTable | lib/csvlint/csvw/csv2rdf.rb:90-103 | the group's annotations, and unless the table is suppressed its own statements, annotations and notes |
| Csv2Rdf.Csv2Rdf.AnnotateAll | lib/csvlint/csvw/csv2rdf.rb:91-93 | each annotation in order, about the given subject |
| Csv2Rdf.Csv2Rdf.TransformAnnotation | lib/csvlint/csvw/csv2rdf.rb:187-217 | the recursive emitter, in place, ends in the state `Annotations.Emit` gives |
| Csv2Rdf.Csv2Rdf.BindCells | lib/csvlint/csvw/csv2rdf.rb:124-140 | the loop's bindings equal `CellValues` over every column |
| Csv2Rdf.Csv2Rdf.CoerceAll | lib/csvlint/csvw/csv2rdf.rb:130-134 | a cell with several values becomes their coerced array |
| Csv2Rdf.Csv2Rdf.TransformData | lib/csvlint/csvw/csv2rdf.rb:123-185 | state and returned subjects equal `Rows.TransformData` |
| Csv2Rdf.Csv2Rdf.WriteTitles | lib/csvlint/csvw/csv2rdf.rb:144-146 | one `title` statement per row title name, with its bound value |
| Csv2Rdf.Csv2Rdf.WriteColumns | lib/csvlint/csvw/csv2rdf.rb:148-182 | the column loop in place; its statements, node counter and subjects match `EmitColumns` |
| Csv2Rdf.Csv2Rdf.WriteValue | lib/csvlint/csvw/csv2rdf.rb:167-180 | appends the value's statements and draws one node per collection item |
| Csv2Rdf.Csv2Rdf.WriteList | lib/csvlint/csvw/csv2rdf.rb:168-174 | the subject links to the collection head, then first/rest statements, one new node per item |
| Csv2Rdf.Csv2Rdf.WriteEach | lib/csvlint/csvw/csv2rdf.rb:176-178 | one statement per element, same subject and property |
| Sessions.Start | lib/csvlint/csvw/csv2rdf.rb:13-21 | node 0 is the table group; it is typed `csvw:TableGroup` unless output is minimal; nothing else is recorded |
| Properties.SessionStarts | lib/csvlint/csvw/csv2rdf.rb:19-31 | in either mode the group is node 0; outside minimal mode the first statement types it `TableGroup` |
| Properties.SingleTableReports | lib/csvlint/csvw/csv2rdf.rb:19-28 | without metadata the run's errors end the error list, warnings gain the run's warnings, and rownum counts the data rows |
| Properties.TableStepReports | lib/csvlint/csvw/csv2rdf.rb:33-41 | per table: source becomes the URL; warnings gain the run's errors then warnings; a suppressed table adds no statements, nodes or errors; otherwise rownum counts its data rows |
| Properties.EachTableGrows | lib/csvlint/csvw/csv2rdf.rb:33-42 | over the schema loop, statements, errors and warnings only grow and the group node stays |
| Properties.TransformStep | lib/csvlint/csvw/csv2rdf.rb:47-69 | blank record: only the blank_rows error is added; columns already set: columns, titles, table and errors kept; rows at or before the header count change rownum by 0, later rows by 1 |
| Properties.TransformAllCounts | lib/csvlint/csvw/csv2rdf.rb:52-53 | after a run, rownum rose by exactly the number of data rows; statements and errors only grew |
| Properties.MinimalTransform | lib/csvlint/csvw/csv2rdf.rb:47-146 | in minimal mode a record adds exactly the per-column data statements of its row, and nothing else |
| Properties.MinimalKeepsData | lib/csvlint/csvw/csv2rdf.rb:144-146 | minimal and full mode make the same data statements, nodes and subjects; full mode adds only the title statements before them |
| Properties.InitializeResultFrame | lib/csvlint/csvw/csv2rdf.rb:71-121 | set-up adds the record's errors and changes only columns, titles, table, statements and nodes; minimal mode adds no statements |
| Properties.InitializedFrame | lib/csvlint/csvw/csv2rdf.rb:49-51 | set-up happens only while the columns are empty, and leaves the state alone otherwise |
| Properties.HeaderSetup | lib/csvlint/csvw/csv2rdf.rb:75-79 | without a schema, column i is numbered i+1 and named by header cell i; there are no row titles |
| Properties.SchemaSetup | lib/csvlint/csvw/csv2rdf.rb:105-118 | a table without columns gets `_col.1`..`_col.n`; otherwise its columns, then `_col.(k+i+1)` for the header cells past k; the row titles are `name \|\| default_name` |
| Properties.SchemaTableFrame | lib/csvlint/csvw/csv2rdf.rb:87-103 | the table node and the statements are the only things that change; minimal mode adds no statements |
| Properties.RowBindings | lib/csvlint/csvw/csv2rdf.rb:141-142 | `_row` is the row number and `_sourceRow` the source line; every other key keeps its cell binding |
| Properties.ColumnBindings | lib/csvlint/csvw/csv2rdf.rb:153-155 | `_column` and `_sourceColumn` are the 0-based index, `_name` the column name; other keys unchanged |
| Properties.CellValuesLastWins | lib/csvlint/csvw/csv2rdf.rb:125-139 | a name is bound to the coerced cell of the last column with that name and a present cell |
| Properties.CellValuesUnbound | lib/csvlint/csvw/csv2rdf.rb:126 | a name whose cells are all missing is unbound (`nil`) |
| Properties.UnboundColumnSilent | lib/csvlint/csvw/csv2rdf.rb:160-167 | a column whose own value is nil, and that is not virtual when it has a value URL, adds no statements and no nodes |
| Properties.ValueTriplesShape | lib/csvlint/csvw/csv2rdf.rb:167-180 | nil gives nothing; an ordered list column gives the link to the collection's head followed by exactly the collection's statements (first and rest for each node, see `ListLinks`); others give one statement per element of `Array(value)` |
| Properties.ListLinks | lib/csvlint/csvw/csv2rdf.rb:169-174 | node j of the collection holds item j, and its rest is node j+1, or `rdf:nil` for the last |
| Properties.EmitColumnsCount | lib/csvlint/csvw/csv2rdf.rb:150-158 | each non-suppressed column adds exactly one subject; suppressed ones add none |
| Properties.EmitColumnsSuppressed | lib/csvlint/csvw/csv2rdf.rb:151 | when every column is suppressed the loop changes nothing |
| Properties.EmitColumnsData | lib/csvlint/csvw/csv2rdf.rb:150-181 | the loop writes exactly the statements of the columns it does not suppress, in column order, each from the row's bindings plus its own column keys, with collections numbered on from the loop's counter; the counter ends past them |
| Properties.EmitColumnsDataStep | lib/csvlint/csvw/csv2rdf.rb:151-181 | a suppressed column writes nothing and draws no node; any other writes what it would write from the row's bindings, whatever columns came before |
| Properties.RowDataStatements | lib/csvlint/csvw/csv2rdf.rb:144-181 | `transform_data` appends the row titles (unless minimal) and then exactly the visible columns' statements, whose collections take the nodes after the row subject node |
| Properties.EmitColumnsSubjectKinds | lib/csvlint/csvw/csv2rdf.rb:150-158 | a value is among the loop's subjects exactly when it is the subject (`aboutUrl` expansion, else the row node) of some column that is not suppressed |
| Properties.EmitColumnsSubjects | lib/csvlint/csvw/csv2rdf.rb:150-158 | the loop's subjects, in order, are the visible columns' subjects, each worked out from the row's bindings plus that column's `_column`, `_sourceColumn` and `_name` |
| Properties.EmitColumnsValues | lib/csvlint/csvw/csv2rdf.rb:153-155 | whatever columns came before, a column sees the row's bindings with only its own three column keys rebound |
| Properties.VisibleSubjectsMembers | lib/csvlint/csvw/csv2rdf.rb:151-158 | a value is a visible columns' subject exactly when some non-suppressed column has it as subject |
| Properties.EmitColumnsShareRow | lib/csvlint/csvw/csv2rdf.rb:157-158 | a visible column without `aboutUrl` contributes the shared row node |
| Properties.EmitColumnsGrow | lib/csvlint/csvw/csv2rdf.rb:150-182 | the column loop only appends statements and subjects, and the node counter never goes back |
| Properties.RowSubjects | lib/csvlint/csvw/csv2rdf.rb:148-184 | the returned subjects are distinct, and a value is among them exactly when it is the subject of a non-suppressed column; each is the row node or an IRI; the row node is among them when a visible column lacks `aboutUrl`; none when every column is suppressed |
| Properties.TransformDataFrame | lib/csvlint/csvw/csv2rdf.rb:123-185 | `transform_data` changes only the statements (appended) and draws at least the row subject node |
| Properties.DataRowFrame | lib/csvlint/csvw/csv2rdf.rb:53-64 | a data row advances rownum by one, sets the row node to the next blank node, and otherwise only adds statements and nodes |
| Urls.Property | lib/csvlint/csvw/csv2rdf.rb:219-229 | with a property URL, the expanded, prefix-expanded and joined template; otherwise the source joined with `#` and the escape of the column's fallback name |
| Urls.FallbackFragment | lib/csvlint/csvw/csv2rdf.rb:225-226 | that fragment is made of `[A-Za-z0-9_.%]` only and decodes back to the fallback name |
| Urls.ObjectUrl | lib/csvlint/csvw/csv2rdf.rb:231-240 | nil exactly when the column's value is nil and it is not virtual; otherwise the joined template, prefix-expanded unless compact |
| Urls.Subject | lib/csvlint/csvw/csv2rdf.rb:157 | the joined `aboutUrl` expansion, else the row node; what this means for a row's subjects is stated by `Properties.RowSubjects` |
| Urls.RowUrl | lib/csvlint/csvw/csv2rdf.rb:60 | the source, then `#row=`, then text that parses back to the current line |
| Escaping.EscapeRoundTrip | lib/csvlint/csvw/csv2rdf.rb:226 | percent-decoding the escaped name gives the name back |
| Escaping.EscapeInjective | lib/csvlint/csvw/csv2rdf.rb:226 | distinct column names give distinct fallback fragments |
| Escaping.Escape | lib/csvlint/csvw/csv2rdf.rb:226 | only `[A-Za-z0-9_.]` and `%` appear; the text keeps its length exactly when every character is unreserved, and is then the name itself |
| Escaping.EscapeConcat | lib/csvlint/csvw/csv2rdf.rb:226 | escaping goes character by character: the escape of `a + b` is the escape of `a` then that of `b` |
| Escaping.EscapeChar | lib/csvlint/csvw/csv2rdf.rb:226 | an unreserved character stays as it is; any other becomes `%XX` for each byte of its UTF-8 encoding |
| Escaping.PercentBytes | lib/csvlint/csvw/csv2rdf.rb:226 | three characters per byte, the `i`th three being the escape of byte `i` |
| Escaping.PercentByte | lib/csvlint/csvw/csv2rdf.rb:226 | `%` then two upper-case hexadecimal digits whose values are the byte's high and low halves |
| Escaping.HexDigit | lib/csvlint/csvw/csv2rdf.rb:226 | the digit of a value below 16: `0`-`9` below ten, upper-case `A`-`F` above, and it reads back as that value |
| Escaping.Utf8 | lib/csvlint/csvw/csv2rdf.rb:226 | the shortest UTF-8 form: one byte below U+0080, two below U+0800, three below U+10000, else four |
| Escaping.Utf8Encodes | lib/csvlint/csvw/csv2rdf.rb:226 | the bytes escaped for a character are its well-formed UTF-8 encoding |
| Numerals.IntRoundTrip | lib/csvlint/csvw/csv2rdf.rb:60 | an integer's decimal text parses back to it |
| Coercion.NativeValues | lib/csvlint/csvw/csv2rdf.rb:242-257 | the value comes back unwrapped exactly for an invalid cell (its raw text) or a non-float with base xsd:boolean |
| Coercion.SpecialFloats | lib/csvlint/csvw/csv2rdf.rb:244-250 | NaN, +infinity and -infinity become "NaN", "INF" and "-INF", typed with the column datatype |
| Coercion.NumericAndDatetime | lib/csvlint/csvw/csv2rdf.rb:254-259 | a numeric base gives the value typed with `datatype`; a date/time base gives its `:string` typed with `datatype` |
| Coercion.StringColumn | lib/csvlint/csvw/csv2rdf.rb:260-262 | an xsd:string base is typed only when `datatype` differs; otherwise the literal carries the language, dropping "und" |
| Coercion.LiteralTags | lib/csvlint/csvw/csv2rdf.rb:242-265 | a typed literal's type is always `datatype` and never the base; a language tag arises only for an xsd:string base with the same datatype, and never "und" |
| Coercion.TextValues | lib/csvlint/csvw/csv2rdf.rb:260-264 | string and other non-numeric, non-date/time bases are written with the value's `to_s`; any base but xsd:boolean and xsd:string gives exactly that text typed with `datatype` |
| Coercion.KindsDisjoint | lib/csvlint/csvw/csv2rdf.rb:326-355 | xsd:boolean and xsd:string are in neither datatype list |
| Coercion.NumericNotDatetime | lib/csvlint/csvw/csv2rdf.rb:326-355 | no datatype is both numeric and date/time |
| Coercion.InXsdMember | lib/csvlint/csvw/csv2rdf.rb:326-355 | an XSD IRI is in a list exactly when its local name is |
| Prefixes.ExpandPrefixes | lib/csvlint/csvw/csv2rdf.rb:268-269 | a name in `TERMS` maps to the csvw namespace plus the name |
| Prefixes.ExpandKnownPrefix | lib/csvlint/csvw/csv2rdf.rb:268-320 | a leading `p:` for a prefix of the table is replaced by its namespace |
| Prefixes.ExpandUnknown | lib/csvlint/csvw/csv2rdf.rb:268-274 | a single-line name that is not a term and has no known leading prefix is unchanged |
| Prefixes.TermsHaveNoColon | lib/csvlint/csvw/csv2rdf.rb:322-324 | no term contains `:`, so a term never also has a leading prefix |
| Prefixes.NamespacesWellFormed | lib/csvlint/csvw/csv2rdf.rb:278-320 | every prefix is free of `:` and newlines, and every namespace is a one-line IRI starting with `http:` |
| Prefixes.SubstituteLeading | lib/csvlint/csvw/csv2rdf.rb:270-272 | folding the table over `p:rest` gives the namespace of `p` plus `rest` when `p` is known, else the input unchanged |
| Annotations.EmitShapes | lib/csvlint/csvw/csv2rdf.rb:187-217 | an `@id` object gives exactly one statement to that IRI; an `@value` object exactly one literal; another object first links a fresh node; a scalar gives exactly one statement |
| Annotations.ValueLiteral | lib/csvlint/csvw/csv2rdf.rb:193-198 | the literal is typed with the expanded `@type`, else tagged with `@language`, else plain |
| Annotations.FlatObject | lib/csvlint/csvw/csv2rdf.rb:199-208 | an object without `@id` or `@value` whose members are `@type` or scalars gives the link to one fresh node, then exactly one statement per member about that node, `rdf:type` with the expanded IRI for `@type` |
| Annotations.EmitFlatMembers | lib/csvlint/csvw/csv2rdf.rb:202-208 | such members give exactly one statement each about the node, in member order, and draw no node |
| Annotations.EmitScalarItems | lib/csvlint/csvw/csv2rdf.rb:210-213 | an array of scalars gives one statement per element, in order, with the same subject and property |
| Annotations.Term | lib/csvlint/csvw/csv2rdf.rb:188 | a property that is not already a resource is prefix-expanded |
| Annotations.EmitExtends | lib/csvlint/csvw/csv2rdf.rb:187-217 | the emitter only appends statements and only advances the node counter |
| Annotations.EmitScoped | lib/csvlint/csvw/csv2rdf.rb:187-217 | every new statement is about the given subject or a node drawn during the call, and mentions only nodes drawn so far |
| Annotations.EmitAnnotationsExtends | lib/csvlint/csvw/csv2rdf.rb:91-100 | emitting a list of annotations only appends |
| Rows.Distinct | lib/csvlint/csvw/csv2rdf.rb:184 | the same members, with no repeats |
| Rows.DistinctPrefix | lib/csvlint/csvw/csv2rdf.rb:184 | `uniq` keeps first occurrences in order: the result for a prefix of the list is a prefix of the result |
| Wrappers.Find | lib/csvlint/csvw/csv2rdf.rb:87 | `hash[key]` (here `schema.tables[@source]`, and `value["@id"]` and the like): a value is found exactly when some entry has the key, and it is that entry's value |

## Left out

- The validator (CSV parsing, dialects, encodings, HTTP fetches) is a function from a URL to its run. A run is the records it calls back with, plus the errors and warnings it reports at the end. Schema loading is likewise outside the model: the schema is a given value.
- URI-template expansion (RFC 6570) and `URI.join` (section 5.2 of RFC 3986) are function parameters whose internals are unmodelled. Prefix expansion is fixed to `Prefixes.ExpandPrefixes` by the constructor.
- `RDF::Graph` is a set. The model keeps the statements as a sequence in the order they are added, so duplicates are not merged.
- What `RDF::List` builds is modelled as the standard RDF collection: one new node per item, linked by `rdf:first` and `rdf:rest` and ending in `rdf:nil`. The library's own node numbering is not modelled.
- `RDF::Node.new` draws from a counter. `Blank(n)` is the n-th node of the session.
- Literal lexical forms are the RDF library's job. A literal records the Ruby object it is made from.
- Floats are a four-way case split: NaN, the two infinities, and a finite number with its text.
- A date/time column whose cell is not a parsed hash would raise in Ruby. The model gives it empty text.
- A schema without a table for the source makes Ruby fail on `nil`. The model states this as a precondition instead (`Covers`, `TablesCovered`).
- A JSON array or object used where text is expected (`@id`, `@type`, `@language`) becomes empty text in the model.
- A JSON number or boolean given as `@type` makes `expand_prefixes` fail in Ruby (lines 195 and 204 call `gsub` on it). The model instead expands its text and carries on; this error path is not modelled.
- A Ruby hash (a JSON object, the schema's tables) is modelled as its entries in order, and its keys are taken to be distinct as they are in Ruby. With a repeated key, lookups would see the first entry while `each` would visit both.
- Header cells beyond the declared columns are numbered i+1 counting from the first remainder cell, as the code writes them (line 113). Their names do count on from k.
- In schema mode, the errors found while the columns are set up (lines 72-74), and blank-row errors (line 67), go to the error list. Only the errors and warnings the validator reports at the end become warnings. This follows the code, not the wider claim that schema-mode errors are all reported as warnings.
- Language tags are compared and kept exactly as given: no case folding.
- `ErrorCollector`: an error is a (type, category) pair appended to a list. Its other fields (row, column, content) are not modelled.
- The `validate` option and the dialect argument are only passed to the validator, so they are not part of the model.
