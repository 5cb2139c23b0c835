/**
 * The transformation of one table's rows (`transform`, `initialize_result`,
 * `transform_data`) as functions from the session state before a call to the
 * state after it. The class in `csv2rdf.dfy` performs the same steps in place
 * and is proved to end in these states.
 */
module Rows {
  import opened Wrappers
  import opened Rdf
  import opened Tables
  import Coercion
  import Urls
  import Annotations

  /** The fields of a transformation session. */
  datatype State = State(
    result: seq<Triple>,
    next: nat,
    source: string,
    tableGroup: Value,
    table: Value,
    row: Value,
    rownum: int,
    columns: seq<Column>,
    rowTitles: seq<Option<string>>,
    errors: seq<Message>,
    warnings: seq<Message>)

  /** The options fixed for a session: minimal output, and the URI operations. */
  datatype Config = Config(minimal: bool, ops: UriOps)

  const BLANK_ROW := Message("blank_rows", "structure")

  /** A validator record can be handled for `source`: when it carries a schema, the schema has a table for `source`. */
  predicate Covers(v: RowRecord, source: string) {
    v.schema.Some? ==> TableFor(v.schema.value.tables, source).Some?
  }

  // initialize_result

  /** The columns of a table without metadata: one per header cell, numbered from 1 and named by the cell. */
  function HeaderColumns(header: seq<Option<string>>): (r: seq<Column>)
    ensures |r| == |header|
    ensures forall i :: 0 <= i < |r| ==> r[i] == DefaultColumn(i + 1, header[i])
  {
    seq(|header|, i requires 0 <= i < |header| => DefaultColumn(i + 1, header[i]))
  }

  /**
   * `count` generated columns for header cells beyond the `declared` ones:
   * numbered from 1, named `_col.(declared + 1)` onwards.
   */
  function GeneratedColumns(declared: nat, count: nat): (r: seq<Column>)
    ensures |r| == count
    ensures forall i :: 0 <= i < count ==> r[i] == DefaultColumn(i + 1, Some(GeneratedName(declared + i + 1)))
  {
    seq(count, i requires 0 <= i < count => DefaultColumn(i + 1, Some(GeneratedName(declared + i + 1))))
  }

  /** `v.data[0][declared..-1]`: the header cells beyond the declared columns, none when there are fewer. */
  function Remainder(header: seq<Option<string>>, declared: nat): nat {
    if |header| > declared then |header| - declared else 0
  }

  /** The names of the row title columns. */
  function TitleNames(cs: seq<Column>): (r: seq<Option<string>>)
    ensures |r| == |cs|
    ensures forall i :: 0 <= i < |cs| ==> r[i] == ColumnName(cs[i])
  {
    seq(|cs|, i requires 0 <= i < |cs| => ColumnName(cs[i]))
  }

  /** The three statements that introduce a table into its group. */
  function TableTriples(tableGroup: Value, table: Value, source: string): seq<Triple> {
    [Triple(tableGroup, Csvw("table"), table),
     Triple(table, RDF_TYPE, Csvw("Table")),
     Triple(table, Csvw("url"), Iri(source))]
  }

  /** The statements of a schema table: its group's annotations, then, unless suppressed, itself, its annotations and notes. */
  function SchemaTableOutput(prefixes: string -> string, acc: Annotations.Acc, tableGroup: Value, table: Value, source: string,
                             schema: Schema, t: Table): Annotations.Acc
  {
    var grouped := Annotations.EmitAnnotations(prefixes, acc, tableGroup, schema.annotations, |schema.annotations|);
    if t.suppressOutput then grouped
    else
      var introduced := Annotations.Acc(grouped.triples + TableTriples(tableGroup, table, source), grouped.next);
      var annotated := Annotations.EmitAnnotations(prefixes, introduced, table, t.annotations, |t.annotations|);
      if |t.notes| == 0 then annotated
      else Annotations.Emit(prefixes, annotated, table, Annotations.Resource(Csvw("note")), JArray(t.notes))
  }

  /** `initialize_result(v)`: the record's errors are kept, then the columns come from the header or from the schema. */
  function InitializeResult(cfg: Config, st: State, v: RowRecord): State
    requires Covers(v, st.source)
  {
    var kept := st.(errors := st.errors + v.errors);
    if v.schema.None? then HeaderInit(cfg, kept, v.header) else SchemaInit(cfg, kept, v.header, v.schema.value)
  }

  /** Without a schema: a column per header cell, a new table node, and the table's statements unless output is minimal. */
  function HeaderInit(cfg: Config, st: State, header: seq<Option<string>>): State {
    var table := Blank(st.next);
    st.(columns := st.columns + HeaderColumns(header), table := table, next := st.next + 1,
        result := st.result + (if cfg.minimal then [] else TableTriples(st.tableGroup, table, st.source)),
        rowTitles := [])
  }

  /** With a schema, the table node (its `@id`, else a new blank node) and, unless output is minimal, the schema's statements. */
  function SchemaTable(cfg: Config, st: State, schema: Schema, t: Table): State {
    var table := if t.id.Some? then Iri(t.id.value) else Blank(st.next);
    var next := if t.id.Some? then st.next else st.next + 1;
    var out := if cfg.minimal then Annotations.Acc(st.result, next)
               else SchemaTableOutput(cfg.ops.prefixes, Annotations.Acc(st.result, next), st.tableGroup, table, st.source, schema, t);
    st.(table := table, result := out.triples, next := out.next)
  }

  /** The declared columns then generated ones for the remaining header cells, and the row title names. */
  function SchemaColumns(st: State, header: seq<Option<string>>, t: Table): State {
    st.(columns := if |t.columns| == 0 then st.columns + GeneratedColumns(0, |header|)
                   else t.columns + GeneratedColumns(|t.columns|, Remainder(header, |t.columns|)),
        rowTitles := if t.rowTitleColumns.Some? then TitleNames(t.rowTitleColumns.value) else [])
  }

  /** With a schema: the table of the schema for the source, then its columns. */
  function SchemaInit(cfg: Config, st: State, header: seq<Option<string>>, schema: Schema): State
    requires TableFor(schema.tables, st.source).Some?
  {
    var t := TableFor(schema.tables, st.source).value;
    SchemaColumns(SchemaTable(cfg, st, schema, t), header, t)
  }

  // transform_data

  /** What a column's cell is bound to: its value, or the list of its values, coerced to RDF. */
  function CellObject(column: Column, entry: Entry): (r: Value)
    requires !entry.Missing?
    ensures entry.Several? ==> r.Many? && |r.items| == |entry.cells|
  {
    var dt, base := DatatypeOf(column), BaseType(column);
    if entry.Single? then Coercion.ValueToRdf(entry.cell, dt, base, column.lang)
    else Many(seq(|entry.cells|, j requires 0 <= j < |entry.cells| => Coercion.ValueToRdf(entry.cells[j], dt, base, column.lang)))
  }

  /** `data[i]`, which Ruby reads as `nil` beyond the end of the row. */
  function EntryAt(data: seq<Entry>, i: nat): Entry {
    if i < |data| then data[i] else Missing
  }

  /** The bindings made by the first `k` columns: each present cell under its column's name, a later column overwriting an earlier one. */
  function CellValues(columns: seq<Column>, data: seq<Entry>, k: nat): Bindings
    requires k <= |columns|
  {
    if k == 0 then map[]
    else
      var values := CellValues(columns, data, k - 1);
      var entry := EntryAt(data, k - 1);
      if entry.Missing? then values
      else values[ColumnName(columns[k - 1]) := CellObject(columns[k - 1], entry)]
  }

  /** The bindings a row's templates see before its columns are visited. */
  function RowValues(columns: seq<Column>, data: seq<Entry>, rownum: int, sourceRow: int): Bindings {
    CellValues(columns, data, |columns|)[Some("_row") := IntValue(rownum)][Some("_sourceRow") := IntValue(sourceRow)]
  }

  /** The title statements of the first `k` row title columns. */
  function TitleTriples(row: Value, values: Bindings, titles: seq<Option<string>>, k: nat): (r: seq<Triple>)
    requires k <= |titles|
    ensures |r| == k
    ensures forall j :: 0 <= j < k ==> r[j] == Triple(row, Csvw("title"), Lookup(values, titles[j]))
  {
    if k == 0 then [] else TitleTriples(row, values, titles, k - 1) + [Triple(row, Csvw("title"), Lookup(values, titles[k - 1]))]
  }

  /** The `j`th statement of an RDF collection whose nodes are numbered from `base`. */
  function ListStatement(items: seq<Value>, base: nat, j: nat): Triple
    requires j < 2 * |items|
  {
    var node := Blank(base + j / 2);
    if j % 2 == 0 then Triple(node, RDF_FIRST, items[j / 2])
    else Triple(node, RDF_REST, if j / 2 + 1 < |items| then Blank(base + j / 2 + 1) else RDF_NIL)
  }

  /** The head of an RDF collection of `items` whose nodes are numbered from `base`. */
  function ListHead(items: seq<Value>, base: nat): Value {
    if |items| == 0 then RDF_NIL else Blank(base)
  }

  /** The statements of the collection, first and rest for each node in turn. */
  function ListStatements(items: seq<Value>, base: nat): (r: seq<Triple>)
    ensures |r| == 2 * |items|
    ensures forall j :: 0 <= j < |r| ==> r[j] == ListStatement(items, base, j)
  {
    seq(2 * |items|, j requires 0 <= j < 2 * |items| => ListStatement(items, base, j))
  }

  /** One statement per element of `Array(value)`, in order. */
  function EachTriples(subject: Value, property: Value, items: seq<Value>): (r: seq<Triple>)
    ensures |r| == |items|
    ensures forall j :: 0 <= j < |items| ==> r[j] == Triple(subject, property, items[j])
  {
    seq(|items|, j requires 0 <= j < |items| => Triple(subject, property, items[j]))
  }

  /** What the column loop of `transform_data` carries: the statements written, the node counter, the bindings and the subjects. */
  datatype DataAcc = DataAcc(triples: seq<Triple>, next: nat, values: Bindings, subjects: seq<Value>)

  /** The bindings while column `i` is visited. */
  function ColumnValues(values: Bindings, column: Column, i: nat): Bindings {
    values[Some("_column") := IntValue(i)][Some("_sourceColumn") := IntValue(i)][Some("_name") := NameValue(ColumnName(column))]
  }

  /** The object of a column's statements: from its value URL, else the column's bound value. */
  function ColumnObject(ops: UriOps, source: string, column: Column, values: Bindings, property: Value): Value
    requires property.Iri?
  {
    if column.valueUrl.Some? then Urls.ObjectUrl(ops, source, column, values, property.iri == "@type")
    else Lookup(values, ColumnName(column))
  }

  /** Whether a column's values form an RDF collection: it has a separator and is ordered. */
  predicate IsList(column: Column) {
    column.separator.Some? && column.ordered
  }

  /** The statements for a column's object: none for `nil`, a collection, or one per element of `Array(value)`. */
  function ValueTriples(subject: Value, property: Value, value: Value, list: bool, base: nat): seq<Triple> {
    if value == Nil then []
    else if list then [Triple(subject, property, ListHead(ArrayOf(value), base))] + ListStatements(ArrayOf(value), base)
    else EachTriples(subject, property, ArrayOf(value))
  }

  /** The blank nodes a column's collection draws. */
  function ValueNodes(value: Value, list: bool): nat {
    if value != Nil && list then |ArrayOf(value)| else 0
  }

  /** What visiting a column writes, given the bindings so far and the next blank node number. */
  datatype Visit = Visit(triples: seq<Triple>, nodes: nat, values: Bindings, subject: Value)

  /** A column that is not suppressed: its bindings, subject, predicate and object, and the statements they make. */
  function ColumnVisit(ops: UriOps, source: string, values: Bindings, column: Column, i: nat, rowSubject: Value, base: nat): Visit {
    var values' := ColumnValues(values, column, i);
    var subject := Urls.Subject(ops, source, column, values', rowSubject);
    var property := Urls.Property(ops, source, column, values');
    var value := ColumnObject(ops, source, column, values', property);
    Visit(ValueTriples(subject, property, value, IsList(column), base), ValueNodes(value, IsList(column)), values', subject)
  }

  /** Visiting column `i`, whose row node is `rowSubject`: nothing at all for a suppressed column. */
  function EmitColumn(ops: UriOps, source: string, acc: DataAcc, column: Column, i: nat, rowSubject: Value): DataAcc {
    if column.suppressOutput then acc
    else
      var w := ColumnVisit(ops, source, acc.values, column, i, rowSubject, acc.next);
      DataAcc(acc.triples + w.triples, acc.next + w.nodes, w.values, acc.subjects + [w.subject])
  }

  /** The first `k` columns visited. */
  function EmitColumns(ops: UriOps, source: string, acc: DataAcc, columns: seq<Column>, k: nat, rowSubject: Value): DataAcc
    requires k <= |columns|
  {
    if k == 0 then acc
    else EmitColumn(ops, source, EmitColumns(ops, source, acc, columns, k - 1, rowSubject), columns[k - 1], k - 1, rowSubject)
  }

  /** `subjects.uniq`: the first occurrence of each, in order. */
  function Distinct(xs: seq<Value>): (r: seq<Value>)
    ensures forall x :: x in r <==> x in xs
    ensures forall i, j :: 0 <= i < j < |r| ==> r[i] != r[j]
  {
    if |xs| == 0 then []
    else
      var before := Distinct(xs[..|xs| - 1]);
      assert forall x :: x in xs <==> x in xs[..|xs| - 1] || x == xs[|xs| - 1];
      if xs[|xs| - 1] in before then before else before + [xs[|xs| - 1]]
  }

  /**
   * `uniq` keeps first occurrences in order: the distinct elements of a
   * prefix of `xs` come first, in the same order, among those of `xs`.
   */
  lemma {:induction false} DistinctPrefix(xs: seq<Value>, n: nat)
    requires n <= |xs|
    ensures Distinct(xs[..n]) <= Distinct(xs)
    decreases |xs|
  {
    if n < |xs| {
      var init := xs[..|xs| - 1];
      DistinctPrefix(init, n);
      assert init[..n] == xs[..n];
    } else {
      assert xs[..n] == xs;
    }
  }

  /** The column loop of a row started from nothing, so that it is the same in minimal and full output. */
  function RowData(ops: UriOps, st: State, data: seq<Entry>, sourceRow: int): DataAcc {
    var values := RowValues(st.columns, data, st.rownum, sourceRow);
    EmitColumns(ops, st.source, DataAcc([], st.next + 1, values, []), st.columns, |st.columns|, Blank(st.next))
  }

  /** `transform_data(data, sourceRow)`: the new state and the row's distinct subjects. */
  function TransformData(cfg: Config, st: State, data: seq<Entry>, sourceRow: int): (State, seq<Value>) {
    var values := RowValues(st.columns, data, st.rownum, sourceRow);
    var titles := if cfg.minimal then [] else TitleTriples(st.row, values, st.rowTitles, |st.rowTitles|);
    var acc := RowData(cfg.ops, st, data, sourceRow);
    (st.(result := st.result + titles + acc.triples, next := acc.next), Distinct(acc.subjects))
  }

  // transform

  /** The statements that describe a row: its table membership, type, number, URL, and what it describes. */
  function RowTriples(table: Value, row: Value, rownum: int, url: string, subjects: seq<Value>): seq<Triple> {
    [Triple(table, Csvw("row"), row), Triple(row, RDF_TYPE, Csvw("Row")),
     Triple(row, Csvw("rownum"), IntValue(rownum)), Triple(row, Csvw("url"), Iri(url))] +
    EachTriples(row, Csvw("describes"), subjects)
  }

  /** The state once the columns are set up: `initialize_result` runs only while there are none. */
  function Initialized(cfg: Config, st: State, v: RowRecord): State
    requires Covers(v, st.source)
  {
    if |st.columns| == 0 then InitializeResult(cfg, st, v) else st
  }

  /** A new row: the row count goes up and the row gets the next blank node. */
  function StartRow(st: State): State {
    st.(rownum := st.rownum + 1, row := Blank(st.next), next := st.next + 1)
  }

  /** Unless output is minimal, the statements that describe the current row, found at `line` of the source. */
  function DescribeRow(cfg: Config, st: State, line: int, subjects: seq<Value>): State {
    if cfg.minimal then st
    else st.(result := st.result + RowTriples(st.table, st.row, st.rownum, Urls.RowUrl(st.source, line), subjects))
  }

  /** A data row: a new row node, the row's data, then the statements that describe the row. */
  function DataRow(cfg: Config, st: State, v: RowRecord): State
    requires v.current.Some?
  {
    var out := TransformData(cfg, StartRow(st), v.current.value, v.currentLine);
    DescribeRow(cfg, out.0, v.currentLine, out.1)
  }

  /** `transform(v)`. */
  function Transform(cfg: Config, st: State, v: RowRecord): (r: State)
    requires Covers(v, st.source)
    ensures r.source == st.source && r.tableGroup == st.tableGroup && r.warnings == st.warnings
  {
    if v.current.None? then st.(errors := st.errors + [BLANK_ROW])
    else
      var ready := Initialized(cfg, st, v);
      if v.currentLine > v.headerRowCount then DataRow(cfg, ready, v) else ready
  }

  /** Every record of `rows` can be handled for `source`. */
  predicate AllCovered(rows: seq<RowRecord>, source: string) {
    forall i :: 0 <= i < |rows| ==> Covers(rows[i], source)
  }

  /** The records of a validation run handed to `transform` in order: the first `k` of them. */
  function TransformAll(cfg: Config, st: State, rows: seq<RowRecord>, k: nat): (r: State)
    requires k <= |rows| && AllCovered(rows, st.source)
    ensures r.source == st.source && r.tableGroup == st.tableGroup && r.warnings == st.warnings
  {
    if k == 0 then st else Transform(cfg, TransformAll(cfg, st, rows, k - 1), rows[k - 1])
  }
}
