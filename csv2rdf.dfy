/**
 * The transformation session as the object it is: its fields are updated in
 * place by `transform`, `initialize_result`, `transform_data` and
 * `transform_annotation`, and each method is proved to leave the fields in
 * the state the functions of `Rows`, `Sessions` and `Annotations` describe.
 */
module Csv2Rdf {
  import opened Wrappers
  import opened Rdf
  import opened Tables
  import opened Rows
  import Sessions
  import A = Annotations
  import Urls
  import Prefixes
  import Coercion
  import Seqs

  class Csv2Rdf {
    const minimal: bool
    const ops: UriOps

    var result: seq<Triple>
    var next: nat
    var source: string
    var tableGroup: Value
    var table: Value
    var row: Value
    var rownum: int
    var columns: seq<Column>
    var rowTitles: seq<Option<string>>
    var errors: seq<Message>
    var warnings: seq<Message>

    /** The fields, as a value. */
    function Snapshot(): State
      reads this
    {
      State(result, next, source, tableGroup, table, row, rownum, columns, rowTitles, errors, warnings)
    }

    function Cfg(): Config {
      Config(minimal, ops)
    }

    /**
     * `Csv2Rdf.new(source, dialect, schema, options)`: draws the table group
     * node, then runs the validator over the source, or over each table of the
     * schema, transforming the rows it calls back with.
     */
    constructor(source: string, schema: Option<Schema>, minimal: bool,
                expand: (string, Bindings) -> string, join: (string, string) -> string, validator: Sessions.Validator)
      requires schema.None? ==> AllCovered(validator(source).rows, source)
      requires schema.Some? ==> Sessions.TablesCovered(schema.value.tables, validator)
      ensures ops == UriOps(expand, join, Prefixes.ExpandPrefixes)
      ensures Snapshot() == Sessions.Session(Config(minimal, ops), source, schema, validator)
    {
      this.minimal := minimal;
      this.ops := UriOps(expand, join, Prefixes.ExpandPrefixes);
      this.source := source;
      result := [];
      next := 0;
      table := Nil;
      row := Nil;
      rowTitles := [];
      errors := [];
      warnings := [];
      tableGroup := Blank(0);
      rownum := 0;
      columns := [];
      new;
      tableGroup := Blank(next);
      next := next + 1;
      if !minimal {
        result := result + [Triple(tableGroup, RDF_TYPE, Csvw("TableGroup"))];
      }
      assert Snapshot() == Sessions.Start(Cfg(), source);
      if schema.None? {
        TransformSource(validator);
      } else {
        TransformTables(schema.value.tables, validator);
      }
    }

    /** Without metadata: the source's one validation run, whose reports become the session's own. */
    method TransformSource(validator: Sessions.Validator)
      requires AllCovered(validator(source).rows, source)
      modifies this
      ensures Snapshot() == Sessions.SingleTable(Cfg(), old(Snapshot()), validator)
    {
      var run := validator(source);
      Restart(source);
      TransformRun(run.rows);
      Report(run);
    }

    /** Each table of the schema in turn. */
    method TransformTables(tables: seq<(string, Table)>, validator: Sessions.Validator)
      requires Sessions.TablesCovered(tables, validator)
      modifies this
      ensures Snapshot() == Sessions.EachTable(Cfg(), old(Snapshot()), tables, validator, |tables|)
    {
      var k := 0;
      while k < |tables|
        invariant 0 <= k <= |tables|
        invariant Snapshot() == Sessions.EachTable(Cfg(), old(Snapshot()), tables, validator, k)
      {
        TransformTable(tables[k].0, tables[k].1, validator);
        assert Snapshot() == Sessions.EachTable(Cfg(), old(Snapshot()), tables, validator, k + 1);
        k := k + 1;
      }
    }

    /** One table of the schema: validated at its own URL, its rows transformed unless it is suppressed. */
    method TransformTable(url: string, t: Table, validator: Sessions.Validator)
      requires AllCovered(validator(url).rows, url)
      modifies this
      ensures Snapshot() == Sessions.TableStep(Cfg(), old(Snapshot()), url, t, validator)
    {
      var run := validator(url);
      Restart(url);
      if !t.suppressOutput {
        TransformRun(run.rows);
      }
      Demote(run);
    }

    /** A new validation run at `url`: the row count and the columns start over. */
    method Restart(url: string)
      modifies this`source, this`rownum, this`columns
      ensures Snapshot() == Sessions.Restart(old(Snapshot()), url)
    {
      source := url;
      rownum := 0;
      columns := [];
    }

    /** The run's errors and warnings become the session's own. */
    method Report(run: Run)
      modifies this`errors, this`warnings
      ensures Snapshot() == Sessions.Reported(old(Snapshot()), run)
    {
      errors := errors + run.errors;
      warnings := warnings + run.warnings;
    }

    /** The run's errors and warnings become the session's warnings. */
    method Demote(run: Run)
      modifies this`warnings
      ensures Snapshot() == Sessions.Demoted(old(Snapshot()), run)
    {
      warnings := warnings + run.errors + run.warnings;
    }

    /** The validator calling back with each record of its run, in order. */
    method TransformRun(rows: seq<RowRecord>)
      requires AllCovered(rows, source)
      modifies this
      ensures Snapshot() == TransformAll(Cfg(), old(Snapshot()), rows, |rows|)
    {
      var i := 0;
      while i < |rows|
        invariant 0 <= i <= |rows|
        invariant source == old(source)
        invariant Snapshot() == TransformAll(Cfg(), old(Snapshot()), rows, i)
      {
        Transform(rows[i]);
        assert Snapshot() == TransformAll(Cfg(), old(Snapshot()), rows, i + 1);
        i := i + 1;
      }
    }

    /** `transform(v)`. */
    method Transform(v: RowRecord)
      requires Covers(v, source)
      modifies this
      ensures Snapshot() == Rows.Transform(Cfg(), old(Snapshot()), v)
    {
      if v.current.None? {
        errors := errors + [BLANK_ROW];
        return;
      }
      Initialize(v);
      if v.currentLine > v.headerRowCount {
        TransformRow(v);
      }
    }

    /** The first record of a run, or the first after a reset, sets up the columns. */
    method Initialize(v: RowRecord)
      requires Covers(v, source)
      modifies this
      ensures Snapshot() == Initialized(Cfg(), old(Snapshot()), v)
    {
      if |columns| == 0 {
        InitializeResult(v);
      }
    }

    /** The part of `transform` for a row past the header rows. */
    method TransformRow(v: RowRecord)
      requires v.current.Some?
      modifies this
      ensures Snapshot() == DataRow(Cfg(), old(Snapshot()), v)
    {
      StartRow();
      var subjects := TransformData(v.current.value, v.currentLine);
      DescribeRow(v.currentLine, subjects);
    }

    /** A new row node, counted. */
    method StartRow()
      modifies this`rownum, this`row, this`next
      ensures Snapshot() == Rows.StartRow(old(Snapshot()))
    {
      rownum := rownum + 1;
      row := Blank(next);
      next := next + 1;
    }

    /** Unless output is minimal, the statements that place the current row in its table and link it to what it describes. */
    method DescribeRow(line: int, subjects: seq<Value>)
      modifies this`result
      ensures Snapshot() == Rows.DescribeRow(Cfg(), old(Snapshot()), line, subjects)
    {
      if !minimal {
        WriteRowTriples(Urls.RowUrl(source, line), subjects);
      }
    }

    /** The row's table membership, type, number and URL, then what it describes. */
    method WriteRowTriples(url: string, subjects: seq<Value>)
      modifies this`result
      ensures result == old(result) + RowTriples(table, row, rownum, url, subjects)
    {
      result := result + [Triple(table, Csvw("row"), row)];
      result := result + [Triple(row, RDF_TYPE, Csvw("Row"))];
      result := result + [Triple(row, Csvw("rownum"), IntValue(rownum))];
      result := result + [Triple(row, Csvw("url"), Iri(url))];
      ghost var header := [Triple(table, Csvw("row"), row), Triple(row, RDF_TYPE, Csvw("Row")),
                           Triple(row, Csvw("rownum"), IntValue(rownum)), Triple(row, Csvw("url"), Iri(url))];
      assert result == old(result) + header;
      WriteEach(row, Csvw("describes"), subjects);
      Seqs.Associate(old(result), header, EachTriples(row, Csvw("describes"), subjects));
    }

    /** `initialize_result(v)`: the columns, the row titles and the table's own statements. */
    method InitializeResult(v: RowRecord)
      requires Covers(v, source)
      modifies this
      ensures Snapshot() == Rows.InitializeResult(Cfg(), old(Snapshot()), v)
    {
      errors := errors + v.errors;
      if v.schema.None? {
        InitializeFromHeader(v.header);
      } else {
        InitializeFromSchema(v.header, v.schema.value);
      }
    }

    /** The branch of `initialize_result` for a source without metadata. */
    method InitializeFromHeader(header: seq<Option<string>>)
      modifies this
      ensures Snapshot() == HeaderInit(Cfg(), old(Snapshot()), header)
    {
      rowTitles := [];
      AddHeaderColumns(header);
      table := Blank(next);
      next := next + 1;
      if !minimal {
        IntroduceTable();
      }
    }

    /** The branch of `initialize_result` for a table of the schema. */
    method InitializeFromSchema(header: seq<Option<string>>, schema: Schema)
      requires TableFor(schema.tables, source).Some?
      modifies this
      ensures Snapshot() == SchemaInit(Cfg(), old(Snapshot()), header, schema)
    {
      var t := TableFor(schema.tables, source).value;
      PlaceTable(schema, t);
      AddSchemaColumns(header, t);
    }

    /** The schema table's node and, unless output is minimal, its statements. */
    method PlaceTable(schema: Schema, t: Table)
      modifies this
      ensures Snapshot() == SchemaTable(Cfg(), old(Snapshot()), schema, t)
    {
      if t.id.Some? {
        table := Iri(t.id.value);
      } else {
        table := Blank(next);
        next := next + 1;
      }
      if !minimal {
        WriteSchemaTable(schema, t);
      }
    }

    /** The schema table's columns, then generated ones for the rest of the header, and its row title names. */
    method AddSchemaColumns(header: seq<Option<string>>, t: Table)
      modifies this
      ensures Snapshot() == SchemaColumns(old(Snapshot()), header, t)
    {
      rowTitles := [];
      if |t.columns| == 0 {
        AddGeneratedColumns(0, |header|);
      } else {
        columns := t.columns;
        AddGeneratedColumns(|t.columns|, Remainder(header, |t.columns|));
      }
      if t.rowTitleColumns.Some? {
        SetRowTitles(t.rowTitleColumns.value);
      }
    }

    /** One column per header cell, numbered from 1 and named by the cell. */
    method AddHeaderColumns(header: seq<Option<string>>)
      modifies this`columns
      ensures columns == old(columns) + HeaderColumns(header)
    {
      var i := 0;
      while i < |header|
        invariant 0 <= i <= |header|
        invariant columns == old(columns) + HeaderColumns(header)[..i]
      {
        Seqs.Snoc(old(columns), HeaderColumns(header), i);
        columns := columns + [DefaultColumn(i + 1, header[i])];
        i := i + 1;
      }
      assert HeaderColumns(header)[..|header|] == HeaderColumns(header);
    }

    /** `count` columns numbered from 1 and named `_col.(declared + 1)` onwards. */
    method AddGeneratedColumns(declared: nat, count: nat)
      modifies this`columns
      ensures columns == old(columns) + GeneratedColumns(declared, count)
    {
      var i := 0;
      while i < count
        invariant 0 <= i <= count
        invariant columns == old(columns) + GeneratedColumns(declared, count)[..i]
      {
        Seqs.Snoc(old(columns), GeneratedColumns(declared, count), i);
        columns := columns + [DefaultColumn(i + 1, Some(GeneratedName(declared + i + 1)))];
        i := i + 1;
      }
      assert GeneratedColumns(declared, count)[..count] == GeneratedColumns(declared, count);
    }

    /** The names of the row title columns, in order. */
    method SetRowTitles(titles: seq<Column>)
      modifies this`rowTitles
      ensures rowTitles == TitleNames(titles)
    {
      rowTitles := [];
      var i := 0;
      while i < |titles|
        invariant 0 <= i <= |titles|
        invariant rowTitles == TitleNames(titles)[..i]
      {
        Seqs.Snoc([], TitleNames(titles), i);
        rowTitles := rowTitles + [ColumnName(titles[i])];
        i := i + 1;
      }
      assert TitleNames(titles)[..|titles|] == TitleNames(titles);
    }

    /** The table as a member of the group: its type and its URL. */
    method IntroduceTable()
      modifies this`result
      ensures result == old(result) + TableTriples(tableGroup, table, source)
    {
      result := result + [Triple(tableGroup, Csvw("table"), table)];
      result := result + [Triple(table, RDF_TYPE, Csvw("Table"))];
      result := result + [Triple(table, Csvw("url"), Iri(source))];
    }

    /** The statements of a schema table outside minimal mode. */
    method WriteSchemaTable(schema: Schema, t: Table)
      modifies this`result, this`next
      ensures A.Acc(result, next) == SchemaTableOutput(ops.prefixes, A.Acc(old(result), old(next)), tableGroup, table, source, schema, t)
    {
      AnnotateAll(tableGroup, schema.annotations);
      if !t.suppressOutput {
        IntroduceTable();
        AnnotateAll(table, t.annotations);
        if |t.notes| > 0 {
          TransformAnnotation(table, A.Resource(Csvw("note")), JArray(t.notes));
        }
      }
    }

    /** Each of `annotations`, in order, under its expanded name, about `subject`. */
    method AnnotateAll(subject: Value, annotations: seq<(string, Json)>)
      modifies this`result, this`next
      ensures A.Acc(result, next) == A.EmitAnnotations(ops.prefixes, A.Acc(old(result), old(next)), subject, annotations, |annotations|)
    {
      var k := 0;
      while k < |annotations|
        invariant 0 <= k <= |annotations|
        invariant A.Acc(result, next) == A.EmitAnnotations(ops.prefixes, A.Acc(old(result), old(next)), subject, annotations, k)
      {
        TransformAnnotation(subject, A.Name(annotations[k].0), annotations[k].1);
        k := k + 1;
      }
    }

    /** `transform_annotation(subject, property, value)`. */
    method TransformAnnotation(subject: Value, property: A.PropertyRef, value: Json)
      modifies this`result, this`next
      ensures A.Acc(result, next) == A.Emit(ops.prefixes, A.Acc(old(result), old(next)), subject, property, value)
      decreases value, 1
    {
      var p := if property.Name? then Iri(ops.prefixes(property.name)) else property.term;
      match value
      case JObject(members) =>
        if Truthy(Get(members, "@id")) {
          result := result + [Triple(subject, p, Iri(JsonText(Get(members, "@id").value)))];
        } else if Truthy(Get(members, "@value")) {
          result := result + [Triple(subject, p, A.ValueLiteral(ops.prefixes, members))];
        } else {
          var node := Blank(next);
          next := next + 1;
          result := result + [Triple(subject, p, node)];
          AnnotateNode(node, value);
        }
      case JArray(items) =>
        AnnotateItems(subject, p, value);
      case _ =>
        result := result + [Triple(subject, p, Native(FromJson(value)))];
    }

    /** The members of an object written about its new node: `@type` as `rdf:type`, any other key recursively. */
    method AnnotateNode(node: Value, value: Json)
      requires value.JObject?
      modifies this`result, this`next
      ensures A.Acc(result, next) == A.EmitMembers(ops.prefixes, A.Acc(old(result), old(next)), node, value, |value.members|)
      decreases value, 0
    {
      var members := value.members;
      var k := 0;
      while k < |members|
        invariant 0 <= k <= |members|
        invariant A.Acc(result, next) == A.EmitMembers(ops.prefixes, A.Acc(old(result), old(next)), node, value, k)
      {
        var a, v := members[k].0, members[k].1;
        assert members[k] in members;
        if a == "@type" {
          result := result + [Triple(node, RDF_TYPE, Iri(ops.prefixes(JsonText(v))))];
        } else {
          TransformAnnotation(node, A.Name(a), v);
        }
        k := k + 1;
      }
    }

    /** Each item of an array written with the same subject and property. */
    method AnnotateItems(subject: Value, property: Value, value: Json)
      requires value.JArray?
      modifies this`result, this`next
      ensures A.Acc(result, next) == A.EmitItems(ops.prefixes, A.Acc(old(result), old(next)), subject, property, value, |value.items|)
      decreases value, 0
    {
      var items := value.items;
      var k := 0;
      while k < |items|
        invariant 0 <= k <= |items|
        invariant A.Acc(result, next) == A.EmitItems(ops.prefixes, A.Acc(old(result), old(next)), subject, property, value, k)
      {
        assert items[k] in items;
        TransformAnnotation(subject, A.Resource(property), items[k]);
        k := k + 1;
      }
    }

    /** The cell values bound under their columns' names (the first loop of `transform_data`). */
    method BindCells(data: seq<Entry>) returns (values: Bindings)
      ensures values == CellValues(columns, data, |columns|)
    {
      values := map[];
      var i := 0;
      while i < |columns|
        invariant 0 <= i <= |columns|
        invariant values == CellValues(columns, data, i)
      {
        var entry := EntryAt(data, i);
        if !entry.Missing? {
          var column := columns[i];
          var v;
          if entry.Several? {
            v := CoerceAll(column, entry.cells);
          } else {
            v := Coercion.ValueToRdf(entry.cell, DatatypeOf(column), BaseType(column), column.lang);
          }
          values := values[ColumnName(column) := v];
        }
        i := i + 1;
      }
    }

    /** The values of a cell with a separator, each coerced. */
    static method CoerceAll(column: Column, cells: seq<Cell>) returns (v: Value)
      ensures v == CellObject(column, Several(cells))
    {
      var items := [];
      var j := 0;
      while j < |cells|
        invariant 0 <= j <= |cells|
        invariant |items| == j
        invariant forall m :: 0 <= m < j ==> items[m] == CellObject(column, Several(cells)).items[m]
      {
        items := items + [Coercion.ValueToRdf(cells[j], DatatypeOf(column), BaseType(column), column.lang)];
        j := j + 1;
      }
      v := Many(items);
    }

    /** `transform_data(data, sourceRow)`: the row's statements, and its distinct subjects. */
    method TransformData(data: seq<Entry>, sourceRow: int) returns (subjects: seq<Value>)
      modifies this`result, this`next
      ensures (Snapshot(), subjects) == Rows.TransformData(Cfg(), old(Snapshot()), data, sourceRow)
    {
      var values := BindCells(data);
      values := values[Some("_row") := IntValue(rownum)];
      values := values[Some("_sourceRow") := IntValue(sourceRow)];
      assert values == RowValues(columns, data, rownum, sourceRow);
      if !minimal {
        WriteTitles(values);
      }
      ghost var titled := result;
      var rowSubject := Blank(next);
      next := next + 1;
      var all := WriteColumns(values, rowSubject);
      subjects := Distinct(all);
      ghost var acc := RowData(ops, old(Snapshot()), data, sourceRow);
      assert all == acc.subjects && next == acc.next;
      assert titled == old(result) + (if minimal then [] else TitleTriples(row, values, rowTitles, |rowTitles|));
      assert result == titled + acc.triples;
    }

    /** The row's title statements, one per row title name. */
    method WriteTitles(values: Bindings)
      modifies this`result
      ensures result == old(result) + TitleTriples(row, values, rowTitles, |rowTitles|)
    {
      var j := 0;
      while j < |rowTitles|
        invariant 0 <= j <= |rowTitles|
        invariant result == old(result) + TitleTriples(row, values, rowTitles, j)
      {
        result := result + [Triple(row, Csvw("title"), Lookup(values, rowTitles[j]))];
        j := j + 1;
      }
    }

    /** The column loop of `transform_data`: every column visited with the row node `rowSubject`. */
    method WriteColumns(values: Bindings, rowSubject: Value) returns (all: seq<Value>)
      modifies this`result, this`next
      ensures var acc := EmitColumns(ops, source, DataAcc([], old(next), values, []), columns, |columns|, rowSubject);
              result == old(result) + acc.triples && next == acc.next && all == acc.subjects
    {
      ghost var start := DataAcc([], next, values, []);
      var current := values;
      all := [];
      var i := 0;
      while i < |columns|
        invariant 0 <= i <= |columns|
        invariant var acc := EmitColumns(ops, source, start, columns, i, rowSubject);
                  result == old(result) + acc.triples && next == acc.next && current == acc.values && all == acc.subjects
      {
        ghost var acc := EmitColumns(ops, source, start, columns, i, rowSubject);
        if !columns[i].suppressOutput {
          ghost var w := ColumnVisit(ops, source, acc.values, columns[i], i, rowSubject, acc.next);
          ghost var before := result;
          var subject;
          current, subject := VisitColumn(columns[i], i, rowSubject, current);
          all := all + [subject];
          Seqs.Associate(old(result), acc.triples, w.triples);
        }
        i := i + 1;
      }
    }

    /** One pass of the column loop of `transform_data`, for a column `i` that is not suppressed. */
    method VisitColumn(column: Column, i: nat, rowSubject: Value, values: Bindings) returns (values': Bindings, subject: Value)
      modifies this`result, this`next
      ensures var w := ColumnVisit(ops, source, values, column, i, rowSubject, old(next));
              result == old(result) + w.triples && next == old(next) + w.nodes && values' == w.values && subject == w.subject
    {
      values' := values[Some("_column") := IntValue(i)];
      values' := values'[Some("_sourceColumn") := IntValue(i)];
      values' := values'[Some("_name") := NameValue(ColumnName(column))];
      subject := Urls.Subject(ops, source, column, values', rowSubject);
      var property := Urls.Property(ops, source, column, values');
      var value := ColumnObject(ops, source, column, values', property);
      WriteValue(subject, property, value, IsList(column));
    }

    /**
     * The statements for one column's object: as an RDF collection (the
     * subject linked to its head, then the collection's own statements), or
     * one statement per element of `Array(value)`; none for `nil`.
     */
    method WriteValue(subject: Value, property: Value, value: Value, list: bool)
      modifies this`result, this`next
      ensures result == old(result) + ValueTriples(subject, property, value, list, old(next))
      ensures next == old(next) + ValueNodes(value, list)
    {
      if value == Nil {
        assert result == old(result) + [];
      } else if list {
        WriteList(subject, property, ArrayOf(value));
      } else {
        WriteEach(subject, property, ArrayOf(value));
      }
    }

    /** `RDF::List[*items]`: the subject linked to the collection's head, then the collection, one node per item. */
    method WriteList(subject: Value, property: Value, items: seq<Value>)
      modifies this`result, this`next
      ensures result == old(result) + ([Triple(subject, property, ListHead(items, old(next)))] + ListStatements(items, old(next)))
      ensures next == old(next) + |items|
    {
      var head := ListHead(items, next);
      var statements := ListStatements(items, next);
      next := next + |items|;
      result := result + [Triple(subject, property, head)];
      ghost var linked := result;
      var j := 0;
      while j < |statements|
        invariant 0 <= j <= |statements|
        invariant result == linked + statements[..j]
        invariant next == old(next) + |items|
      {
        Seqs.Snoc(linked, statements, j);
        result := result + [statements[j]];
        j := j + 1;
      }
      assert statements[..|statements|] == statements;
      Seqs.Associate(old(result), [Triple(subject, property, head)], statements);
    }

    /** One statement per item, all with the same subject and property. */
    method WriteEach(subject: Value, property: Value, items: seq<Value>)
      modifies this`result
      ensures result == old(result) + EachTriples(subject, property, items)
    {
      var j := 0;
      while j < |items|
        invariant 0 <= j <= |items|
        invariant result == old(result) + EachTriples(subject, property, items)[..j]
      {
        Seqs.Snoc(old(result), EachTriples(subject, property, items), j);
        result := result + [Triple(subject, property, items[j])];
        j := j + 1;
      }
      assert EachTriples(subject, property, items)[..|items|] == EachTriples(subject, property, items);
    }
  }
}
