/**
 * What the row transformation and the session promise, stated over the
 * functions of `Rows` and `Sessions`: the graph is only appended to, the
 * blank node counter never goes back, initialisation happens once per table,
 * every data row is counted once, and minimal output keeps the data
 * statements and drops the rest.
 */
module Properties {
  import opened Wrappers
  import opened Rdf
  import opened Tables
  import opened Rows
  import Sessions
  import Annotations
  import Urls
  import Seqs

  /** `b` follows `a` in a session: statements only appended, node counter only advanced. */
  predicate Grows(a: State, b: State) {
    a.result <= b.result && a.next <= b.next
  }

  // initialize_result

  /** A schema table's statements extend what was written before. */
  lemma SchemaTableOutputExtends(prefixes: string -> string, acc: Annotations.Acc, tableGroup: Value, table: Value,
                                 source: string, schema: Schema, t: Table)
    ensures Annotations.Extends(acc, SchemaTableOutput(prefixes, acc, tableGroup, table, source, schema, t))
  {
    var grouped := Annotations.EmitAnnotations(prefixes, acc, tableGroup, schema.annotations, |schema.annotations|);
    Annotations.EmitAnnotationsExtends(prefixes, acc, tableGroup, schema.annotations, |schema.annotations|);
    if !t.suppressOutput {
      var introduced := Annotations.Acc(grouped.triples + TableTriples(tableGroup, table, source), grouped.next);
      var annotated := Annotations.EmitAnnotations(prefixes, introduced, table, t.annotations, |t.annotations|);
      Annotations.EmitAnnotationsExtends(prefixes, introduced, table, t.annotations, |t.annotations|);
      if |t.notes| > 0 {
        Annotations.EmitExtends(prefixes, annotated, table, Annotations.Resource(Csvw("note")), JArray(t.notes));
      }
    }
  }

  /** The table of a schema: only the table node, the graph and the counter change, and the graph only in full output. */
  lemma SchemaTableFrame(cfg: Config, st: State, schema: Schema, t: Table)
    ensures var r := SchemaTable(cfg, st, schema, t);
            Grows(st, r) && r == st.(table := r.table, result := r.result, next := r.next) &&
            (cfg.minimal ==> r.result == st.result)
  {
    if !cfg.minimal {
      var table := if t.id.Some? then Iri(t.id.value) else Blank(st.next);
      var next := if t.id.Some? then st.next else st.next + 1;
      SchemaTableOutputExtends(cfg.ops.prefixes, Annotations.Acc(st.result, next), st.tableGroup, table, st.source, schema, t);
    }
  }

  /**
   * `initialize_result` keeps the record's errors, appends to the graph, sets
   * up the columns, the row titles and the table node, changes nothing else,
   * and writes nothing in minimal mode.
   */
  lemma InitializeResultFrame(cfg: Config, st: State, v: RowRecord)
    requires Covers(v, st.source)
    ensures var r := InitializeResult(cfg, st, v);
            Grows(st, r) && (cfg.minimal ==> r.result == st.result) &&
            r == st.(errors := st.errors + v.errors, columns := r.columns, rowTitles := r.rowTitles, table := r.table,
                     result := r.result, next := r.next)
  {
    if v.schema.Some? {
      var kept := st.(errors := st.errors + v.errors);
      SchemaTableFrame(cfg, kept, v.schema.value, TableFor(v.schema.value.tables, st.source).value);
    }
  }

  /** Without a schema: one column per header cell, numbered from 1 and named by the cell, and no row titles. */
  lemma HeaderSetup(cfg: Config, st: State, v: RowRecord)
    requires v.schema.None? && st.columns == []
    ensures var r := InitializeResult(cfg, st, v);
            |r.columns| == |v.header| && r.rowTitles == [] &&
            forall i :: 0 <= i < |v.header| ==> r.columns[i].number == i + 1 && ColumnName(r.columns[i]) == v.header[i]
  {
  }

  /**
   * With a schema: a table without columns gets `_col.1` onwards, one per
   * header cell; otherwise its columns come first and each header cell past
   * them gets a column named by its own position, `_col.(k+i+1)`, though
   * numbered from 1; the row titles are the title columns' names.
   */
  lemma SchemaSetup(cfg: Config, st: State, v: RowRecord)
    requires v.schema.Some? && Covers(v, st.source) && st.columns == []
    ensures var t := TableFor(v.schema.value.tables, st.source).value;
            var r := InitializeResult(cfg, st, v);
            var k := |t.columns|;
            (k == 0 ==>
               |r.columns| == |v.header| &&
               forall i :: 0 <= i < |v.header| ==>
                 r.columns[i].number == i + 1 && ColumnName(r.columns[i]) == Some(GeneratedName(i + 1))) &&
            (k > 0 ==>
               r.columns[..k] == t.columns && |r.columns| == (if |v.header| > k then |v.header| else k) &&
               forall i :: k <= i < |r.columns| ==>
                 r.columns[i].number == i - k + 1 && ColumnName(r.columns[i]) == Some(GeneratedName(i + 1))) &&
            (t.rowTitleColumns.Some? ==>
               |r.rowTitles| == |t.rowTitleColumns.value| &&
               forall j :: 0 <= j < |r.rowTitles| ==> r.rowTitles[j] == ColumnName(t.rowTitleColumns.value[j])) &&
            (t.rowTitleColumns.None? ==> r.rowTitles == [])
  {
    var t := TableFor(v.schema.value.tables, st.source).value;
    var kept := st.(errors := st.errors + v.errors);
    var placed := SchemaTable(cfg, kept, v.schema.value, t);
    SchemaTableFrame(cfg, kept, v.schema.value, t);
    var r := SchemaColumns(placed, v.header, t);
    assert InitializeResult(cfg, st, v) == r;
    if |t.columns| > 0 {
      var k := |t.columns|;
      var extra := GeneratedColumns(k, Remainder(v.header, k));
      assert r.columns == t.columns + extra;
      assert r.columns[..k] == t.columns;
      forall i | k <= i < |r.columns|
        ensures r.columns[i].number == i - k + 1 && ColumnName(r.columns[i]) == Some(GeneratedName(i + 1))
      {
        assert r.columns[i] == extra[i - k];
      }
    }
  }

  // transform_data

  /** The column loop only appends and only draws new nodes. */
  lemma {:induction false} EmitColumnsGrow(ops: UriOps, source: string, acc: DataAcc, columns: seq<Column>, k: nat,
                                           rowSubject: Value)
    requires k <= |columns|
    ensures var r := EmitColumns(ops, source, acc, columns, k, rowSubject);
            acc.triples <= r.triples && acc.next <= r.next && acc.subjects <= r.subjects
  {
    if k > 0 {
      EmitColumnsGrow(ops, source, acc, columns, k - 1, rowSubject);
    }
  }

  /** The bindings of a row: its cells, then `_row` and `_sourceRow`. */
  lemma RowBindings(columns: seq<Column>, data: seq<Entry>, rownum: int, sourceRow: int, key: Option<string>)
    ensures var values := RowValues(columns, data, rownum, sourceRow);
            Lookup(values, Some("_row")) == IntValue(rownum) &&
            Lookup(values, Some("_sourceRow")) == IntValue(sourceRow) &&
            (key != Some("_row") && key != Some("_sourceRow") ==>
               Lookup(values, key) == Lookup(CellValues(columns, data, |columns|), key))
  {
  }

  /** While column `i` is visited, `_column` and `_sourceColumn` are `i` and `_name` is the column's name. */
  lemma ColumnBindings(values: Bindings, column: Column, i: nat, key: Option<string>)
    ensures var values' := ColumnValues(values, column, i);
            Lookup(values', Some("_column")) == IntValue(i) && Lookup(values', Some("_sourceColumn")) == IntValue(i) &&
            Lookup(values', Some("_name")) == NameValue(ColumnName(column)) &&
            (key != Some("_column") && key != Some("_sourceColumn") && key != Some("_name") ==>
               Lookup(values', key) == Lookup(values, key))
  {
  }

  /** A name is bound to the cell of the last column of that name whose cell is present. */
  lemma {:induction false} CellValuesLastWins(columns: seq<Column>, data: seq<Entry>, k: nat, j: nat)
    requires j < k <= |columns| && !EntryAt(data, j).Missing?
    requires forall m :: j < m < k ==> ColumnName(columns[m]) != ColumnName(columns[j]) || EntryAt(data, m).Missing?
    ensures Lookup(CellValues(columns, data, k), ColumnName(columns[j])) == CellObject(columns[j], EntryAt(data, j))
  {
    if k - 1 > j {
      CellValuesLastWins(columns, data, k - 1, j);
    }
  }

  /** A name no column with a present cell has is not bound, and reads as `nil`. */
  lemma {:induction false} CellValuesUnbound(columns: seq<Column>, data: seq<Entry>, k: nat, name: Option<string>)
    requires k <= |columns|
    requires forall m :: 0 <= m < k ==> ColumnName(columns[m]) != name || EntryAt(data, m).Missing?
    ensures name !in CellValues(columns, data, k) && Lookup(CellValues(columns, data, k), name) == Nil
  {
    if k > 0 {
      CellValuesUnbound(columns, data, k - 1, name);
    }
  }

  /**
   * A column's statements: none for `nil`; for an ordered column with a
   * separator, one statement to the collection's head and two per element;
   * otherwise one statement per element of `Array(value)`, in order.
   */
  lemma ValueTriplesShape(subject: Value, property: Value, value: Value, list: bool, base: nat)
    ensures var ts := ValueTriples(subject, property, value, list, base);
            var items := ArrayOf(value);
            |ts| == (if value == Nil then 0 else if list then 1 + 2 * |items| else |items|) &&
            (value != Nil && list ==> ts[0] == Triple(subject, property, ListHead(items, base)) &&
                                      ts[1..] == ListStatements(items, base)) &&
            (value != Nil && !list ==> forall j :: 0 <= j < |items| ==> ts[j] == Triple(subject, property, items[j]))
  {
  }

  /**
   * The collection of `items` whose nodes are numbered from `base`: node `j`
   * has the `j`th item as its first, and the next node, or `rdf:nil` after
   * the last, as its rest.
   */
  lemma ListLinks(items: seq<Value>, base: nat, j: nat)
    requires j < |items|
    ensures var ts := ListStatements(items, base);
            ts[2 * j] == Triple(Blank(base + j), RDF_FIRST, items[j]) &&
            ts[2 * j + 1] == Triple(Blank(base + j), RDF_REST, if j + 1 < |items| then Blank(base + j + 1) else RDF_NIL)
  {
    assert (2 * j) / 2 == j && (2 * j) % 2 == 0;
    assert (2 * j + 1) / 2 == j && (2 * j + 1) % 2 == 1;
  }

  /**
   * A column whose object is `nil` writes nothing and draws no node: without
   * a value URL that is an unbound value, with one it is an unbound value of
   * a column that is not virtual.
   */
  lemma UnboundColumnSilent(ops: UriOps, source: string, values: Bindings, column: Column, i: nat, rowSubject: Value, base: nat)
    requires Lookup(ColumnValues(values, column, i), ColumnName(column)) == Nil
    requires column.valueUrl.Some? ==> !column.virtual
    ensures ColumnVisit(ops, source, values, column, i, rowSubject, base).triples == []
    ensures ColumnVisit(ops, source, values, column, i, rowSubject, base).nodes == 0
  {
  }

  /** How many of the first `k` columns are not suppressed. */
  function Visible(columns: seq<Column>, k: nat): (n: nat)
    requires k <= |columns|
    ensures n <= k
  {
    if k == 0 then 0 else Visible(columns, k - 1) + (if columns[k - 1].suppressOutput then 0 else 1)
  }

  /** A column that is not suppressed gives one subject. */
  lemma EmitColumnCount(ops: UriOps, source: string, acc: DataAcc, column: Column, i: nat, rowSubject: Value)
    ensures |EmitColumn(ops, source, acc, column, i, rowSubject).subjects| ==
            |acc.subjects| + (if column.suppressOutput then 0 else 1)
  {
  }

  /** The column loop gives one subject per column that is not suppressed. */
  lemma {:induction false} EmitColumnsCount(ops: UriOps, source: string, acc: DataAcc, columns: seq<Column>, k: nat,
                                            rowSubject: Value)
    requires k <= |columns|
    ensures |EmitColumns(ops, source, acc, columns, k, rowSubject).subjects| == |acc.subjects| + Visible(columns, k)
  {
    if k > 0 {
      EmitColumnsCount(ops, source, acc, columns, k - 1, rowSubject);
      EmitColumnCount(ops, source, EmitColumns(ops, source, acc, columns, k - 1, rowSubject), columns[k - 1], k - 1, rowSubject);
    }
  }

  /**
   * The subject of column `m` worked out from the row's own bindings, with
   * `_column`, `_sourceColumn` and `_name` bound for that column.
   */
  function ColumnSubject(ops: UriOps, source: string, values: Bindings, columns: seq<Column>, m: nat, rowSubject: Value): Value
    requires m < |columns|
  {
    Urls.Subject(ops, source, columns[m], ColumnValues(values, columns[m], m), rowSubject)
  }

  /** The subjects of the first `k` columns that are not suppressed, in column order. */
  function VisibleSubjects(ops: UriOps, source: string, values: Bindings, columns: seq<Column>, k: nat,
                           rowSubject: Value): seq<Value>
    requires k <= |columns|
  {
    if k == 0 then []
    else VisibleSubjects(ops, source, values, columns, k - 1, rowSubject) +
         (if columns[k - 1].suppressOutput then [] else [ColumnSubject(ops, source, values, columns, k - 1, rowSubject)])
  }

  /** A column's bindings replace the previous column's: all three column keys are bound again. */
  lemma ColumnValuesRebind(values: Bindings, c: Column, i: nat, c': Column, i': nat)
    ensures ColumnValues(ColumnValues(values, c, i), c', i') == ColumnValues(values, c', i')
  {
  }

  /** What visiting one column does to the bindings and the subjects. */
  lemma EmitColumnSubject(ops: UriOps, source: string, acc: DataAcc, column: Column, i: nat, rowSubject: Value)
    ensures var r := EmitColumn(ops, source, acc, column, i, rowSubject);
            r.values == (if column.suppressOutput then acc.values else ColumnValues(acc.values, column, i)) &&
            r.subjects == acc.subjects +
              (if column.suppressOutput then [] else [Urls.Subject(ops, source, column, ColumnValues(acc.values, column, i), rowSubject)])
  {
  }

  /** Whatever columns came before, a column sees the row's bindings plus its own three keys. */
  lemma {:induction false} EmitColumnsValues(ops: UriOps, source: string, acc: DataAcc, columns: seq<Column>, k: nat,
                                             rowSubject: Value, c: Column, i: nat)
    requires k <= |columns|
    ensures ColumnValues(EmitColumns(ops, source, acc, columns, k, rowSubject).values, c, i) == ColumnValues(acc.values, c, i)
  {
    if k > 0 {
      var before := EmitColumns(ops, source, acc, columns, k - 1, rowSubject);
      EmitColumnsValues(ops, source, acc, columns, k - 1, rowSubject, c, i);
      EmitColumnSubject(ops, source, before, columns[k - 1], k - 1, rowSubject);
      ColumnValuesRebind(before.values, columns[k - 1], k - 1, c, i);
    }
  }

  /** One more column visited: its subject, worked out from the loop's starting bindings, if it is not suppressed. */
  lemma EmitColumnsStep(ops: UriOps, source: string, acc: DataAcc, columns: seq<Column>, k: nat, rowSubject: Value)
    requires 0 < k <= |columns|
    ensures EmitColumns(ops, source, acc, columns, k, rowSubject).subjects ==
            EmitColumns(ops, source, acc, columns, k - 1, rowSubject).subjects +
            (if columns[k - 1].suppressOutput then [] else [ColumnSubject(ops, source, acc.values, columns, k - 1, rowSubject)])
  {
    var before := EmitColumns(ops, source, acc, columns, k - 1, rowSubject);
    EmitColumnSubject(ops, source, before, columns[k - 1], k - 1, rowSubject);
    if !columns[k - 1].suppressOutput {
      EmitColumnsValues(ops, source, acc, columns, k - 1, rowSubject, columns[k - 1], k - 1);
      assert Urls.Subject(ops, source, columns[k - 1], ColumnValues(before.values, columns[k - 1], k - 1), rowSubject) ==
             ColumnSubject(ops, source, acc.values, columns, k - 1, rowSubject);
    }
  }

  /** The column loop's subjects are those of the columns that are not suppressed, in order. */
  lemma {:induction false} EmitColumnsSubjects(ops: UriOps, source: string, acc: DataAcc, columns: seq<Column>, k: nat,
                                               rowSubject: Value)
    requires k <= |columns|
    ensures EmitColumns(ops, source, acc, columns, k, rowSubject).subjects ==
            acc.subjects + VisibleSubjects(ops, source, acc.values, columns, k, rowSubject)
  {
    if k > 0 {
      EmitColumnsSubjects(ops, source, acc, columns, k - 1, rowSubject);
      EmitColumnsStep(ops, source, acc, columns, k, rowSubject);
      var earlier := VisibleSubjects(ops, source, acc.values, columns, k - 1, rowSubject);
      if columns[k - 1].suppressOutput {
        assert VisibleSubjects(ops, source, acc.values, columns, k, rowSubject) == earlier;
      } else {
        var own := ColumnSubject(ops, source, acc.values, columns, k - 1, rowSubject);
        assert VisibleSubjects(ops, source, acc.values, columns, k, rowSubject) == earlier + [own];
        Seqs.Associate(acc.subjects, earlier, [own]);
      }
    }
  }

  /** A value is among the visible columns' subjects exactly when it is the subject of one of them. */
  lemma {:induction false} VisibleSubjectsMembers(ops: UriOps, source: string, values: Bindings, columns: seq<Column>, k: nat,
                                                  rowSubject: Value)
    requires k <= |columns|
    ensures forall x :: x in VisibleSubjects(ops, source, values, columns, k, rowSubject) <==>
              exists m :: 0 <= m < k && !columns[m].suppressOutput && x == ColumnSubject(ops, source, values, columns, m, rowSubject)
  {
    if k > 0 {
      VisibleSubjectsMembers(ops, source, values, columns, k - 1, rowSubject);
    }
  }

  /** The subjects the column loop adds are exactly the subjects of the columns it does not suppress. */
  lemma EmitColumnsSubjectKinds(ops: UriOps, source: string, acc: DataAcc, columns: seq<Column>, k: nat, rowSubject: Value)
    requires k <= |columns|
    ensures forall x :: x in EmitColumns(ops, source, acc, columns, k, rowSubject).subjects <==>
              x in acc.subjects ||
              exists m :: 0 <= m < k && !columns[m].suppressOutput && x == ColumnSubject(ops, source, acc.values, columns, m, rowSubject)
  {
    EmitColumnsSubjects(ops, source, acc, columns, k, rowSubject);
    VisibleSubjectsMembers(ops, source, acc.values, columns, k, rowSubject);
  }

  /** Every column without an about URL that is not suppressed has the row's node as its subject. */
  lemma {:induction false} EmitColumnsShareRow(ops: UriOps, source: string, acc: DataAcc, columns: seq<Column>, k: nat,
                                               rowSubject: Value, m: nat)
    requires m < k <= |columns| && !columns[m].suppressOutput && columns[m].aboutUrl.None?
    ensures rowSubject in EmitColumns(ops, source, acc, columns, k, rowSubject).subjects
  {
    EmitColumnsGrow(ops, source, acc, columns, k - 1, rowSubject);
    if m < k - 1 {
      EmitColumnsShareRow(ops, source, acc, columns, k - 1, rowSubject, m);
      var before := EmitColumns(ops, source, acc, columns, k - 1, rowSubject);
      assert before.subjects <= EmitColumns(ops, source, acc, columns, k, rowSubject).subjects;
    }
  }

  /** What column `m` writes, worked out from the row's own bindings, its collection numbered from `base`. */
  function ColumnVisitOf(ops: UriOps, source: string, values: Bindings, columns: seq<Column>, m: nat, rowSubject: Value,
                         base: nat): Visit
    requires m < |columns|
  {
    ColumnVisit(ops, source, values, columns[m], m, rowSubject, base)
  }

  /** Statements written so far, and the next blank node number. */
  datatype Written = Written(triples: seq<Triple>, next: nat)

  /**
   * The statements of the first `k` columns that are not suppressed, in
   * column order, and the next blank node number after their collections,
   * which are numbered on from `base`.
   */
  function VisibleData(ops: UriOps, source: string, values: Bindings, columns: seq<Column>, k: nat, rowSubject: Value,
                       base: nat): Written
    requires k <= |columns|
  {
    if k == 0 then Written([], base)
    else
      var earlier := VisibleData(ops, source, values, columns, k - 1, rowSubject, base);
      if columns[k - 1].suppressOutput then earlier
      else
        var w := ColumnVisitOf(ops, source, values, columns, k - 1, rowSubject, earlier.next);
        Written(earlier.triples + w.triples, earlier.next + w.nodes)
  }

  /** The statements of one more column, numbered on from its predecessors' collections. */
  lemma VisibleDataStep(ops: UriOps, source: string, values: Bindings, columns: seq<Column>, k: nat, rowSubject: Value,
                        base: nat)
    requires 0 < k <= |columns|
    ensures var earlier := VisibleData(ops, source, values, columns, k - 1, rowSubject, base);
            var w := ColumnVisitOf(ops, source, values, columns, k - 1, rowSubject, earlier.next);
            var r := VisibleData(ops, source, values, columns, k, rowSubject, base);
            if columns[k - 1].suppressOutput then r == earlier
            else r.triples == earlier.triples + w.triples && r.next == earlier.next + w.nodes
  {
  }

  /**
   * What visiting one column writes and how far it moves the counter, given
   * bindings `values` that agree with the loop's on what the column sees.
   */
  lemma EmitColumnData(ops: UriOps, source: string, acc: DataAcc, values: Bindings, column: Column, i: nat, rowSubject: Value)
    requires ColumnValues(acc.values, column, i) == ColumnValues(values, column, i)
    ensures var r := EmitColumn(ops, source, acc, column, i, rowSubject);
            var w := ColumnVisit(ops, source, values, column, i, rowSubject, acc.next);
            if column.suppressOutput then r == acc
            else r.triples == acc.triples + w.triples && r.next == acc.next + w.nodes
  {
  }

  /**
   * One more column visited, the loop's counter standing at `base`: nothing
   * if it is suppressed, else what it writes from the loop's starting bindings.
   */
  lemma EmitColumnsDataStep(ops: UriOps, source: string, acc: DataAcc, columns: seq<Column>, k: nat, rowSubject: Value,
                            base: nat)
    requires 0 < k <= |columns|
    requires EmitColumns(ops, source, acc, columns, k - 1, rowSubject).next == base
    ensures var before := EmitColumns(ops, source, acc, columns, k - 1, rowSubject);
            var after := EmitColumns(ops, source, acc, columns, k, rowSubject);
            var w := ColumnVisitOf(ops, source, acc.values, columns, k - 1, rowSubject, base);
            if columns[k - 1].suppressOutput then after.triples == before.triples && after.next == base
            else after.triples == before.triples + w.triples && after.next == base + w.nodes
  {
    var before := EmitColumns(ops, source, acc, columns, k - 1, rowSubject);
    assert EmitColumns(ops, source, acc, columns, k, rowSubject) == EmitColumn(ops, source, before, columns[k - 1], k - 1, rowSubject);
    EmitColumnsValues(ops, source, acc, columns, k - 1, rowSubject, columns[k - 1], k - 1);
    EmitColumnData(ops, source, before, acc.values, columns[k - 1], k - 1, rowSubject);
    if !columns[k - 1].suppressOutput {
      assert ColumnVisit(ops, source, acc.values, columns[k - 1], k - 1, rowSubject, before.next) ==
             ColumnVisitOf(ops, source, acc.values, columns, k - 1, rowSubject, base);
    }
  }

  /**
   * The column loop writes exactly the statements of the columns it does not
   * suppress, in order, each worked out from the row's bindings, with the
   * collections numbered on from the loop's counter.
   */
  lemma {:induction false} EmitColumnsData(ops: UriOps, source: string, acc: DataAcc, columns: seq<Column>, k: nat,
                                           rowSubject: Value)
    requires k <= |columns|
    ensures var d := VisibleData(ops, source, acc.values, columns, k, rowSubject, acc.next);
            EmitColumns(ops, source, acc, columns, k, rowSubject).triples == acc.triples + d.triples &&
            EmitColumns(ops, source, acc, columns, k, rowSubject).next == d.next
  {
    if k > 0 {
      var before := EmitColumns(ops, source, acc, columns, k - 1, rowSubject);
      var after := EmitColumns(ops, source, acc, columns, k, rowSubject);
      var earlier := VisibleData(ops, source, acc.values, columns, k - 1, rowSubject, acc.next);
      EmitColumnsData(ops, source, acc, columns, k - 1, rowSubject);
      EmitColumnsDataStep(ops, source, acc, columns, k, rowSubject, earlier.next);
      VisibleDataStep(ops, source, acc.values, columns, k, rowSubject, acc.next);
      if !columns[k - 1].suppressOutput {
        var w := ColumnVisitOf(ops, source, acc.values, columns, k - 1, rowSubject, earlier.next);
        Seqs.Regroup(acc.triples, earlier.triples, w.triples, before.triples, after.triples,
                     VisibleData(ops, source, acc.values, columns, k, rowSubject, acc.next).triples);
      }
    }
  }

  /**
   * `transform_data` appends the row title statements (unless output is
   * minimal) and then exactly the statements of the columns that are not
   * suppressed, in order; their collections take the blank nodes after the
   * row subject node.
   */
  lemma RowDataStatements(cfg: Config, st: State, data: seq<Entry>, sourceRow: int)
    ensures var r := TransformData(cfg, st, data, sourceRow).0;
            var values := RowValues(st.columns, data, st.rownum, sourceRow);
            var titles := if cfg.minimal then [] else TitleTriples(st.row, values, st.rowTitles, |st.rowTitles|);
            var d := VisibleData(cfg.ops, st.source, values, st.columns, |st.columns|, Blank(st.next), st.next + 1);
            r.result == st.result + titles + d.triples && r.next == d.next
  {
    var values := RowValues(st.columns, data, st.rownum, sourceRow);
    var titles := if cfg.minimal then [] else TitleTriples(st.row, values, st.rowTitles, |st.rowTitles|);
    var acc := DataAcc([], st.next + 1, values, []);
    var loop := EmitColumns(cfg.ops, st.source, acc, st.columns, |st.columns|, Blank(st.next));
    RowDataOfLoop(cfg, st, data, sourceRow);
    EmitColumnsData(cfg.ops, st.source, acc, st.columns, |st.columns|, Blank(st.next));
    assert loop.triples == VisibleData(cfg.ops, st.source, values, st.columns, |st.columns|, Blank(st.next), st.next + 1).triples;
  }

  /** `transform_data`'s statements and counter are those of its column loop, after the row titles. */
  lemma RowDataOfLoop(cfg: Config, st: State, data: seq<Entry>, sourceRow: int)
    ensures var r := TransformData(cfg, st, data, sourceRow).0;
            var values := RowValues(st.columns, data, st.rownum, sourceRow);
            var loop := EmitColumns(cfg.ops, st.source, DataAcc([], st.next + 1, values, []), st.columns, |st.columns|, Blank(st.next));
            r.result == st.result + (if cfg.minimal then [] else TitleTriples(st.row, values, st.rowTitles, |st.rowTitles|)) + loop.triples &&
            r.next == loop.next
  {
  }

  /** When every column is suppressed, the column loop writes nothing and binds nothing. */
  lemma {:induction false} EmitColumnsSuppressed(ops: UriOps, source: string, acc: DataAcc, columns: seq<Column>, k: nat,
                                                 rowSubject: Value)
    requires k <= |columns| && Visible(columns, k) == 0
    ensures EmitColumns(ops, source, acc, columns, k, rowSubject) == acc
  {
    if k > 0 {
      EmitColumnsSuppressed(ops, source, acc, columns, k - 1, rowSubject);
    }
  }

  /**
   * `transform_data` returns each subject once, and its subjects are exactly
   * those of the columns it does not suppress: the new row subject node
   * (shared by every column without an about URL) or an IRI; nothing when
   * every column is suppressed.
   */
  lemma RowSubjects(cfg: Config, st: State, data: seq<Entry>, sourceRow: int)
    ensures var subjects := TransformData(cfg, st, data, sourceRow).1;
            var values := RowValues(st.columns, data, st.rownum, sourceRow);
            (forall i, j :: 0 <= i < j < |subjects| ==> subjects[i] != subjects[j]) &&
            (forall x :: x in subjects <==>
               exists m :: 0 <= m < |st.columns| && !st.columns[m].suppressOutput &&
                 x == ColumnSubject(cfg.ops, st.source, values, st.columns, m, Blank(st.next))) &&
            (forall x :: x in subjects ==> x == Blank(st.next) || x.Iri?) &&
            (forall m :: 0 <= m < |st.columns| && !st.columns[m].suppressOutput && st.columns[m].aboutUrl.None? ==>
               Blank(st.next) in subjects) &&
            (Visible(st.columns, |st.columns|) == 0 ==> subjects == [])
  {
    var values := RowValues(st.columns, data, st.rownum, sourceRow);
    RowSubjectsOfLoop(cfg, st, data, sourceRow);
    LoopSubjects(cfg.ops, st.source, values, st.next + 1, st.columns, Blank(st.next));
  }

  /** The distinct subjects of a column loop started with no subjects, as `RowSubjects` states them. */
  lemma LoopSubjects(ops: UriOps, source: string, values: Bindings, next: nat, columns: seq<Column>, rowNode: Value)
    ensures var subjects := Distinct(EmitColumns(ops, source, DataAcc([], next, values, []), columns, |columns|, rowNode).subjects);
            (forall i, j :: 0 <= i < j < |subjects| ==> subjects[i] != subjects[j]) &&
            (forall x :: x in subjects <==>
               exists m :: 0 <= m < |columns| && !columns[m].suppressOutput &&
                 x == ColumnSubject(ops, source, values, columns, m, rowNode)) &&
            (forall x :: x in subjects ==> x == rowNode || x.Iri?) &&
            (forall m :: 0 <= m < |columns| && !columns[m].suppressOutput && columns[m].aboutUrl.None? ==>
               rowNode in subjects) &&
            (Visible(columns, |columns|) == 0 ==> subjects == [])
  {
    var acc0 := DataAcc([], next, values, []);
    var loop := EmitColumns(ops, source, acc0, columns, |columns|, rowNode);
    var subjects := Distinct(loop.subjects);
    EmitColumnsSubjectKinds(ops, source, acc0, columns, |columns|, rowNode);
    EmitColumnsCount(ops, source, acc0, columns, |columns|, rowNode);
    forall x | x in subjects
      ensures x == rowNode || x.Iri?
    {
      var m :| 0 <= m < |columns| && !columns[m].suppressOutput && x == ColumnSubject(ops, source, values, columns, m, rowNode);
      ColumnSubjectKind(ops, source, values, columns, m, rowNode);
    }
    forall m | 0 <= m < |columns| && !columns[m].suppressOutput && columns[m].aboutUrl.None?
      ensures rowNode in subjects
    {
      assert ColumnSubject(ops, source, values, columns, m, rowNode) == rowNode;
    }
  }

  /** The subjects `transform_data` returns are those of its column loop, each once. */
  lemma RowSubjectsOfLoop(cfg: Config, st: State, data: seq<Entry>, sourceRow: int)
    ensures TransformData(cfg, st, data, sourceRow).1 ==
            Distinct(EmitColumns(cfg.ops, st.source, DataAcc([], st.next + 1, RowValues(st.columns, data, st.rownum, sourceRow), []),
                                 st.columns, |st.columns|, Blank(st.next)).subjects)
  {
  }

  /** A column's subject is the row's node or an IRI. */
  lemma ColumnSubjectKind(ops: UriOps, source: string, values: Bindings, columns: seq<Column>, m: nat, rowSubject: Value)
    requires m < |columns|
    ensures var x := ColumnSubject(ops, source, values, columns, m, rowSubject);
            x == rowSubject || x.Iri?
  {
  }

  /**
   * Minimal output changes only what `transform_data` writes around the
   * data: the same data statements, the same subjects and the same node
   * counter, without the title statements.
   */
  lemma MinimalKeepsData(ops: UriOps, st: State, data: seq<Entry>, sourceRow: int)
    ensures var m := TransformData(Config(true, ops), st, data, sourceRow);
            var f := TransformData(Config(false, ops), st, data, sourceRow);
            var values := RowValues(st.columns, data, st.rownum, sourceRow);
            m.1 == f.1 && m.0.next == f.0.next && st.result <= m.0.result &&
            f.0.result == st.result + TitleTriples(st.row, values, st.rowTitles, |st.rowTitles|) + m.0.result[|st.result|..]
  {
    var acc := RowData(ops, st, data, sourceRow);
    assert (st.result + acc.triples)[|st.result|..] == acc.triples;
  }

  /** `transform_data` appends to the graph and draws at least the row's node; nothing else changes. */
  lemma TransformDataFrame(cfg: Config, st: State, data: seq<Entry>, sourceRow: int)
    ensures var r := TransformData(cfg, st, data, sourceRow).0;
            Grows(st, r) && st.next < r.next && r == st.(result := r.result, next := r.next)
  {
    var acc0 := DataAcc([], st.next + 1, RowValues(st.columns, data, st.rownum, sourceRow), []);
    EmitColumnsGrow(cfg.ops, st.source, acc0, st.columns, |st.columns|, Blank(st.next));
  }

  /**
   * A data row counts one more row, takes the next blank node as its row
   * node and appends to the graph; nothing else changes.
   */
  lemma DataRowFrame(cfg: Config, st: State, v: RowRecord)
    requires v.current.Some?
    ensures var r := DataRow(cfg, st, v);
            Grows(st, r) && st.next < r.next &&
            r == st.(rownum := st.rownum + 1, row := Blank(st.next), result := r.result, next := r.next)
  {
    TransformDataFrame(cfg, StartRow(st), v.current.value, v.currentLine);
  }

  // transform

  /** A record past the header rows that is not blank: the ones that make a row of the output. */
  predicate IsDataRow(v: RowRecord) {
    v.current.Some? && v.currentLine > v.headerRowCount
  }

  /** How many of the first `k` records are data rows. */
  function DataRows(rows: seq<RowRecord>, k: nat): (n: nat)
    requires k <= |rows|
    ensures n <= k
  {
    if k == 0 then 0 else DataRows(rows, k - 1) + (if IsDataRow(rows[k - 1]) then 1 else 0)
  }

  /** Initialisation, when it happens, and otherwise nothing. */
  lemma InitializedFrame(cfg: Config, st: State, v: RowRecord)
    requires Covers(v, st.source)
    ensures var r := Initialized(cfg, st, v);
            Grows(st, r) && (|st.columns| > 0 ==> r == st) && (cfg.minimal ==> r.result == st.result) &&
            (|st.columns| == 0 ==> r.errors == st.errors + v.errors) &&
            r == st.(errors := r.errors, columns := r.columns, rowTitles := r.rowTitles, table := r.table,
                     result := r.result, next := r.next)
  {
    if |st.columns| == 0 {
      InitializeResultFrame(cfg, st, v);
    }
  }

  /**
   * One call of `transform`: a blank row only records the `blank_rows`
   * error; the columns are set up, and the record's errors kept, only
   * while there are none; a header row writes no row statements; a data row
   * counts exactly one more row; and the graph is only appended to.
   */
  lemma TransformStep(cfg: Config, st: State, v: RowRecord)
    requires Covers(v, st.source)
    ensures var r := Transform(cfg, st, v);
            Grows(st, r) && st.errors <= r.errors &&
            (v.current.None? ==> r == st.(errors := st.errors + [BLANK_ROW])) &&
            (v.current.Some? && |st.columns| > 0 ==>
               r.columns == st.columns && r.rowTitles == st.rowTitles && r.table == st.table && r.errors == st.errors) &&
            (v.current.Some? && |st.columns| == 0 ==> r.errors == st.errors + v.errors) &&
            (v.current.Some? && !IsDataRow(v) ==> r == Initialized(cfg, st, v)) &&
            r.rownum == st.rownum + (if IsDataRow(v) then 1 else 0)
  {
    if v.current.Some? {
      InitializedFrame(cfg, st, v);
      if IsDataRow(v) {
        DataRowFrame(cfg, Initialized(cfg, st, v), v);
      }
    }
  }

  /** What one call of `transform` contributes to the run-level counts. */
  lemma TransformCounts(cfg: Config, st: State, v: RowRecord)
    requires Covers(v, st.source)
    ensures var r := Transform(cfg, st, v);
            Grows(st, r) && st.errors <= r.errors && r.rownum == st.rownum + (if IsDataRow(v) then 1 else 0)
  {
    TransformStep(cfg, st, v);
  }

  /** Over a validation run, the row count goes up by the number of data rows, and the graph and the errors only grow. */
  lemma {:induction false} TransformAllCounts(cfg: Config, st: State, rows: seq<RowRecord>, k: nat)
    requires k <= |rows| && AllCovered(rows, st.source)
    ensures var r := TransformAll(cfg, st, rows, k);
            Grows(st, r) && st.errors <= r.errors && r.rownum == st.rownum + DataRows(rows, k)
  {
    if k > 0 {
      var before := TransformAll(cfg, st, rows, k - 1);
      TransformAllCounts(cfg, st, rows, k - 1);
      TransformCounts(cfg, before, rows[k - 1]);
      assert TransformAll(cfg, st, rows, k) == Transform(cfg, before, rows[k - 1]);
    }
  }

  // The session

  /**
   * Without metadata: the run's rows are all transformed, its errors end the
   * session's errors and its warnings are appended to the warnings.
   */
  lemma SingleTableReports(cfg: Config, st: State, validator: Sessions.Validator)
    requires AllCovered(validator(st.source).rows, st.source)
    ensures var run := validator(st.source);
            var r := Sessions.SingleTable(cfg, st, validator);
            Grows(st, r) && st.errors <= r.errors && r.errors[|r.errors| - |run.errors|..] == run.errors &&
            r.warnings == st.warnings + run.warnings && r.rownum == DataRows(run.rows, |run.rows|) &&
            r.source == st.source && r.tableGroup == st.tableGroup
  {
    var run := validator(st.source);
    TransformAllCounts(cfg, Sessions.Restart(st, st.source), run.rows, |run.rows|);
  }

  /**
   * One table of the schema: its URL becomes the source and its run's errors
   * and warnings are recorded as warnings; a suppressed table writes nothing
   * and draws no node, and any other has all its data rows counted afresh.
   */
  lemma TableStepReports(cfg: Config, st: State, url: string, t: Table, validator: Sessions.Validator)
    requires AllCovered(validator(url).rows, url)
    ensures var run := validator(url);
            var r := Sessions.TableStep(cfg, st, url, t, validator);
            Grows(st, r) && st.errors <= r.errors && r.source == url && r.tableGroup == st.tableGroup &&
            r.warnings == st.warnings + run.errors + run.warnings &&
            (t.suppressOutput ==> r.result == st.result && r.next == st.next && r.errors == st.errors &&
                                  r.rownum == 0 && r.columns == []) &&
            (!t.suppressOutput ==> r.rownum == DataRows(run.rows, |run.rows|))
  {
    var run := validator(url);
    if !t.suppressOutput {
      TransformAllCounts(cfg, Sessions.Restart(st, url), run.rows, |run.rows|);
    }
  }

  /** What one table contributes to the session-level growth. */
  lemma TableStepGrows(cfg: Config, st: State, url: string, t: Table, validator: Sessions.Validator)
    requires AllCovered(validator(url).rows, url)
    ensures var r := Sessions.TableStep(cfg, st, url, t, validator);
            Grows(st, r) && st.errors <= r.errors && st.warnings <= r.warnings && r.tableGroup == st.tableGroup
  {
    TableStepReports(cfg, st, url, t, validator);
  }

  /** Across the tables of a schema the graph, the counter and the errors only grow, around one table group. */
  lemma {:induction false} EachTableGrows(cfg: Config, st: State, tables: seq<(string, Table)>,
                                          validator: Sessions.Validator, k: nat)
    requires k <= |tables| && Sessions.TablesCovered(tables, validator)
    ensures var r := Sessions.EachTable(cfg, st, tables, validator, k);
            Grows(st, r) && st.errors <= r.errors && st.warnings <= r.warnings && r.tableGroup == st.tableGroup
  {
    if k > 0 {
      var before := Sessions.EachTable(cfg, st, tables, validator, k - 1);
      EachTableGrows(cfg, st, tables, validator, k - 1);
      TableStepGrows(cfg, before, tables[k - 1].0, tables[k - 1].1, validator);
      assert Sessions.EachTable(cfg, st, tables, validator, k) ==
             Sessions.TableStep(cfg, before, tables[k - 1].0, tables[k - 1].1, validator);
    }
  }

  /**
   * A session's graph begins with the table group typed as
   * `csvw:TableGroup`, unless output is minimal, and the group is blank
   * node 0, which the counter then starts past.
   */
  lemma SessionStarts(cfg: Config, source: string, schema: Option<Schema>, validator: Sessions.Validator)
    requires schema.None? ==> AllCovered(validator(source).rows, source)
    requires schema.Some? ==> Sessions.TablesCovered(schema.value.tables, validator)
    ensures var r := Sessions.Session(cfg, source, schema, validator);
            r.tableGroup == Blank(0) && 1 <= r.next &&
            (!cfg.minimal ==> |r.result| > 0 && r.result[0] == Triple(Blank(0), RDF_TYPE, Csvw("TableGroup")))
  {
    var start := Sessions.Start(cfg, source);
    if schema.None? {
      SingleTableReports(cfg, start, validator);
    } else {
      EachTableGrows(cfg, start, schema.value.tables, validator, |schema.value.tables|);
    }
  }

  /**
   * In minimal output a call of `transform` writes only the data statements
   * of a data row: no table, row, title, note or annotation statements.
   */
  lemma MinimalTransform(cfg: Config, st: State, v: RowRecord)
    requires cfg.minimal && Covers(v, st.source)
    ensures Transform(cfg, st, v).result ==
            st.result + (if IsDataRow(v) then RowData(cfg.ops, StartRow(Initialized(cfg, st, v)), v.current.value, v.currentLine).triples
                         else [])
  {
    if v.current.Some? {
      InitializedFrame(cfg, st, v);
    }
  }
}

