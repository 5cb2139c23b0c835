/**
 * A whole transformation session (`Csv2Rdf.new`): a table group node, then
 * either the one source validated without metadata, or every table of the
 * schema in turn, each validation run feeding its rows to `transform`.
 */
module Sessions {
  import opened Wrappers
  import opened Rdf
  import opened Tables
  import opened Rows

  /** The validator, run over a source: the records it calls back with and what it reports at the end. */
  type Validator = string -> Run

  /** The state once the table group node is drawn: node 0, typed unless the output is minimal. */
  function Start(cfg: Config, source: string): (st: State)
    ensures st.tableGroup == Blank(0) && st.next == 1 && st.source == source
    ensures st.result == (if cfg.minimal then [] else [Triple(Blank(0), RDF_TYPE, Csvw("TableGroup"))])
    ensures st.rownum == 0 && st.columns == [] && st.rowTitles == []
    ensures st.errors == [] && st.warnings == []
  {
    State(if cfg.minimal then [] else [Triple(Blank(0), RDF_TYPE, Csvw("TableGroup"))],
          1, source, Blank(0), Nil, Nil, 0, [], [], [], [])
  }

  /** A validation run starts over: no rows counted and no columns yet, at `source`. */
  function Restart(st: State, source: string): State
  {
    st.(source := source, rownum := 0, columns := [])
  }

  /** Without metadata: the source's rows, then the validator's errors and warnings as the session's own. */
  function SingleTable(cfg: Config, st: State, validator: Validator): State
    requires AllCovered(validator(st.source).rows, st.source)
  {
    var run := validator(st.source);
    var done := TransformAll(cfg, Restart(st, st.source), run.rows, |run.rows|);
    Reported(done, run)
  }

  /** The run's errors and warnings, appended to the session's own. */
  function Reported(st: State, run: Run): State
  {
    st.(errors := st.errors + run.errors, warnings := st.warnings + run.warnings)
  }

  /** The run's errors and warnings, appended to the session's warnings only. */
  function Demoted(st: State, run: Run): State
  {
    st.(warnings := st.warnings + run.errors + run.warnings)
  }

  /** Every table's validation run can be handled for the table's URL. */
  predicate TablesCovered(tables: seq<(string, Table)>, validator: Validator) {
    forall i :: 0 <= i < |tables| ==> AllCovered(validator(tables[i].0).rows, tables[i].0)
  }

  /** One schema table: its URL becomes the source, the row count and columns restart, and its run's reports become warnings. */
  function TableStep(cfg: Config, st: State, url: string, t: Table, validator: Validator): State
    requires AllCovered(validator(url).rows, url)
  {
    var run := validator(url);
    var reset := Restart(st, url);
    var done := if t.suppressOutput then reset else TransformAll(cfg, reset, run.rows, |run.rows|);
    Demoted(done, run)
  }

  /** The first `k` tables of the schema, in order. */
  function EachTable(cfg: Config, st: State, tables: seq<(string, Table)>, validator: Validator, k: nat): State
    requires k <= |tables| && TablesCovered(tables, validator)
  {
    if k == 0 then st
    else TableStep(cfg, EachTable(cfg, st, tables, validator, k - 1), tables[k - 1].0, tables[k - 1].1, validator)
  }

  /** `Csv2Rdf.new(source, dialect, schema, options)`. */
  function Session(cfg: Config, source: string, schema: Option<Schema>, validator: Validator): State
    requires schema.None? ==> AllCovered(validator(source).rows, source)
    requires schema.Some? ==> TablesCovered(schema.value.tables, validator)
  {
    if schema.None? then SingleTable(cfg, Start(cfg, source), validator)
    else EachTable(cfg, Start(cfg, source), schema.value.tables, validator, |schema.value.tables|)
  }
}
