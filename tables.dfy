/**
 * What the transformation is handed from outside: the annotated table model
 * of the metadata (columns, tables, the schema of a table group), the
 * validator's view of a row at the moment it calls back, and the URI
 * operations of the libraries it relies on.
 */
module Tables {
  import opened Wrappers
  import opened Rdf
  import Numerals

  /**
   * An annotated column. `datatypeId` and `datatypeBase` are the `@id` and
   * `base` entries of its datatype; a URL template is kept as its text.
   */
  datatype Column = Column(
    number: int,
    name: Option<string>,
    defaultName: Option<string>,
    datatypeId: Option<string>,
    datatypeBase: Option<string>,
    lang: Option<string>,
    suppressOutput: bool,
    virtual: bool,
    separator: Option<string>,
    ordered: bool,
    aboutUrl: Option<string>,
    propertyUrl: Option<string>,
    valueUrl: Option<string>)

  const XSD_STRING_IRI := "http://www.w3.org/2001/XMLSchema#string"

  /**
   * `Csvlint::Csvw::Column.new(number, name)`: a column with nothing but a
   * number and a name, whose datatype is xsd:string and whose language is
   * "und" (undetermined).
   */
  function DefaultColumn(number: int, name: Option<string>): (c: Column)
    ensures c.number == number && c.name == name && c.defaultName.None?
    ensures c.datatypeId == Some(XSD_STRING_IRI) && c.datatypeBase.None? && c.lang == Some("und")
    ensures !c.suppressOutput && !c.virtual && !c.ordered && c.separator.None?
    ensures c.aboutUrl.None? && c.propertyUrl.None? && c.valueUrl.None?
  {
    Column(number, name, None, Some(XSD_STRING_IRI), None, Some("und"),
           false, false, None, false, None, None, None)
  }

  /** `column.name || column.default_name`: the key of the column's value in a row's bindings. */
  function ColumnName(c: Column): Option<string> {
    c.name.OrElse(c.defaultName)
  }

  /** `column.datatype["base"] || column.datatype["@id"]`. */
  function BaseType(c: Column): Option<string> {
    c.datatypeBase.OrElse(c.datatypeId)
  }

  /** `column.datatype["@id"] || base_type`: the datatype literals are typed with. */
  function DatatypeOf(c: Column): Option<string> {
    c.datatypeId.OrElse(BaseType(c))
  }

  /** `"_col.#{n}"`: the name given to a column the metadata does not describe. */
  function GeneratedName(n: int): string {
    "_col." + Numerals.IntToString(n)
  }

  /** `column.name || column.default_name || "_col.#{column.number}"`. */
  function FallbackName(c: Column): string {
    ColumnName(c).GetOr(GeneratedName(c.number))
  }

  datatype Table = Table(
    id: Option<string>,
    suppressOutput: bool,
    annotations: seq<(string, Json)>,
    notes: seq<Json>,
    columns: seq<Column>,
    rowTitleColumns: Option<seq<Column>>)

  /** A table group's schema: its tables keyed by URL, in order, and its own annotations. */
  datatype Schema = Schema(tables: seq<(string, Table)>, annotations: seq<(string, Json)>)

  /** `schema.tables[url]`: the first table registered under `url`. */
  function TableFor(tables: seq<(string, Table)>, url: string): Option<Table> {
    Find(tables, url)
  }

  /** One cell of a parsed row: `nil`, a value, or the list of values of a column with a separator. */
  datatype Entry = Missing | Single(cell: Cell) | Several(cells: seq<Cell>)

  /**
   * The validator as the transformation sees it when it calls back for a row:
   * its first row (`data[0]`), its latest row (`data[-1]`, absent for a blank
   * row), the line number of that row, the dialect's header row count, the
   * schema it validates against, and the errors it has collected so far.
   */
  datatype RowRecord = RowRecord(
    header: seq<Option<string>>,
    current: Option<seq<Entry>>,
    currentLine: int,
    headerRowCount: int,
    schema: Option<Schema>,
    errors: seq<Message>)

  /** A validation run over one source: the records it calls back with, and its final errors and warnings. */
  datatype Run = Run(rows: seq<RowRecord>, errors: seq<Message>, warnings: seq<Message>)

  /** A row's value bindings (`values`), keyed by column name, which may be `nil`. */
  type Bindings = map<Option<string>, Value>

  /** `values[key]`: `nil` for a key that was never bound. */
  function Lookup(values: Bindings, key: Option<string>): Value {
    if key in values then values[key] else Nil
  }

  /**
   * The URI operations the transformation calls: the expansion of a URI
   * template against the bindings (section 3 of RFC 6570), `URI.join`
   * (section 5.2 of RFC 3986), and compact-IRI prefix expansion, which every
   * session fixes to `Prefixes.ExpandPrefixes`.
   */
  datatype UriOps = UriOps(expand: (string, Bindings) -> string, join: (string, string) -> string,
                           prefixes: string -> string)
}
