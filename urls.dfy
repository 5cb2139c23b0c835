/**
 * The IRIs a column contributes to a row's statements: its subject, its
 * predicate (`property`) and, for a column with a value URL, its object
 * (`value`); and the URL that identifies a row of the source.
 */
module Urls {
  import opened Wrappers
  import opened Rdf
  import opened Tables
  import Numerals
  import Escaping

  /** The subject of a column's statements: its expanded about URL, or the row's own node. */
  function Subject(ops: UriOps, source: string, column: Column, values: Bindings, rowSubject: Value): (r: Value)
    ensures column.aboutUrl.None? ==> r == rowSubject
    ensures column.aboutUrl.Some? ==> r.Iri? && r.iri == ops.join(source, ops.expand(column.aboutUrl.value, values))
  {
    if column.aboutUrl.Some? then Iri(ops.join(source, ops.expand(column.aboutUrl.value, values))) else rowSubject
  }

  /**
   * `property(column, values)`: the expanded property URL, prefix-expanded
   * and resolved against the source; without one, the source joined with
   * `#` and the percent-escaped column name.
   */
  function Property(ops: UriOps, source: string, column: Column, values: Bindings): (r: Value)
    ensures r.Iri?
    ensures column.propertyUrl.Some? ==>
              r.iri == ops.join(source, ops.prefixes(ops.expand(column.propertyUrl.value, values)))
    // The fallback fragment is the escaped name: see `FallbackFragment` for what that text is.
    ensures column.propertyUrl.None? ==> r.iri == ops.join(source, "#" + Escaping.Escape(FallbackName(column)))
  {
    if column.propertyUrl.Some? then
      Iri(ops.join(source, ops.prefixes(ops.expand(column.propertyUrl.value, values))))
    else
      Iri(ops.join(source, "#" + Escaping.Escape(FallbackName(column))))
  }

  /**
   * The fragment of a fallback predicate is made of unreserved characters
   * and `%` only, decodes to the column's name, and is the concatenation of
   * the escapes of the name's characters, so no two names share it.
   */
  lemma FallbackFragment(ops: UriOps, source: string, column: Column, values: Bindings)
    requires column.propertyUrl.None?
    ensures exists fragment :: Property(ops, source, column, values).iri == ops.join(source, "#" + fragment) &&
              fragment == Escaping.Escape(FallbackName(column)) &&
              Escaping.Unescape(fragment) == Some(FallbackName(column)) &&
              forall i :: 0 <= i < |fragment| ==> Escaping.Unreserved(fragment[i]) || fragment[i] == '%'
  {
    Escaping.EscapeRoundTrip(FallbackName(column));
  }

  /**
   * `value(column, values, compact)` for a column with a value URL: `nil`
   * when the column's own value is unbound and the column is not virtual,
   * otherwise the expanded template, prefix-expanded unless `compact`,
   * resolved against the source.
   */
  function ObjectUrl(ops: UriOps, source: string, column: Column, values: Bindings, compact: bool): (r: Value)
    requires column.valueUrl.Some?
    ensures r == Nil <==> Lookup(values, ColumnName(column)) == Nil && !column.virtual
    ensures r != Nil ==>
              r.Iri? && r.iri == ops.join(source, if compact then ops.expand(column.valueUrl.value, values)
                                                  else ops.prefixes(ops.expand(column.valueUrl.value, values)))
  {
    if Lookup(values, ColumnName(column)) == Nil && !column.virtual then Nil
    else
      var url := ops.expand(column.valueUrl.value, values);
      var url' := if compact then url else ops.prefixes(url);
      Iri(ops.join(source, url'))
  }

  /** `"#{source}#row=#{current_line}"`. */
  function RowUrl(source: string, line: int): (r: string)
    ensures |r| > |source| + 5
    ensures r[..|source|] == source && r[|source|..|source| + 5] == "#row="
    ensures Numerals.IsIntText(r[|source| + 5..]) && Numerals.ParseInt(r[|source| + 5..]) == line
  {
    var digits := Numerals.IntToString(line);
    Numerals.IntRoundTrip(line);
    var r := source + "#row=" + digits;
    assert r[|source| + 5..] == digits;
    r
  }
}
