/**
 * Cell value coercion (`Csv2Rdf.value_to_rdf`): the object a cell value
 * becomes, chosen by the column's base datatype.
 */
module Coercion {
  import opened Wrappers
  import opened Rdf

  const XSD := "http://www.w3.org/2001/XMLSchema#"
  const XSD_BOOLEAN := XSD + "boolean"
  const XSD_STRING := XSD + "string"

  /** The XML Schema numeric types, by local name. */
  const NUMERIC_NAMES: seq<string> := [
    "decimal", "integer", "long", "int", "short", "byte",
    "nonNegativeInteger", "positiveInteger", "unsignedLong", "unsignedInt",
    "unsignedShort", "unsignedByte", "nonPositiveInteger", "negativeInteger",
    "double", "float"
  ]

  /** The XML Schema date and time types, by local name. */
  const DATETIME_NAMES: seq<string> := [
    "date", "dateTime", "dateTimeStamp", "time", "gYear",
    "gYearMonth", "gMonth", "gMonthDay", "gDay"
  ]

  function InXsd(names: seq<string>): (r: seq<string>)
    ensures |r| == |names|
    ensures forall i :: 0 <= i < |names| ==> r[i] == XSD + names[i]
  {
    seq(|names|, i requires 0 <= i < |names| => XSD + names[i])
  }

  const NUMERIC_DATATYPES: seq<string> := InXsd(NUMERIC_NAMES)
  const DATETIME_DATATYPES: seq<string> := InXsd(DATETIME_NAMES)

  lemma InXsdMember(names: seq<string>, local: string)
    ensures XSD + local in InXsd(names) <==> local in names
  {
    if XSD + local in InXsd(names) {
      var i :| 0 <= i < |names| && InXsd(names)[i] == XSD + local;
      assert (XSD + local)[|XSD|..] == local;
      assert (XSD + names[i])[|XSD|..] == names[i];
    }
    if local in names {
      var i :| 0 <= i < |names| && names[i] == local;
      assert InXsd(names)[i] == XSD + local;
    }
  }

  /** Boolean and string are neither numeric nor date/time types. */
  lemma KindsDisjoint()
    ensures XSD_BOOLEAN !in NUMERIC_DATATYPES && XSD_BOOLEAN !in DATETIME_DATATYPES
    ensures XSD_STRING !in NUMERIC_DATATYPES && XSD_STRING !in DATETIME_DATATYPES
  {
    InXsdMember(NUMERIC_NAMES, "boolean");
    InXsdMember(DATETIME_NAMES, "boolean");
    InXsdMember(NUMERIC_NAMES, "string");
    InXsdMember(DATETIME_NAMES, "string");
  }

  lemma NumericNotDatetime(base: Option<string>)
    requires IsNumeric(base)
    ensures !IsDatetime(base)
  {
    var i :| 0 <= i < |NUMERIC_NAMES| && base.value == XSD + NUMERIC_NAMES[i];
    InXsdMember(DATETIME_NAMES, NUMERIC_NAMES[i]);
  }

  predicate IsNumeric(base: Option<string>) {
    base.Some? && base.value in NUMERIC_DATATYPES
  }

  predicate IsDatetime(base: Option<string>) {
    base.Some? && base.value in DATETIME_DATATYPES
  }

  /**
   * `value[:string]` of a parsed date or time. Any other cell makes the source
   * raise; the validator never hands one over for a date/time column, and the
   * model gives it the empty text.
   */
  function DateString(value: Cell): string {
    if value.Parsed? then value.str else ""
  }

  /** A plain literal's language: the "und" (undetermined) tag is dropped. */
  function LiteralLanguage(lang: Option<string>): (r: Option<string>)
    ensures r.Some? <==> lang.Some? && lang.value != "und"
    ensures r.Some? ==> r == lang
  {
    if lang == Some("und") then None else lang
  }

  /**
   * The object for one cell value, given the column's datatype `dt` (its
   * `@id`, or the base when it has none), its `base` type and its language.
   */
  function ValueToRdf(value: Cell, dt: Option<string>, base: Option<string>, lang: Option<string>): (r: Value)
    ensures r.Literal? || r.Native?
  {
    if value.Invalid? then
      Native(FromCell(Text(value.raw)))
    else if value.Float? then
      match value.f
      case NaN => TypedLiteral(FromCell(Text("NaN")), dt)
      case PosInf => TypedLiteral(FromCell(Text("INF")), dt)
      case NegInf => TypedLiteral(FromCell(Text("-INF")), dt)
      case Finite(_) => TypedLiteral(FromCell(value), dt)
    else if IsNumeric(base) then
      TypedLiteral(FromCell(value), dt)
    else if base == Some(XSD_BOOLEAN) then
      Native(FromCell(value))
    else if IsDatetime(base) then
      TypedLiteral(FromCell(Text(DateString(value))), dt)
    else if base == Some(XSD_STRING) then
      if dt != base then TypedLiteral(FromCell(Text(CellText(value))), dt)
      else LangLiteral(FromCell(Text(CellText(value))), LiteralLanguage(lang))
    else
      TypedLiteral(FromCell(Text(CellText(value))), dt)
  }

  /** Only invalid values and booleans are handed on unwrapped, and unchanged. */
  lemma NativeValues(value: Cell, dt: Option<string>, base: Option<string>, lang: Option<string>)
    ensures var r := ValueToRdf(value, dt, base, lang);
            (r.Native? <==> value.Invalid? || (!value.Float? && base == Some(XSD_BOOLEAN))) &&
            (r.Native? ==> r.lexical == FromCell(if value.Invalid? then Text(value.raw) else value))
  {
    KindsDisjoint();
  }

  /**
   * A literal is typed with the column's datatype, never with the base type,
   * and is plain or language-tagged only for an underived string column,
   * never with the "und" tag.
   */
  lemma LiteralTags(value: Cell, dt: Option<string>, base: Option<string>, lang: Option<string>)
    ensures var r := ValueToRdf(value, dt, base, lang);
            (r.Literal? && r.tag.Typed? ==> dt == Some(r.tag.iri)) &&
            (r.Literal? && !(base == Some(XSD_STRING) && dt == base && !value.Float?) ==>
               r.tag == (if dt.Some? then Typed(dt.value) else Plain)) &&
            (r.Literal? && r.tag.Lang? ==>
               base == Some(XSD_STRING) && dt == base && lang == Some(r.tag.lang) && r.tag.lang != "und")
  {
    KindsDisjoint();
  }

  /**
   * Strings and the datatypes that are neither numeric nor date/time are
   * written with the value's text; any base but xsd:boolean and xsd:string
   * gives that text typed with the column's datatype.
   */
  lemma TextValues(value: Cell, dt: Option<string>, base: Option<string>, lang: Option<string>)
    requires !value.Float? && !IsNumeric(base) && !IsDatetime(base)
    ensures var r := ValueToRdf(value, dt, base, lang);
            r.Literal? ==> r.lexical == FromCell(Text(CellText(value)))
    ensures !value.Invalid? && base != Some(XSD_BOOLEAN) && base != Some(XSD_STRING) ==>
              ValueToRdf(value, dt, base, lang) == TypedLiteral(FromCell(Text(CellText(value))), dt)
  {
  }

  /** Special floats become the XML Schema tokens, typed with the column's datatype whatever it is. */
  lemma SpecialFloats(dt: Option<string>, base: Option<string>, lang: Option<string>)
    ensures ValueToRdf(Float(NaN), dt, base, lang) == TypedLiteral(FromCell(Text("NaN")), dt)
    ensures ValueToRdf(Float(PosInf), dt, base, lang) == TypedLiteral(FromCell(Text("INF")), dt)
    ensures ValueToRdf(Float(NegInf), dt, base, lang) == TypedLiteral(FromCell(Text("-INF")), dt)
  {
  }

  /** Numeric and date/time values keep their type even when the column's datatype is derived. */
  lemma NumericAndDatetime(value: Cell, dt: Option<string>, base: Option<string>, lang: Option<string>)
    requires !value.Invalid? && !value.Float?
    ensures IsNumeric(base) ==> ValueToRdf(value, dt, base, lang) == TypedLiteral(FromCell(value), dt)
    ensures IsDatetime(base) ==>
              ValueToRdf(value, dt, base, lang) == TypedLiteral(FromCell(Text(DateString(value))), dt)
  {
    KindsDisjoint();
    if IsNumeric(base) {
      NumericNotDatetime(base);
    }
  }

  /** A string column: a derived datatype gives a typed literal, otherwise a plain one with the column's language. */
  lemma StringColumn(value: Cell, dt: Option<string>, lang: Option<string>)
    requires !value.Invalid? && !value.Float?
    ensures var r := ValueToRdf(value, dt, Some(XSD_STRING), lang);
            r.lexical == FromCell(Text(CellText(value))) &&
            r.tag == (if dt != Some(XSD_STRING) then (if dt.Some? then Typed(dt.value) else Plain)
                      else if lang.Some? && lang.value != "und" then Lang(lang.value) else Plain)
  {
    KindsDisjoint();
  }
}
