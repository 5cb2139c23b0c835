/**
 * The values that reach the output graph: the Ruby objects produced by the
 * row validator and the metadata parser, the RDF terms built from them, and
 * the statements of the graph.
 */
module Rdf {
  import opened Wrappers
  import Numerals

  /** The four cases of a Ruby `Float` that the transformation tells apart. */
  datatype FloatValue = NaN | PosInf | NegInf | Finite(shown: string)

  /**
   * A cell value as the row validator hands it over, one case per Ruby shape:
   * a `String`, an `Integer`, a `BigDecimal` (with its `to_s` text), a `Float`,
   * `true`/`false`, the field hash of a parsed date or time (with its `:string`
   * entry and its `to_s` text), or the hash `{ :invalid => raw }` for a value
   * that failed its datatype.
   */
  datatype Cell =
    | Text(s: string)
    | Integer(n: int)
    | Decimal(shown: string)
    | Float(f: FloatValue)
    | Boolean(b: bool)
    | Parsed(str: string, shown: string)
    | Invalid(raw: string)

  /** Ruby's `Float#to_s`. */
  function FloatText(f: FloatValue): string {
    match f
    case NaN => "NaN"
    case PosInf => "Infinity"
    case NegInf => "-Infinity"
    case Finite(shown) => shown
  }

  /** Ruby's `to_s` of a cell value. */
  function CellText(c: Cell): string {
    match c
    case Text(s) => s
    case Integer(n) => Numerals.IntToString(n)
    case Decimal(shown) => shown
    case Float(f) => FloatText(f)
    case Boolean(b) => if b then "true" else "false"
    case Parsed(_, shown) => shown
    case Invalid(raw) => raw
  }

  /** A parsed JSON value of the metadata; an object keeps its members in order. */
  datatype Json =
    | JNull
    | JBool(b: bool)
    | JInteger(n: int)
    | JFloat(f: FloatValue)
    | JString(s: string)
    | JArray(items: seq<Json>)
    | JObject(members: seq<(string, Json)>)

  /** Ruby's `hash[key]` on a parsed JSON object: the first member named `key`. */
  function Get(members: seq<(string, Json)>, key: string): Option<Json> {
    Find(members, key)
  }

  /** Ruby truthiness of a hash lookup: present, and neither `nil` nor `false`. */
  predicate Truthy(o: Option<Json>) {
    o.Some? && o.value != JNull && o.value != JBool(false)
  }

  /**
   * Ruby's `to_s` of a scalar JSON value, used where the metadata supplies a
   * string (an `@id`, an `@type`, an `@language`); arrays and objects give "".
   */
  function JsonText(j: Json): string {
    match j
    case JString(s) => s
    case JInteger(n) => Numerals.IntToString(n)
    case JFloat(f) => FloatText(f)
    case JBool(b) => if b then "true" else "false"
    case _ => ""
  }

  /** The Ruby object a literal was built from; its lexical form is the RDF library's job. */
  datatype Lexical = FromCell(cell: Cell) | FromJson(json: Json)

  /** A literal is plain, typed with a datatype IRI, or tagged with a language. */
  datatype Tag = Plain | Typed(iri: string) | Lang(lang: string)

  /**
   * Anything the transformation places in a statement or in a row's value
   * bindings: an IRI, a blank node (numbered from the session's counter), a
   * literal, a bare Ruby value that the graph library turns into a literal
   * itself, `nil`, or a Ruby array of such values.
   */
  datatype Value =
    | Iri(iri: string)
    | Blank(id: nat)
    | Literal(lexical: Lexical, tag: Tag)
    | Native(lexical: Lexical)
    | Nil
    | Many(items: seq<Value>)

  datatype Triple = Triple(s: Value, p: Value, o: Value)

  /** An error or warning record: its type and its category. */
  datatype Message = Message(kind: string, category: string)

  /** `RDF::Literal.new(x, :datatype => d)`: a nil datatype gives a plain literal. */
  function TypedLiteral(lex: Lexical, dt: Option<string>): (r: Value)
    ensures r.Literal? && r.lexical == lex
    ensures r.tag.Typed? <==> dt.Some?
    ensures dt.Some? ==> r.tag == Typed(dt.value)
  {
    Literal(lex, if dt.Some? then Typed(dt.value) else Plain)
  }

  /** `RDF::Literal.new(x, :language => l)`: a nil language gives a plain literal. */
  function LangLiteral(lex: Lexical, lang: Option<string>): (r: Value)
    ensures r.Literal? && r.lexical == lex
    ensures r.tag.Lang? <==> lang.Some?
    ensures lang.Some? ==> r.tag == Lang(lang.value)
  {
    Literal(lex, if lang.Some? then Lang(lang.value) else Plain)
  }

  /** A Ruby `Integer` placed in the graph or in the value bindings. */
  function IntValue(n: int): Value {
    Native(FromCell(Integer(n)))
  }

  /** A Ruby `String` (or `nil`) placed in the value bindings. */
  function NameValue(name: Option<string>): Value {
    if name.Some? then Native(FromCell(Text(name.value))) else Nil
  }

  /** Ruby's `Array(v)`: `nil` gives no elements, an array its own, anything else itself alone. */
  function ArrayOf(v: Value): (r: seq<Value>)
    ensures v == Nil ==> r == []
    ensures v.Many? ==> r == v.items
    ensures v != Nil && !v.Many? ==> r == [v]
  {
    match v
    case Nil => []
    case Many(items) => items
    case _ => [v]
  }

  /** Every blank node mentioned by `v` is numbered from `lo` (inclusive) to `hi` (exclusive). */
  predicate BlanksWithin(v: Value, lo: nat, hi: nat) {
    match v
    case Blank(n) => lo <= n < hi
    case Many(items) => forall i :: 0 <= i < |items| ==> BlanksWithin(items[i], lo, hi)
    case _ => true
  }

  predicate TripleBlanksWithin(t: Triple, lo: nat, hi: nat) {
    BlanksWithin(t.s, lo, hi) && BlanksWithin(t.p, lo, hi) && BlanksWithin(t.o, lo, hi)
  }

  predicate AllBlanksWithin(ts: seq<Triple>, lo: nat, hi: nat) {
    forall i :: 0 <= i < |ts| ==> TripleBlanksWithin(ts[i], lo, hi)
  }

  /** `v` is, or holds, the blank node numbered `n`. */
  predicate MentionsBlank(v: Value, n: nat) {
    match v
    case Blank(m) => m == n
    case Many(items) => exists i :: 0 <= i < |items| && MentionsBlank(items[i], n)
    case _ => false
  }

  lemma BlanksWithinExcludes(v: Value, lo: nat, hi: nat, n: nat)
    requires BlanksWithin(v, lo, hi)
    requires n < lo || hi <= n
    ensures !MentionsBlank(v, n)
  {
    if v.Many? {
      forall i | 0 <= i < |v.items| ensures !MentionsBlank(v.items[i], n) {
        BlanksWithinExcludes(v.items[i], lo, hi, n);
      }
    }
  }

  lemma BlanksWithinWiden(v: Value, lo: nat, hi: nat, lo': nat, hi': nat)
    requires BlanksWithin(v, lo, hi)
    requires lo' <= lo && hi <= hi'
    ensures BlanksWithin(v, lo', hi')
  {
    if v.Many? {
      forall i | 0 <= i < |v.items| ensures BlanksWithin(v.items[i], lo', hi') {
        BlanksWithinWiden(v.items[i], lo, hi, lo', hi');
      }
    }
  }

  lemma AllBlanksWithinWiden(ts: seq<Triple>, lo: nat, hi: nat, lo': nat, hi': nat)
    requires AllBlanksWithin(ts, lo, hi)
    requires lo' <= lo && hi <= hi'
    ensures AllBlanksWithin(ts, lo', hi')
  {
    forall i | 0 <= i < |ts| ensures TripleBlanksWithin(ts[i], lo', hi') {
      BlanksWithinWiden(ts[i].s, lo, hi, lo', hi');
      BlanksWithinWiden(ts[i].p, lo, hi, lo', hi');
      BlanksWithinWiden(ts[i].o, lo, hi, lo', hi');
    }
  }

  // Vocabulary IRIs used by the transformation.

  const CSVW_NS := "http://www.w3.org/ns/csvw#"
  const RDF_NS := "http://www.w3.org/1999/02/22-rdf-syntax-ns#"

  function Csvw(local: string): Value {
    Iri(CSVW_NS + local)
  }

  const RDF_TYPE := Iri(RDF_NS + "type")
  const RDF_FIRST := Iri(RDF_NS + "first")
  const RDF_REST := Iri(RDF_NS + "rest")
  const RDF_NIL := Iri(RDF_NS + "nil")
}
