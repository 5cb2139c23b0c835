/**
 * Compact-IRI expansion (`Csv2Rdf.expand_prefixes`): a string that is one of
 * the CSVW vocabulary's local terms becomes a csvw IRI; otherwise each known
 * prefix, in table order, is substituted where it leads a line.
 */
module Prefixes {
  import opened Wrappers
  import opened Rdf

  /**
   * The RDFa 1.1 Initial Context prefixes plus csvw, in the source's order
   * (written in chunks so that each chunk's well-formedness is checked on its own).
   */
  const NAMESPACES: seq<(string, string)> :=
    NAMESPACES_1 + NAMESPACES_2 + NAMESPACES_3 + NAMESPACES_4 + NAMESPACES_5 + NAMESPACES_6 + NAMESPACES_7

  const NAMESPACES_1: seq<(string, string)> := [
    ("dcat", "http://www.w3.org/ns/dcat#"),
    ("qb", "http://purl.org/linked-data/cube#"),
    ("grddl", "http://www.w3.org/2003/g/data-view#"),
    ("ma", "http://www.w3.org/ns/ma-ont#"),
    ("org", "http://www.w3.org/ns/org#"),
    ("owl", "http://www.w3.org/2002/07/owl#")
  ]

  const NAMESPACES_2: seq<(string, string)> := [
    ("prov", "http://www.w3.org/ns/prov#"),
    ("rdf", "http://www.w3.org/1999/02/22-rdf-syntax-ns#"),
    ("rdfa", "http://www.w3.org/ns/rdfa#"),
    ("rdfs", "http://www.w3.org/2000/01/rdf-schema#"),
    ("rif", "http://www.w3.org/2007/rif#"),
    ("rr", "http://www.w3.org/ns/r2rml#")
  ]

  const NAMESPACES_3: seq<(string, string)> := [
    ("sd", "http://www.w3.org/ns/" + "sparql-service-description#"),  // split: too long a literal for the solver
    ("skos", "http://www.w3.org/2004/02/skos/core#"),
    ("skosxl", "http://www.w3.org/2008/05/skos-xl#"),
    ("wdr", "http://www.w3.org/2007/05/powder#"),
    ("void", "http://rdfs.org/ns/void#"),
    ("wdrs", "http://www.w3.org/2007/05/powder-s#")
  ]

  const NAMESPACES_4: seq<(string, string)> := [
    ("xhv", "http://www.w3.org/1999/xhtml/vocab#"),
    ("xml", "http://www.w3.org/XML/1998/namespace"),
    ("xsd", "http://www.w3.org/2001/XMLSchema#"),
    ("csvw", "http://www.w3.org/ns/csvw#"),
    ("cnt", "http://www.w3.org/2008/content"),
    ("earl", "http://www.w3.org/ns/earl#")
  ]

  const NAMESPACES_5: seq<(string, string)> := [
    ("ht", "http://www.w3.org/2006/http#"),
    ("oa", "http://www.w3.org/ns/oa#"),
    ("ptr", "http://www.w3.org/2009/pointers#"),
    ("cc", "http://creativecommons.org/ns#"),
    ("ctag", "http://commontag.org/ns#"),
    ("dc", "http://purl.org/dc/terms/")
  ]

  const NAMESPACES_6: seq<(string, string)> := [
    ("dcterms", "http://purl.org/dc/terms/"),
    ("dc11", "http://purl.org/dc/elements/1.1/"),
    ("foaf", "http://xmlns.com/foaf/0.1/"),
    ("gr", "http://purl.org/goodrelations/v1#"),
    ("ical", "http://www.w3.org/2002/12/cal/icaltzd#"),
    ("og", "http://ogp.me/ns#")
  ]

  const NAMESPACES_7: seq<(string, string)> := [
    ("rev", "http://purl.org/stuff/rev#"),
    ("sioc", "http://rdfs.org/sioc/ns#"),
    ("v", "http://rdf.data-vocabulary.org/#"),
    ("vcard", "http://www.w3.org/2006/vcard/ns#"),
    ("schema", "http://schema.org/")
  ]


  /** The classes of the CSVW vocabulary. */
  const CLASS_TERMS: seq<string> := [
    "TableGroup", "Table", "Column", "Row", "Cell", "Schema", "Datatype", "Dialect",
    "Direction", "ForeignKey", "NumericFormat", "TableReference", "Transformation"
  ]

  function Keys(table: seq<(string, string)>): (r: seq<string>)
    ensures |r| == |table|
    ensures forall i :: 0 <= i < |table| ==> r[i] == table[i].0
  {
    if |table| == 0 then [] else [table[0].0] + Keys(table[1..])
  }

  /** The local terms: every prefix name, then the class names. */
  const TERMS: seq<string> := Keys(NAMESPACES) + CLASS_TERMS

  /** The namespace of the first table entry named `prefix`. */
  function Namespace(table: seq<(string, string)>, prefix: string): (r: Option<string>)
    ensures r.Some? ==> exists i :: 0 <= i < |table| && table[i] == (prefix, r.value)
    ensures r.None? ==> forall i :: 0 <= i < |table| ==> table[i].0 != prefix
  {
    if |table| == 0 then None
    else if table[0].0 == prefix then Some(table[0].1)
    else Namespace(table[1..], prefix)
  }

  /**
   * `s.gsub(/^pat/, rep)` where `s` starts at the beginning of a line:
   * Ruby's `^` matches at the start of the string and after every newline.
   */
  function SubAtLineStarts(pat: string, rep: string, s: string): string
    requires |pat| > 0
    decreases |s|, 1
  {
    if pat <= s then rep + SubInLine(pat, rep, s[|pat|..]) else SubInLine(pat, rep, s)
  }

  /** The same substitution, for a suffix that does not start a line. */
  function SubInLine(pat: string, rep: string, s: string): string
    requires |pat| > 0
    decreases |s|, 0
  {
    if |s| == 0 then []
    else if s[0] == '\n' then "\n" + SubAtLineStarts(pat, rep, s[1..])
    else [s[0]] + SubInLine(pat, rep, s[1..])
  }

  /** The loop over the table, reassigning the url for each entry in turn. */
  function SubstituteAll(table: seq<(string, string)>, url: string): string
    decreases |table|
  {
    if |table| == 0 then url
    else SubstituteAll(table[1..], SubAtLineStarts(table[0].0 + ":", table[0].1, url))
  }

  function ExpandPrefixes(url: string): (r: string)
    ensures url in TERMS ==> r == CSVW_NS + url
  {
    if url in TERMS then CSVW_NS + url else SubstituteAll(NAMESPACES, url)
  }

  // Well-formedness of a prefix table, which NAMESPACES satisfies.

  predicate PrefixName(p: string) {
    ':' !in p && '\n' !in p && p != "http"
  }

  /** A prefix without ':' or newline, bound to a single-line namespace that starts with "http:". */
  predicate Entry(e: (string, string)) {
    PrefixName(e.0) && "http:" <= e.1 && '\n' !in e.1
  }

  predicate WellFormed(table: seq<(string, string)>) {
    forall i :: 0 <= i < |table| ==> Entry(table[i])
  }

  lemma WellFormedTail(table: seq<(string, string)>)
    requires WellFormed(table) && |table| > 0
    ensures WellFormed(table[1..])
  {
    forall i | 0 <= i < |table| - 1 ensures Entry(table[1..][i]) {
      assert table[1..][i] == table[i + 1];
    }
  }

  lemma WellFormedConcat(a: seq<(string, string)>, b: seq<(string, string)>)
    requires WellFormed(a) && WellFormed(b)
    ensures WellFormed(a + b)
  {
    forall i | 0 <= i < |a + b| ensures Entry((a + b)[i]) {
      if i >= |a| {
        assert (a + b)[i] == b[i - |a|];
      }
    }
  }

  lemma Chunk1Head()
    ensures Entry(NAMESPACES_1[0]) && Entry(NAMESPACES_1[1]) && Entry(NAMESPACES_1[2])
  {
    assert Entry(NAMESPACES_1[0]);
    assert Entry(NAMESPACES_1[1]);
    assert Entry(NAMESPACES_1[2]);
  }

  lemma Chunk1WellFormed()
    ensures WellFormed(NAMESPACES_1)
  {
    Chunk1Head();
    assert Entry(NAMESPACES_1[3]);
    assert Entry(NAMESPACES_1[4]);
    assert Entry(NAMESPACES_1[5]);
  }

  lemma Chunk2Head()
    ensures Entry(NAMESPACES_2[0]) && Entry(NAMESPACES_2[1]) && Entry(NAMESPACES_2[2])
  {
    assert Entry(NAMESPACES_2[0]);
    assert Entry(NAMESPACES_2[1]);
    assert Entry(NAMESPACES_2[2]);
  }

  lemma Chunk2WellFormed()
    ensures WellFormed(NAMESPACES_2)
  {
    Chunk2Head();
    assert Entry(NAMESPACES_2[3]);
    assert Entry(NAMESPACES_2[4]);
    assert Entry(NAMESPACES_2[5]);
  }

  lemma SparqlEntryWellFormed()
    ensures Entry(NAMESPACES_3[0])
  {
    var head, tail := "http://www.w3.org/ns/", "sparql-service-description#";
    assert NAMESPACES_3[0] == ("sd", head + tail);
    assert '\n' !in head;
    assert '\n' !in tail;
    assert (head + tail)[..5] == head[..5];
  }

  lemma Chunk3WellFormed()
    ensures WellFormed(NAMESPACES_3)
  {
    SparqlEntryWellFormed();
    assert Entry(NAMESPACES_3[1]);
    assert Entry(NAMESPACES_3[2]);
    assert Entry(NAMESPACES_3[3]);
    assert Entry(NAMESPACES_3[4]);
    assert Entry(NAMESPACES_3[5]);
  }

  lemma Chunk4Head()
    ensures Entry(NAMESPACES_4[0]) && Entry(NAMESPACES_4[1]) && Entry(NAMESPACES_4[2])
  {
    assert Entry(NAMESPACES_4[0]);
    assert Entry(NAMESPACES_4[1]);
    assert Entry(NAMESPACES_4[2]);
  }

  lemma Chunk4WellFormed()
    ensures WellFormed(NAMESPACES_4)
  {
    Chunk4Head();
    assert Entry(NAMESPACES_4[3]);
    assert Entry(NAMESPACES_4[4]);
    assert Entry(NAMESPACES_4[5]);
  }

  lemma Chunk5Head()
    ensures Entry(NAMESPACES_5[0]) && Entry(NAMESPACES_5[1]) && Entry(NAMESPACES_5[2])
  {
    assert Entry(NAMESPACES_5[0]);
    assert Entry(NAMESPACES_5[1]);
    assert Entry(NAMESPACES_5[2]);
  }

  lemma Chunk5WellFormed()
    ensures WellFormed(NAMESPACES_5)
  {
    Chunk5Head();
    assert Entry(NAMESPACES_5[3]);
    assert Entry(NAMESPACES_5[4]);
    assert Entry(NAMESPACES_5[5]);
  }

  lemma Chunk6Head()
    ensures Entry(NAMESPACES_6[0]) && Entry(NAMESPACES_6[1]) && Entry(NAMESPACES_6[2])
  {
    assert Entry(NAMESPACES_6[0]);
    assert Entry(NAMESPACES_6[1]);
    assert Entry(NAMESPACES_6[2]);
  }

  lemma Chunk6WellFormed()
    ensures WellFormed(NAMESPACES_6)
  {
    Chunk6Head();
    assert Entry(NAMESPACES_6[3]);
    assert Entry(NAMESPACES_6[4]);
    assert Entry(NAMESPACES_6[5]);
  }

  lemma Chunk7Head()
    ensures Entry(NAMESPACES_7[0]) && Entry(NAMESPACES_7[1]) && Entry(NAMESPACES_7[2])
  {
    assert Entry(NAMESPACES_7[0]);
    assert Entry(NAMESPACES_7[1]);
    assert Entry(NAMESPACES_7[2]);
  }

  lemma Chunk7WellFormed()
    ensures WellFormed(NAMESPACES_7)
  {
    Chunk7Head();
    assert Entry(NAMESPACES_7[3]);
    assert Entry(NAMESPACES_7[4]);
  }


  lemma NamespacesWellFormed()
    ensures WellFormed(NAMESPACES)
  {
    Chunk1WellFormed();
    Chunk2WellFormed();
    Chunk3WellFormed();
    Chunk4WellFormed();
    Chunk5WellFormed();
    Chunk6WellFormed();
    Chunk7WellFormed();
    WellFormedConcat(NAMESPACES_1, NAMESPACES_2);
    WellFormedConcat(NAMESPACES_1 + NAMESPACES_2, NAMESPACES_3);
    WellFormedConcat(NAMESPACES_1 + NAMESPACES_2 + NAMESPACES_3, NAMESPACES_4);
    WellFormedConcat(NAMESPACES_1 + NAMESPACES_2 + NAMESPACES_3 + NAMESPACES_4, NAMESPACES_5);
    WellFormedConcat(NAMESPACES_1 + NAMESPACES_2 + NAMESPACES_3 + NAMESPACES_4 + NAMESPACES_5, NAMESPACES_6);
    WellFormedConcat(NAMESPACES_1 + NAMESPACES_2 + NAMESPACES_3 + NAMESPACES_4 + NAMESPACES_5 + NAMESPACES_6, NAMESPACES_7);
  }

  lemma {:induction false} SubInLineSingleLine(pat: string, rep: string, s: string)
    requires |pat| > 0 && '\n' !in s
    ensures SubInLine(pat, rep, s) == s
    decreases |s|
  {
    if |s| > 0 {
      SubInLineSingleLine(pat, rep, s[1..]);
    }
  }

  /** On one line, only a leading occurrence of the pattern is replaced. */
  lemma SubSingleLine(pat: string, rep: string, s: string)
    requires |pat| > 0 && '\n' !in s
    ensures SubAtLineStarts(pat, rep, s) == if pat <= s then rep + s[|pat|..] else s
  {
    if pat <= s {
      SubInLineSingleLine(pat, rep, s[|pat|..]);
    } else {
      SubInLineSingleLine(pat, rep, s);
    }
  }

  /** A name without ':' followed by ':' can lead `s` only if it is exactly the text before `s`'s first ':'. */
  lemma ColonPrefixUnique(p: string, q: string, rest: string)
    requires ':' !in p && ':' !in q
    requires q + ":" <= p + ":" + rest
    ensures p == q
  {
    var s := p + ":" + rest;
    var rest' := s[|q| + 1..];
    assert s == q + ":" + rest';
    FirstColon(p, rest);
    FirstColon(q, rest');
    assert |p| == |q|;
    assert q == s[..|q|] == p;
  }

  lemma FirstColon(p: string, rest: string)
    requires ':' !in p
    ensures forall k :: 0 <= k < |p| ==> (p + ":" + rest)[k] != ':'
    ensures (p + ":" + rest)[|p|] == ':'
  {
    forall k | 0 <= k < |p| ensures (p + ":" + rest)[k] != ':' {
      assert (p + ":" + rest)[k] == p[k];
    }
  }

  lemma NoPrefixLeadsIri(table: seq<(string, string)>, iri: string)
    requires WellFormed(table) && "http:" <= iri
    ensures forall i :: 0 <= i < |table| ==> !(table[i].0 + ":" <= iri)
  {
    forall i | 0 <= i < |table| ensures !(table[i].0 + ":" <= iri) {
      if table[i].0 + ":" <= iri {
        ColonPrefixUnique("http", table[i].0, iri[5..]);
      }
    }
  }

  lemma {:induction false} SubstituteNothing(table: seq<(string, string)>, url: string)
    requires WellFormed(table) && '\n' !in url
    requires forall i :: 0 <= i < |table| ==> !(table[i].0 + ":" <= url)
    ensures SubstituteAll(table, url) == url
    decreases |table|
  {
    if |table| > 0 {
      SubSingleLine(table[0].0 + ":", table[0].1, url);
      WellFormedTail(table);
      SubstituteNothing(table[1..], url);
    }
  }

  /** On one line, the fold replaces the leading `p:` of the first entry for `p` and nothing else. */
  lemma {:induction false} SubstituteLeading(table: seq<(string, string)>, p: string, rest: string)
    requires WellFormed(table) && ':' !in p && '\n' !in p && '\n' !in rest
    ensures SubstituteAll(table, p + ":" + rest) ==
            (match Namespace(table, p) case Some(ns) => ns + rest case None => p + ":" + rest)
    decreases |table|
  {
    var url := p + ":" + rest;
    if |table| > 0 {
      var tail := table[1..];
      WellFormedTail(table);
      SubSingleLine(table[0].0 + ":", table[0].1, url);
      if table[0].0 == p {
        assert url[|table[0].0 + ":"|..] == rest;
        var next := table[0].1 + rest;
        NoPrefixLeadsIri(tail, next);
        SubstituteNothing(tail, next);
      } else {
        if table[0].0 + ":" <= url {
          ColonPrefixUnique(p, table[0].0, rest);
        }
        SubstituteLeading(tail, p, rest);
      }
    }
  }

  lemma NamespaceFound(table: seq<(string, string)>, i: nat)
    requires i < |table|
    ensures Namespace(table, table[i].0).Some?
  {
  }

  /** On one line, a fold that finds no leading known prefix leaves the string alone. */
  lemma SubstituteUnknown(table: seq<(string, string)>, url: string)
    requires WellFormed(table) && '\n' !in url
    requires forall p :: p + ":" <= url ==> Namespace(table, p).None?
    ensures SubstituteAll(table, url) == url
  {
    forall i | 0 <= i < |table| ensures !(table[i].0 + ":" <= url) {
      NamespaceFound(table, i);
    }
    SubstituteNothing(table, url);
  }

  lemma ClassTermsHaveNoColon()
    ensures forall i :: 0 <= i < |CLASS_TERMS| ==> ':' !in CLASS_TERMS[i]
  {
  }

  lemma KeysHaveNoColon(table: seq<(string, string)>)
    requires WellFormed(table)
    ensures forall i :: 0 <= i < |Keys(table)| ==> ':' !in Keys(table)[i]
  {
    forall i | 0 <= i < |Keys(table)| ensures ':' !in Keys(table)[i] {
      assert Entry(table[i]);
    }
  }

  lemma TermsHaveNoColon()
    ensures forall t :: t in TERMS ==> ':' !in t
  {
    NamespacesWellFormed();
    KeysHaveNoColon(NAMESPACES);
    ClassTermsHaveNoColon();
    var keys := Keys(NAMESPACES);
    forall t | t in TERMS ensures ':' !in t {
      var i :| 0 <= i < |TERMS| && TERMS[i] == t;
      if i < |keys| {
        assert t == keys[i];
      } else {
        assert t == CLASS_TERMS[i - |keys|];
      }
    }
  }

  /** A single-line `p:rest` with `p` a known prefix becomes that prefix's namespace followed by `rest`. */
  lemma ExpandKnownPrefix(p: string, rest: string, ns: string)
    requires Namespace(NAMESPACES, p) == Some(ns)
    requires '\n' !in rest
    ensures ExpandPrefixes(p + ":" + rest) == ns + rest
  {
    NamespacesWellFormed();
    TermsHaveNoColon();
    var url := p + ":" + rest;
    assert url[|p|] == ':';
    var i :| 0 <= i < |NAMESPACES| && NAMESPACES[i] == (p, ns);
    assert ':' !in p && '\n' !in p;
    SubstituteLeading(NAMESPACES, p, rest);
  }

  /** A single-line string that is not a term and has no known leading prefix is returned unchanged. */
  lemma ExpandUnknown(url: string)
    requires url !in TERMS && '\n' !in url
    requires forall p :: p + ":" <= url ==> Namespace(NAMESPACES, p).None?
    ensures ExpandPrefixes(url) == url
  {
    NamespacesWellFormed();
    SubstituteUnknown(NAMESPACES, url);
  }
}
