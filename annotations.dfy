/**
 * The statements written for a common property of the metadata
 * (`transform_annotation`): the value is walked as JSON, each step appending
 * statements to the graph and drawing fresh blank nodes from the counter.
 */
module Annotations {
  import opened Wrappers
  import opened Rdf
  import Seqs

  /** The part of the session the emitter changes: the statements so far and the next blank node number. */
  datatype Acc = Acc(triples: seq<Triple>, next: nat)

  /** `RDF::Resource.new(Csv2Rdf.expand_prefixes(name))`. */
  function Expanded(prefixes: string -> string, name: string): Value {
    Iri(prefixes(name))
  }

  /** The literal written for a `{"@value": ...}` object: typed with the expanded `@type`, else tagged with `@language`. */
  function ValueLiteral(prefixes: string -> string, members: seq<(string, Json)>): (r: Value)
    requires Get(members, "@value").Some?
    ensures r.Literal? && r.lexical == FromJson(Get(members, "@value").value)
    ensures Truthy(Get(members, "@type")) ==>
              r.tag == Typed(prefixes(JsonText(Get(members, "@type").value)))
    ensures !Truthy(Get(members, "@type")) ==>
              r.tag == (if Truthy(Get(members, "@language")) then Lang(JsonText(Get(members, "@language").value)) else Plain)
  {
    var lexical := FromJson(Get(members, "@value").value);
    var dt := Get(members, "@type");
    var lang := Get(members, "@language");
    if Truthy(dt) then Literal(lexical, Typed(prefixes(JsonText(dt.value))))
    else LangLiteral(lexical, if Truthy(lang) then Some(JsonText(lang.value)) else None)
  }

  /** An object that names a resource (`@id`) or a literal (`@value`) rather than a new node. */
  predicate IsReference(members: seq<(string, Json)>) {
    Truthy(Get(members, "@id")) || Truthy(Get(members, "@value"))
  }

  /** The property argument: a resource already, or a metadata key still to be prefix-expanded. */
  datatype PropertyRef = Resource(term: Value) | Name(name: string)

  /** The property as a resource. */
  function Term(prefixes: string -> string, property: PropertyRef): (r: Value)
    ensures property.Name? ==> r == Expanded(prefixes, property.name)
  {
    if property.Name? then Expanded(prefixes, property.name) else property.term
  }

  /** `transform_annotation(subject, property, value)`. */
  function Emit(prefixes: string -> string, acc: Acc, subject: Value, property: PropertyRef, value: Json): Acc
    decreases value, 1, 0
  {
    var p := Term(prefixes, property);
    match value
    case JObject(members) =>
      if Truthy(Get(members, "@id")) then
        Acc(acc.triples + [Triple(subject, p, Iri(JsonText(Get(members, "@id").value)))], acc.next)
      else if Truthy(Get(members, "@value")) then
        Acc(acc.triples + [Triple(subject, p, ValueLiteral(prefixes, members))], acc.next)
      else
        var node := Blank(acc.next);
        EmitMembers(prefixes, Acc(acc.triples + [Triple(subject, p, node)], acc.next + 1), node, value, |members|)
    case JArray(items) => EmitItems(prefixes, acc, subject, p, value, |items|)
    case _ => Acc(acc.triples + [Triple(subject, p, Native(FromJson(value)))], acc.next)
  }

  /** The first `k` members of an object, written about its new node: `@type` as `rdf:type`, any other key recursively. */
  function EmitMembers(prefixes: string -> string, acc: Acc, node: Value, value: Json, k: nat): Acc
    requires value.JObject? && k <= |value.members|
    decreases value, 0, k
  {
    if k == 0 then acc
    else
      var before := EmitMembers(prefixes, acc, node, value, k - 1);
      var member := value.members[k - 1];
      assert member in value.members;
      if member.0 == "@type" then
        Acc(before.triples + [Triple(node, RDF_TYPE, Expanded(prefixes, JsonText(member.1)))], before.next)
      else
        Emit(prefixes, before, node, Name(member.0), member.1)
  }

  /** The first `k` items of an array, each written with the same subject and property. */
  function EmitItems(prefixes: string -> string, acc: Acc, subject: Value, property: Value, value: Json, k: nat): Acc
    requires value.JArray? && k <= |value.items|
    decreases value, 0, k
  {
    if k == 0 then acc
    else
      var before := EmitItems(prefixes, acc, subject, property, value, k - 1);
      assert value.items[k - 1] in value.items;
      Emit(prefixes, before, subject, Resource(property), value.items[k - 1])
  }

  /** The first `k` of a table's or table group's annotations, each under its prefix-expanded name. */
  function EmitAnnotations(prefixes: string -> string, acc: Acc, subject: Value, annotations: seq<(string, Json)>, k: nat): Acc
    requires k <= |annotations|
  {
    if k == 0 then acc
    else Emit(prefixes, EmitAnnotations(prefixes, acc, subject, annotations, k - 1), subject,
              Name(annotations[k - 1].0), annotations[k - 1].1)
  }

  /** `b` is `a` with statements appended and possibly more blank nodes drawn. */
  predicate Extends(a: Acc, b: Acc) {
    a.triples <= b.triples && a.next <= b.next
  }

  /** The annotation emitter only appends statements and never gives back a blank node number. */
  lemma {:induction false} EmitExtends(prefixes: string -> string, acc: Acc, subject: Value, property: PropertyRef, value: Json)
    ensures Extends(acc, Emit(prefixes, acc, subject, property, value))
    decreases value, 1, 0
  {
    match value
    case JObject(members) =>
      if !IsReference(members) {
        var node := Blank(acc.next);
        var start := Acc(acc.triples + [Triple(subject, Term(prefixes, property), node)], acc.next + 1);
        EmitMembersExtends(prefixes, start, node, value, |members|);
      }
    case JArray(items) => EmitItemsExtends(prefixes, acc, subject, Term(prefixes, property), value, |items|);
    case _ =>
  }

  lemma {:induction false} EmitMembersExtends(prefixes: string -> string, acc: Acc, node: Value, value: Json, k: nat)
    requires value.JObject? && k <= |value.members|
    ensures Extends(acc, EmitMembers(prefixes, acc, node, value, k))
    decreases value, 0, k
  {
    if k > 0 {
      EmitMembersExtends(prefixes, acc, node, value, k - 1);
      var before := EmitMembers(prefixes, acc, node, value, k - 1);
      var member := value.members[k - 1];
      assert member in value.members;
      if member.0 != "@type" {
        EmitExtends(prefixes, before, node, Name(member.0), member.1);
      }
    }
  }

  lemma {:induction false} EmitItemsExtends(prefixes: string -> string, acc: Acc, subject: Value, property: Value, value: Json, k: nat)
    requires value.JArray? && k <= |value.items|
    ensures Extends(acc, EmitItems(prefixes, acc, subject, property, value, k))
    decreases value, 0, k
  {
    if k > 0 {
      EmitItemsExtends(prefixes, acc, subject, property, value, k - 1);
      assert value.items[k - 1] in value.items;
      EmitExtends(prefixes, EmitItems(prefixes, acc, subject, property, value, k - 1), subject, Resource(property), value.items[k - 1]);
    }
  }

  /**
   * The shape of what one annotation writes: an `@id` object one statement
   * to that resource, a `@value` object one literal, a scalar one value,
   * and any other object a statement to a fresh node, which the object's
   * members then describe.
   */
  lemma EmitShapes(prefixes: string -> string, acc: Acc, subject: Value, property: PropertyRef, value: Json)
    ensures var r := Emit(prefixes, acc, subject, property, value);
            var p := Term(prefixes, property);
            (value.JObject? && Truthy(Get(value.members, "@id")) ==>
               r == Acc(acc.triples + [Triple(subject, p, Iri(JsonText(Get(value.members, "@id").value)))], acc.next)) &&
            (value.JObject? && !Truthy(Get(value.members, "@id")) && Truthy(Get(value.members, "@value")) ==>
               r == Acc(acc.triples + [Triple(subject, p, ValueLiteral(prefixes, value.members))], acc.next)) &&
            (value.JObject? && !IsReference(value.members) ==>
               |acc.triples| < |r.triples| && r.triples[..|acc.triples| + 1] == acc.triples + [Triple(subject, p, Blank(acc.next))] &&
               acc.next < r.next) &&
            (!value.JObject? && !value.JArray? ==>
               r == Acc(acc.triples + [Triple(subject, p, Native(FromJson(value)))], acc.next))
  {
    if value.JObject? && !IsReference(value.members) {
      var node := Blank(acc.next);
      var start := Acc(acc.triples + [Triple(subject, Term(prefixes, property), node)], acc.next + 1);
      EmitMembersExtends(prefixes, start, node, value, |value.members|);
      var r := Emit(prefixes, acc, subject, property, value);
      assert start.triples <= r.triples;
      assert r.triples[..|acc.triples| + 1] == start.triples;
    }
  }

  /** A JSON value that is neither an object nor an array. */
  predicate Scalar(j: Json) {
    !j.JObject? && !j.JArray?
  }

  /** An array of scalars gives one statement per element, in order, all with the same subject and property. */
  lemma {:induction false} EmitScalarItems(prefixes: string -> string, acc: Acc, subject: Value, property: Value,
                                           value: Json, k: nat)
    requires value.JArray? && k <= |value.items|
    requires forall j :: 0 <= j < |value.items| ==> Scalar(value.items[j])
    ensures var r := EmitItems(prefixes, acc, subject, property, value, k);
            r.next == acc.next && |r.triples| == |acc.triples| + k && r.triples[..|acc.triples|] == acc.triples &&
            forall j :: 0 <= j < k ==> r.triples[|acc.triples| + j] == Triple(subject, property, Native(FromJson(value.items[j])))
    decreases k
  {
    if k > 0 {
      EmitScalarItems(prefixes, acc, subject, property, value, k - 1);
      var before := EmitItems(prefixes, acc, subject, property, value, k - 1);
      var item := value.items[k - 1];
      assert item in value.items;
      var r := EmitItems(prefixes, acc, subject, property, value, k);
      assert r == Acc(before.triples + [Triple(subject, property, Native(FromJson(item)))], before.next);
      forall j | 0 <= j < k
        ensures r.triples[|acc.triples| + j] == Triple(subject, property, Native(FromJson(value.items[j])))
      {
        if j < k - 1 {
          assert r.triples[|acc.triples| + j] == before.triples[|acc.triples| + j];
        }
      }
    }
  }

  /** The one statement a member of a nested object makes when it is `@type` or has a scalar value. */
  function MemberTriple(prefixes: string -> string, node: Value, member: (string, Json)): Triple {
    if member.0 == "@type" then Triple(node, RDF_TYPE, Expanded(prefixes, JsonText(member.1)))
    else Triple(node, Expanded(prefixes, member.0), Native(FromJson(member.1)))
  }

  /** The statements of the first `k` members, one each, in order. */
  function MemberTriples(prefixes: string -> string, node: Value, members: seq<(string, Json)>, k: nat): (r: seq<Triple>)
    requires k <= |members|
    ensures |r| == k
    ensures forall j :: 0 <= j < k ==> r[j] == MemberTriple(prefixes, node, members[j])
  {
    if k == 0 then [] else MemberTriples(prefixes, node, members, k - 1) + [MemberTriple(prefixes, node, members[k - 1])]
  }

  /** A member that makes exactly one statement: `@type`, or a scalar value. */
  predicate FlatMember(member: (string, Json)) {
    member.0 == "@type" || Scalar(member.1)
  }

  /** Members that are `@type` or scalars give one statement each about the node, in order, and draw no node. */
  lemma {:induction false} EmitFlatMembers(prefixes: string -> string, acc: Acc, node: Value, value: Json, k: nat)
    requires value.JObject? && k <= |value.members|
    requires forall j :: 0 <= j < |value.members| ==> FlatMember(value.members[j])
    ensures EmitMembers(prefixes, acc, node, value, k) ==
            Acc(acc.triples + MemberTriples(prefixes, node, value.members, k), acc.next)
    decreases k
  {
    if k > 0 {
      EmitFlatMembers(prefixes, acc, node, value, k - 1);
      var member := value.members[k - 1];
      assert FlatMember(member);
      var earlier := MemberTriples(prefixes, node, value.members, k - 1);
      Seqs.Associate(acc.triples, earlier, [MemberTriple(prefixes, node, member)]);
    }
  }

  /**
   * An object without `@id` or `@value` whose members are `@type` or scalars:
   * one link from the subject to a fresh node, then one statement per member
   * about that node, `rdf:type` for `@type`.
   */
  lemma FlatObject(prefixes: string -> string, acc: Acc, subject: Value, property: PropertyRef, value: Json)
    requires value.JObject? && !IsReference(value.members)
    requires forall j :: 0 <= j < |value.members| ==> FlatMember(value.members[j])
    ensures Emit(prefixes, acc, subject, property, value) ==
            Acc(acc.triples + [Triple(subject, Term(prefixes, property), Blank(acc.next))] +
                MemberTriples(prefixes, Blank(acc.next), value.members, |value.members|), acc.next + 1)
  {
    var start := Acc(acc.triples + [Triple(subject, Term(prefixes, property), Blank(acc.next))], acc.next + 1);
    EmitNested(prefixes, acc, subject, property, value);
    EmitFlatMembers(prefixes, start, Blank(acc.next), value, |value.members|);
  }

  /** An object without `@id` or `@value` is linked to a fresh node, whose members are then written. */
  lemma EmitNested(prefixes: string -> string, acc: Acc, subject: Value, property: PropertyRef, value: Json)
    requires value.JObject? && !IsReference(value.members)
    ensures Emit(prefixes, acc, subject, property, value) ==
            EmitMembers(prefixes, Acc(acc.triples + [Triple(subject, Term(prefixes, property), Blank(acc.next))], acc.next + 1),
                        Blank(acc.next), value, |value.members|)
  {
  }

  /** A run of annotations, like each of them, only appends. */
  lemma {:induction false} EmitAnnotationsExtends(prefixes: string -> string, acc: Acc, subject: Value,
                                                  annotations: seq<(string, Json)>, k: nat)
    requires k <= |annotations|
    ensures Extends(acc, EmitAnnotations(prefixes, acc, subject, annotations, k))
  {
    if k > 0 {
      EmitAnnotationsExtends(prefixes, acc, subject, annotations, k - 1);
      var before := EmitAnnotations(prefixes, acc, subject, annotations, k - 1);
      EmitExtends(prefixes, before, subject, Name(annotations[k - 1].0), annotations[k - 1].1);
    }
  }

  /**
   * Every statement appended from `a` to `b` is about `subject` or about a
   * blank node drawn on the way, and mentions no blank node outside the ones
   * already drawn.
   */
  predicate Scoped(a: Acc, b: Acc, subject: Value) {
    a.triples <= b.triples && a.next <= b.next &&
    forall i :: |a.triples| <= i < |b.triples| ==>
      (b.triples[i].s == subject || (b.triples[i].s.Blank? && a.next <= b.triples[i].s.id < b.next)) &&
      TripleBlanksWithin(b.triples[i], 0, b.next)
  }

  lemma ScopedTrans(a: Acc, b: Acc, c: Acc, subject: Value)
    requires Scoped(a, b, subject) && Scoped(b, c, subject)
    ensures Scoped(a, c, subject)
  {
    forall i | |a.triples| <= i < |c.triples|
      ensures (c.triples[i].s == subject || (c.triples[i].s.Blank? && a.next <= c.triples[i].s.id < c.next)) &&
              TripleBlanksWithin(c.triples[i], 0, c.next)
    {
      if i < |b.triples| {
        assert c.triples[i] == b.triples[i];
        AllBlanksWithinWiden([b.triples[i]], 0, b.next, 0, c.next);
        assert [b.triples[i]][0] == b.triples[i];
      }
    }
  }

  /** A nested emission about a node drawn on the way is scoped to the outer subject too. */
  lemma ScopedNested(a: Acc, b: Acc, c: Acc, subject: Value, node: nat)
    requires Scoped(a, b, subject) && a.next <= node < b.next && Scoped(b, c, Blank(node))
    ensures Scoped(a, c, subject)
  {
    forall i | |a.triples| <= i < |c.triples|
      ensures (c.triples[i].s == subject || (c.triples[i].s.Blank? && a.next <= c.triples[i].s.id < c.next)) &&
              TripleBlanksWithin(c.triples[i], 0, c.next)
    {
      if i < |b.triples| {
        assert c.triples[i] == b.triples[i];
        AllBlanksWithinWiden([b.triples[i]], 0, b.next, 0, c.next);
        assert [b.triples[i]][0] == b.triples[i];
      }
    }
  }

  /**
   * Blank node freshness: when the subject and property are already-drawn
   * nodes or not blank, everything the emitter writes stays within the
   * counter, and the new statements are about the subject or about nodes
   * drawn by this call.
   */
  lemma {:induction false} EmitScoped(prefixes: string -> string, acc: Acc, subject: Value, property: PropertyRef, value: Json)
    requires BlanksWithin(subject, 0, acc.next) && BlanksWithin(Term(prefixes, property), 0, acc.next)
    ensures Scoped(acc, Emit(prefixes, acc, subject, property, value), subject)
    decreases value, 1, 0
  {
    var r := Emit(prefixes, acc, subject, property, value);
    var p := Term(prefixes, property);
    match value
    case JObject(members) =>
      if Truthy(Get(members, "@id")) {
        assert r.triples[|acc.triples|] == Triple(subject, p, Iri(JsonText(Get(members, "@id").value)));
      } else if Truthy(Get(members, "@value")) {
        assert r.triples[|acc.triples|] == Triple(subject, p, ValueLiteral(prefixes, members));
      } else {
        var node := Blank(acc.next);
        var start := Acc(acc.triples + [Triple(subject, p, node)], acc.next + 1);
        BlanksWithinWiden(subject, 0, acc.next, 0, acc.next + 1);
        BlanksWithinWiden(p, 0, acc.next, 0, acc.next + 1);
        assert start.triples[|acc.triples|] == Triple(subject, p, node);
        assert Scoped(acc, start, subject);
        EmitMembersScoped(prefixes, start, acc.next, value, |members|);
        ScopedNested(acc, start, r, subject, acc.next);
      }
    case JArray(items) =>
      EmitItemsScoped(prefixes, acc, subject, p, value, |items|);
    case _ =>
      assert r.triples[|acc.triples|] == Triple(subject, p, Native(FromJson(value)));
  }

  lemma {:induction false} EmitMembersScoped(prefixes: string -> string, acc: Acc, node: nat, value: Json, k: nat)
    requires value.JObject? && k <= |value.members| && node < acc.next
    ensures Scoped(acc, EmitMembers(prefixes, acc, Blank(node), value, k), Blank(node))
    decreases value, 0, k
  {
    if k > 0 {
      EmitMembersScoped(prefixes, acc, node, value, k - 1);
      var before := EmitMembers(prefixes, acc, Blank(node), value, k - 1);
      var member := value.members[k - 1];
      assert member in value.members;
      var r := EmitMembers(prefixes, acc, Blank(node), value, k);
      if member.0 == "@type" {
        assert r.triples[|before.triples|] == Triple(Blank(node), RDF_TYPE, Expanded(prefixes, JsonText(member.1)));
        assert Scoped(before, r, Blank(node));
      } else {
        EmitScoped(prefixes, before, Blank(node), Name(member.0), member.1);
      }
      ScopedTrans(acc, before, r, Blank(node));
    }
  }

  lemma {:induction false} EmitItemsScoped(prefixes: string -> string, acc: Acc, subject: Value, property: Value, value: Json, k: nat)
    requires value.JArray? && k <= |value.items|
    requires BlanksWithin(subject, 0, acc.next) && BlanksWithin(property, 0, acc.next)
    ensures Scoped(acc, EmitItems(prefixes, acc, subject, property, value, k), subject)
    decreases value, 0, k
  {
    if k > 0 {
      EmitItemsScoped(prefixes, acc, subject, property, value, k - 1);
      var before := EmitItems(prefixes, acc, subject, property, value, k - 1);
      assert value.items[k - 1] in value.items;
      BlanksWithinWiden(subject, 0, acc.next, 0, before.next);
      BlanksWithinWiden(property, 0, acc.next, 0, before.next);
      EmitScoped(prefixes, before, subject, Resource(property), value.items[k - 1]);
      ScopedTrans(acc, before, EmitItems(prefixes, acc, subject, property, value, k), subject);
    }
  }
}
