/** The translator as the script runs it: one graph that every loop adds triples to in place,
    a fresh-name counter standing for uuid4(), and an early return wherever the script exits. */
module Translator {
  import opened Wrappers
  import opened Rdf
  import opened Records
  import opened Namespaces
  import opened Values
  import opened Registry
  import opened Semantics

  /** How a loop ended: normally, or at the point where the script exits. */
  datatype Status = Completed | Failed(error: Error)

  /** The new state follows walk `w`: the graph only grows; on normal completion it grew by
      exactly the walk's triples and the counter is the walk's; on an abort the error is the
      walk's. */
  predicate Follows(w: Walk, r: Status, g0: set<Triple>, g1: set<Triple>, n1: nat) {
    g0 <= g1 &&
    match w
    case Emitted(d, n) => r == Completed && g1 == g0 + d && n1 == n
    case Aborted(e) => r == Failed(e)
  }

  class Translator {
    const base: string
    const exactMatch: Option<string>
    const propinfo: map<string, string>
    var graph: set<Triple>
    var nextRef: nat

    function Cfg(): Config {
      Config(base, exactMatch, propinfo)
    }

    constructor (base: string, exactMatch: Option<string>, propinfo: map<string, string>)
      ensures this.base == base && this.exactMatch == exactMatch && this.propinfo == propinfo
      ensures graph == {} && nextRef == 0
    {
      this.base := base;
      this.exactMatch := exactMatch;
      this.propinfo := propinfo;
      graph := {};
      nextRef := 0;
    }

    /** The reference node named by the counter, which then moves on (uuid4() in the script).
        The counter is never reset during a run, so the names it hands out never repeat; the
        RunFreshness module proves this of the whole run. */
    method FreshReferenceNode() returns (node: Term)
      modifies this
      ensures node == ReferenceNode(base, old(nextRef)) && nextRef == old(nextRef) + 1
      ensures graph == old(graph)
    {
      node := ReferenceNode(base, nextRef);
      nextRef := nextRef + 1;
    }

    method AddReferenceSnaks(entity: string, property: string, node: Term, snaks: seq<Snak>) returns (r: Status)
      modifies this
      ensures Follows(ReferenceSnaksWalk(base, entity, property, node, old(nextRef), snaks), r, old(graph), graph, nextRef)
    {
      ghost var done: set<Triple> := {};
      PrependNothing(ReferenceSnaksWalk(base, entity, property, node, nextRef, snaks));
      var i := 0;
      while i < |snaks|
        invariant 0 <= i <= |snaks| && nextRef == old(nextRef)
        invariant graph == old(graph) + done
        invariant ReferenceSnaksWalk(base, entity, property, node, old(nextRef), snaks)
               == Prepend(done, ReferenceSnaksWalk(base, entity, property, node, nextRef, snaks[i..]))
      {
        assert snaks[i..][1..] == snaks[i + 1..];
        var t := ReferenceTriple(base, node, snaks[i]);
        match t {
          case Fail(f) =>
            return Failed(StatementFault(entity, property, f));
          case Ok(None) =>
          case Ok(Some(triple)) =>
            PrependTwice(done, {triple}, ReferenceSnaksWalk(base, entity, property, node, nextRef, snaks[i + 1..]));
            graph := graph + {triple};
            done := done + {triple};
        }
        i := i + 1;
      }
      r := Completed;
    }

    method AddReferenceGroups(entity: string, property: string, node: Term, groups: seq<SnakGroup>) returns (r: Status)
      modifies this
      ensures Follows(ReferenceGroupsWalk(base, entity, property, node, old(nextRef), groups), r, old(graph), graph, nextRef)
    {
      ghost var done: set<Triple> := {};
      PrependNothing(ReferenceGroupsWalk(base, entity, property, node, nextRef, groups));
      var i := 0;
      while i < |groups|
        invariant 0 <= i <= |groups|
        invariant graph == old(graph) + done
        invariant ReferenceGroupsWalk(base, entity, property, node, old(nextRef), groups)
               == Prepend(done, ReferenceGroupsWalk(base, entity, property, node, nextRef, groups[i..]))
      {
        assert groups[i..][1..] == groups[i + 1..];
        ghost var w := ReferenceSnaksWalk(base, entity, property, node, nextRef, groups[i].snaks);
        r := AddReferenceSnaks(entity, property, node, groups[i].snaks);
        if r.Failed? {
          return;
        }
        PrependTwice(done, w.triples, ReferenceGroupsWalk(base, entity, property, node, nextRef, groups[i + 1..]));
        done := done + w.triples;
        i := i + 1;
      }
      r := Completed;
    }

    method AddReferences(entity: string, property: string, statementNode: Term, refs: seq<Reference>) returns (r: Status)
      modifies this
      ensures Follows(ReferencesWalk(base, entity, property, statementNode, old(nextRef), refs), r, old(graph), graph, nextRef)
    {
      ghost var done: set<Triple> := {};
      PrependNothing(ReferencesWalk(base, entity, property, statementNode, nextRef, refs));
      var i := 0;
      while i < |refs|
        invariant 0 <= i <= |refs|
        invariant graph == old(graph) + done
        invariant ReferencesWalk(base, entity, property, statementNode, old(nextRef), refs)
               == Prepend(done, ReferencesWalk(base, entity, property, statementNode, nextRef, refs[i..]))
      {
        assert refs[i..][1..] == refs[i + 1..];
        var node := FreshReferenceNode();
        graph := graph + {DerivationTriple(statementNode, node)};
        if refs[i].snaks.None? {
          return Failed(StatementFault(entity, property, MissingKey));
        }
        ghost var w := ReferenceGroupsWalk(base, entity, property, node, nextRef, refs[i].snaks.value);
        r := AddReferenceGroups(entity, property, node, refs[i].snaks.value);
        if r.Failed? {
          return;
        }
        ghost var added := {DerivationTriple(statementNode, node)} + w.triples;
        PrependTwice(done, added, ReferencesWalk(base, entity, property, statementNode, nextRef, refs[i + 1..]));
        done := done + added;
        i := i + 1;
      }
      r := Completed;
    }

    method AddQualifierSnaks(entity: string, property: string, node: Term, snaks: seq<Snak>) returns (r: Status)
      modifies this
      ensures Follows(QualifierSnaksWalk(base, entity, property, node, old(nextRef), snaks), r, old(graph), graph, nextRef)
    {
      ghost var done: set<Triple> := {};
      PrependNothing(QualifierSnaksWalk(base, entity, property, node, nextRef, snaks));
      var i := 0;
      while i < |snaks|
        invariant 0 <= i <= |snaks| && nextRef == old(nextRef)
        invariant graph == old(graph) + done
        invariant QualifierSnaksWalk(base, entity, property, node, old(nextRef), snaks)
               == Prepend(done, QualifierSnaksWalk(base, entity, property, node, nextRef, snaks[i..]))
      {
        assert snaks[i..][1..] == snaks[i + 1..];
        var t := QualifierTriple(base, node, snaks[i]);
        match t {
          case Fail(f) =>
            return Failed(StatementFault(entity, property, f));
          case Ok(None) =>
          case Ok(Some(triple)) =>
            PrependTwice(done, {triple}, QualifierSnaksWalk(base, entity, property, node, nextRef, snaks[i + 1..]));
            graph := graph + {triple};
            done := done + {triple};
        }
        i := i + 1;
      }
      r := Completed;
    }

    method AddQualifierGroups(entity: string, property: string, node: Term, groups: seq<SnakGroup>) returns (r: Status)
      modifies this
      ensures Follows(QualifierGroupsWalk(base, entity, property, node, old(nextRef), groups), r, old(graph), graph, nextRef)
    {
      ghost var done: set<Triple> := {};
      PrependNothing(QualifierGroupsWalk(base, entity, property, node, nextRef, groups));
      var i := 0;
      while i < |groups|
        invariant 0 <= i <= |groups|
        invariant graph == old(graph) + done
        invariant QualifierGroupsWalk(base, entity, property, node, old(nextRef), groups)
               == Prepend(done, QualifierGroupsWalk(base, entity, property, node, nextRef, groups[i..]))
      {
        assert groups[i..][1..] == groups[i + 1..];
        ghost var w := QualifierSnaksWalk(base, entity, property, node, nextRef, groups[i].snaks);
        r := AddQualifierSnaks(entity, property, node, groups[i].snaks);
        if r.Failed? {
          return;
        }
        PrependTwice(done, w.triples, QualifierGroupsWalk(base, entity, property, node, nextRef, groups[i + 1..]));
        done := done + w.triples;
        i := i + 1;
      }
      r := Completed;
    }

    /** One statement: the claim link, then (inside the script's try block) the exactMatch
        triple, the direct and statement-value triples, the references and the qualifiers. */
    method AddStatement(entity: string, property: string, rtype: string, s: Statement) returns (r: Status)
      modifies this
      ensures Follows(StatementWalk(Cfg(), entity, property, rtype, old(nextRef), s), r, old(graph), graph, nextRef)
    {
      if s.id.None? {
        return Failed(MissingStatementId(entity, property));
      }
      var node := StatementNode(base, s.id.value);
      graph := graph + {LinkTriple(base, entity, property, s.id.value)};

      var datavalue := DataValueOf(s);
      if datavalue.Fail? {
        return Failed(StatementFault(entity, property, datavalue.error));
      }
      var dv := datavalue.value;
      ghost var exact := ExactMatchTriples(Cfg(), entity, property, dv);
      if exactMatch == Some(property) {
        var target := TextPayload(dv);
        if target.Fail? {
          return Failed(StatementFault(entity, property, target.error));
        }
        graph := graph + {ExactMatchTriple(base, entity, target.value)};
      }
      ghost var main := MainTriples(base, entity, property, rtype, node, dv);
      var o := MainObject(base, rtype, dv);
      if o.Fail? {
        return Failed(StatementFault(entity, property, o.error));
      }
      if o.value.Some? {
        graph := graph + {DirectTriple(base, entity, property, o.value.value)};
        graph := graph + {ValueTriple(base, node, property, o.value.value)};
      }
      ghost var head := {LinkTriple(base, entity, property, s.id.value)} + exact.value + main.value;
      assert graph == old(graph) + head;
      ghost var tail := StatementTailWalk(base, entity, property, node, nextRef, s);
      r := AddStatementTail(entity, property, node, s);
      if r.Completed? {
        PrependTwice({LinkTriple(base, entity, property, s.id.value)}, exact.value + main.value, tail);
      }
    }

    /** The references and then the qualifiers of a statement, when it has them. */
    method AddStatementTail(entity: string, property: string, node: Term, s: Statement) returns (r: Status)
      modifies this
      ensures Follows(StatementTailWalk(base, entity, property, node, old(nextRef), s), r, old(graph), graph, nextRef)
    {
      ghost var refs := OptionalReferencesWalk(base, entity, property, node, nextRef, s);
      if s.references.Some? {
        r := AddReferences(entity, property, node, s.references.value);
        if r.Failed? {
          return;
        }
      }
      assert refs.Emitted? && graph == old(graph) + refs.triples && nextRef == refs.next;
      ghost var quals := OptionalQualifiersWalk(base, entity, property, node, nextRef, s);
      if s.qualifiers.Some? {
        r := AddQualifierGroups(entity, property, node, s.qualifiers.value);
        if r.Failed? {
          return;
        }
      }
      assert quals.Emitted? && graph == old(graph) + refs.triples + quals.triples;
      r := Completed;
    }

    /** The inner loop over a claim's statements. */
    method AddClaimPass(entity: string, property: string, rtype: string, stmts: seq<Statement>) returns (r: Status)
      modifies this
      ensures Follows(PassWalk(Cfg(), entity, property, rtype, old(nextRef), stmts), r, old(graph), graph, nextRef)
    {
      ghost var done: set<Triple> := {};
      PrependNothing(PassWalk(Cfg(), entity, property, rtype, nextRef, stmts));
      var i := 0;
      while i < |stmts|
        invariant 0 <= i <= |stmts|
        invariant graph == old(graph) + done
        invariant PassWalk(Cfg(), entity, property, rtype, old(nextRef), stmts)
               == Prepend(done, PassWalk(Cfg(), entity, property, rtype, nextRef, stmts[i..]))
      {
        assert stmts[i..][1..] == stmts[i + 1..];
        ghost var w := StatementWalk(Cfg(), entity, property, rtype, nextRef, stmts[i]);
        r := AddStatement(entity, property, rtype, stmts[i]);
        if r.Failed? {
          return;
        }
        PrependTwice(done, w.triples, PassWalk(Cfg(), entity, property, rtype, nextRef, stmts[i + 1..]));
        done := done + w.triples;
        i := i + 1;
      }
      r := Completed;
    }

    /** The statements of one claim: the inner loop runs once for every statement of the
        claim, as the script nests two loops over the same list. */
    method AddClaim(entity: string, property: string, rtype: string, stmts: seq<Statement>) returns (r: Status)
      modifies this
      ensures Follows(PassesWalk(Cfg(), entity, property, rtype, old(nextRef), stmts, |stmts|), r, old(graph), graph, nextRef)
    {
      ghost var done: set<Triple> := {};
      PrependNothing(PassesWalk(Cfg(), entity, property, rtype, nextRef, stmts, |stmts|));
      var pass := 0;
      while pass < |stmts|
        invariant 0 <= pass <= |stmts|
        invariant graph == old(graph) + done
        invariant PassesWalk(Cfg(), entity, property, rtype, old(nextRef), stmts, |stmts|)
               == Prepend(done, PassesWalk(Cfg(), entity, property, rtype, nextRef, stmts, |stmts| - pass))
      {
        ghost var w := PassWalk(Cfg(), entity, property, rtype, nextRef, stmts);
        r := AddClaimPass(entity, property, rtype, stmts);
        if r.Failed? {
          return;
        }
        PrependTwice(done, w.triples, PassesWalk(Cfg(), entity, property, rtype, nextRef, stmts, |stmts| - pass - 1));
        done := done + w.triples;
        pass := pass + 1;
      }
      r := Completed;
    }

    /** The label, the description and, for a property, the typing triples of an entity. */
    method AddEntityHeader(e: Entity) returns (r: Status)
      modifies this
      ensures nextRef == old(nextRef)
      ensures EntityHeader(base, e).Fail? ==> r == Failed(EntityHeader(base, e).error) && graph == old(graph)
      ensures EntityHeader(base, e).Ok? ==> r == Completed && graph == old(graph) + EntityHeader(base, e).value
    {
      var id := e.id;
      if id == "" {
        return Failed(EmptyEntityId);
      }
      var isProperty := id[0] == 'P';
      if "en" !in e.labels {
        return Failed(NoEnglishLabel(id));
      }
      graph := graph + {LabelTriple(base, id, e.labels["en"])};
      if "en" in e.descriptions {
        graph := graph + {DescriptionTriple(base, id, e.descriptions["en"])};
      }
      if isProperty {
        var node := EntityNode(base, id);
        graph := graph + {Triple(node, IRI(RDF_TYPE), IRI(WIKIBASE_PROPERTY))};
        graph := graph + {Triple(node, IRI(WIKIBASE_DIRECT_CLAIM), PropIri(base, PropDirect, id))};
        graph := graph + {Triple(node, IRI(WIKIBASE_CLAIM), PropIri(base, Prop, id))};
      }
      r := Completed;
    }

    /** One entity record: label, description, property typing, then every claim, whose
        property must be in the registry. */
    method AddEntity(e: Entity) returns (r: Status)
      modifies this
      ensures Follows(EntityWalk(Cfg(), old(nextRef), e), r, old(graph), graph, nextRef)
    {
      var id := e.id;
      ghost var header := EntityHeader(base, e);
      r := AddEntityHeader(e);
      if r.Failed? {
        return;
      }
      ghost var done := header.value;
      PrependNothing(ClaimsWalk(Cfg(), id, nextRef, e.claims));

      var i := 0;
      while i < |e.claims|
        invariant 0 <= i <= |e.claims|
        invariant graph == old(graph) + done
        invariant EntityWalk(Cfg(), old(nextRef), e)
               == Prepend(done, ClaimsWalk(Cfg(), id, nextRef, e.claims[i..]))
      {
        assert e.claims[i..][1..] == e.claims[i + 1..];
        var c := e.claims[i];
        if c.property !in propinfo {
          return Failed(UnknownProperty(id, c.property));
        }
        ghost var w := ClaimWalk(Cfg(), id, nextRef, c);
        r := AddClaim(id, c.property, propinfo[c.property], c.statements);
        if r.Failed? {
          return;
        }
        PrependTwice(done, w.triples, ClaimsWalk(Cfg(), id, nextRef, e.claims[i + 1..]));
        done := done + w.triples;
        i := i + 1;
      }
      r := Completed;
    }

    /** The loop over the entity rows. */
    method AddEntities(es: seq<Entity>) returns (r: Status)
      modifies this
      ensures Follows(EntitiesWalk(Cfg(), old(nextRef), es), r, old(graph), graph, nextRef)
    {
      ghost var done: set<Triple> := {};
      PrependNothing(EntitiesWalk(Cfg(), nextRef, es));
      var i := 0;
      while i < |es|
        invariant 0 <= i <= |es|
        invariant graph == old(graph) + done
        invariant EntitiesWalk(Cfg(), old(nextRef), es) == Prepend(done, EntitiesWalk(Cfg(), nextRef, es[i..]))
      {
        assert es[i..][1..] == es[i + 1..];
        ghost var w := EntityWalk(Cfg(), nextRef, es[i]);
        r := AddEntity(es[i]);
        if r.Failed? {
          return;
        }
        PrependTwice(done, w.triples, EntitiesWalk(Cfg(), nextRef, es[i + 1..]));
        done := done + w.triples;
        i := i + 1;
      }
      r := Completed;
    }
  }

  /** The whole script: build the registry, translate every entity into a fresh graph, and
      hand the graph to serialization only when nothing aborted. */
  method Convert(base: string, exactMatch: Option<string>, rows: seq<PropertyRow>, es: seq<Entity>)
    returns (r: Result<set<Triple>, Error>)
    ensures r == Translate(base, exactMatch, rows, es)
  {
    var registry := BuildRegistry(rows);
    if registry.Fail? {
      return Fail(registry.error);
    }
    var translator := new Translator(base, exactMatch, registry.value);
    assert translator.Cfg() == Config(base, exactMatch, registry.value);
    var status := translator.AddEntities(es);
    if status.Failed? {
      return Fail(status.error);
    }
    assert translator.graph == EntitiesWalk(translator.Cfg(), 0, es).triples;
    r := Ok(translator.graph);
  }
}
