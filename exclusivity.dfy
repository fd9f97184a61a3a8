/** The "only when" half of the statement rules: which triples a statement can add under the
    skos:exactMatch predicate and under its own prop/direct/ and prop/statement/ predicates.
    They rest on the fact that no local predicate IRI is one of the two external vocabulary
    IRIs a statement uses as predicates, whatever the configured base. */
module Exclusivity {
  import opened Wrappers
  import opened Rdf
  import opened Records
  import opened Namespaces
  import opened Values
  import opened Registry
  import opened Semantics
  import opened Subgraphs

  /** An IRI under base + "prop/" has a "p" directly before a "/" right after the base. */
  lemma PropSlashAt(base: string, iri: string)
    ensures base + "prop/" <= iri ==> |base| + 5 <= |iri| && iri[|base| + 3] == 'p' && iri[|base| + 4] == '/'
  {
    if base + "prop/" <= iri {
      assert (base + "prop/")[|base| + 3] == 'p' && (base + "prop/")[|base| + 4] == '/';
    }
  }

  /** Neither skos:exactMatch nor prov:wasDerivedFrom lies in the prop/ namespace of any base:
      neither has a "p" directly before a "/". */
  lemma VocabularyOutsideProp(base: string)
    ensures !(base + "prop/" <= SKOS_EXACT_MATCH) && !(base + "prop/" <= PROV_WAS_DERIVED_FROM)
  {
    PropSlashAt(base, SKOS_EXACT_MATCH);
    PropSlashAt(base, PROV_WAS_DERIVED_FROM);
  }

  /** The predicates a statement's references and qualifiers use. */
  predicate TailPredicate(base: string, pred: Term) {
    pred == IRI(PROV_WAS_DERIVED_FROM) ||
    (pred.IRI? && (InNamespace(base, PropReference, pred.iri) || InNamespace(base, PropQualifier, pred.iri)))
  }

  /** Every triple a statement's references and qualifiers add uses prov:wasDerivedFrom or a
      prop/reference/ or prop/qualifier/ predicate. */
  lemma StatementTailPredicates(base: string, entity: string, property: string, node: Term, n: nat, s: Statement)
    requires StatementTailWalk(base, entity, property, node, n, s).Emitted?
    ensures forall t :: t in StatementTailWalk(base, entity, property, node, n, s).triples ==> TailPredicate(base, t.pred)
  {
    StatementTailParts(base, entity, property, node, n, s);
    var refs := OptionalReferencesWalk(base, entity, property, node, n, s);
    var quals := OptionalQualifiersWalk(base, entity, property, node, refs.next, s);
    if s.references.Some? {
      ReferencesExact(base, entity, property, node, n, s.references.value);
      forall t | t in refs.triples
        ensures TailPredicate(base, t.pred)
      {
        var r :| 0 <= r < |s.references.value| && ReferenceGives(base, node, n + r, s.references.value[r], t);
        if t != DerivationTriple(node, ReferenceNode(base, n + r)) {
          var groups := s.references.value[r].snaks.value;
          var g :| 0 <= g < |groups| && ReferenceSnaksGive(base, ReferenceNode(base, n + r), groups[g].snaks, t);
          var k :| 0 <= k < |groups[g].snaks| && ReferenceTriple(base, ReferenceNode(base, n + r), groups[g].snaks[k]) == Ok(Some(t));
          assert InNamespace(base, PropReference, t.pred.iri);
        }
      }
    }
    if s.qualifiers.Some? {
      QualifierGroupsExact(base, entity, property, node, refs.next, s.qualifiers.value);
      forall t | t in quals.triples
        ensures TailPredicate(base, t.pred)
      {
        var groups := s.qualifiers.value;
        var g :| 0 <= g < |groups| && QualifierSnaksGive(base, node, groups[g].snaks, t);
        var k :| 0 <= k < |groups[g].snaks| && QualifierTriple(base, node, groups[g].snaks[k]) == Ok(Some(t));
        assert InNamespace(base, PropQualifier, t.pred.iri);
      }
    }
  }

  /** No IRI of a predicate namespace is one of the two external statement predicates. */
  lemma LocalPredicateIsNotVocabulary(base: string, role: Role, iri: string)
    requires IsPredicateRole(role) && InNamespace(base, role, iri)
    ensures iri != SKOS_EXACT_MATCH && iri != PROV_WAS_DERIVED_FROM
  {
    PredicateNamespaceUnderProp(base, role, iri);
    VocabularyOutsideProp(base);
  }

  /** A statement adds a prop/direct/<property> triple only when the property's registered
      datatype is one of the main types, and that triple is then the direct triple on the
      entity carrying the statement's main value. */
  lemma StatementDirectOnlyWhen(cfg: Config, entity: string, property: string, rtype: string, n: nat, s: Statement, t: Triple)
    requires StatementWalk(cfg, entity, property, rtype, n, s).Emitted?
    requires t in StatementWalk(cfg, entity, property, rtype, n, s).triples
    requires t.pred == PropIri(cfg.base, PropDirect, property)
    ensures rtype in MAIN_TYPES
    ensures DataValueOf(s).Ok? && MainObject(cfg.base, rtype, DataValueOf(s).value).Ok?
    ensures MainObject(cfg.base, rtype, DataValueOf(s).value).value.Some?
    ensures t == DirectTriple(cfg.base, entity, property, MainObject(cfg.base, rtype, DataValueOf(s).value).value.value)
  {
    var base := cfg.base;
    StatementWalkParts(cfg, entity, property, rtype, n, s);
    var node := StatementNode(base, s.id.value);
    var dv := DataValueOf(s).value;
    var tail := StatementTailWalk(base, entity, property, node, n, s);
    StatementTailPredicates(base, entity, property, node, n, s);
    LocalPredicateIsNotVocabulary(base, PropDirect, t.pred.iri);
    assert t != LinkTriple(base, entity, property, s.id.value);
    assert t !in ExactMatchTriples(cfg, entity, property, dv).value;
    if t in tail.triples {
      PropSubspacesDisjoint(base, PropDirect, PropReference, t.pred.iri);
      PropSubspacesDisjoint(base, PropDirect, PropQualifier, t.pred.iri);
      assert false;
    }
    assert t in MainTriples(base, entity, property, rtype, node, dv).value;
  }

  /** Likewise, a statement adds a prop/statement/<property> triple only for a main datatype,
      and it is then the statement-value triple on the statement node. */
  lemma StatementValueOnlyWhen(cfg: Config, entity: string, property: string, rtype: string, n: nat, s: Statement, t: Triple)
    requires StatementWalk(cfg, entity, property, rtype, n, s).Emitted?
    requires t in StatementWalk(cfg, entity, property, rtype, n, s).triples
    requires t.pred == PropIri(cfg.base, PropStatement, property)
    ensures rtype in MAIN_TYPES
    ensures s.id.Some? && DataValueOf(s).Ok? && MainObject(cfg.base, rtype, DataValueOf(s).value).Ok?
    ensures MainObject(cfg.base, rtype, DataValueOf(s).value).value.Some?
    ensures t == ValueTriple(cfg.base, StatementNode(cfg.base, s.id.value), property,
                             MainObject(cfg.base, rtype, DataValueOf(s).value).value.value)
  {
    var base := cfg.base;
    StatementWalkParts(cfg, entity, property, rtype, n, s);
    var node := StatementNode(base, s.id.value);
    var dv := DataValueOf(s).value;
    var tail := StatementTailWalk(base, entity, property, node, n, s);
    StatementTailPredicates(base, entity, property, node, n, s);
    LocalPredicateIsNotVocabulary(base, PropStatement, t.pred.iri);
    assert t != LinkTriple(base, entity, property, s.id.value);
    assert t !in ExactMatchTriples(cfg, entity, property, dv).value;
    if t in tail.triples {
      PropSubspacesDisjoint(base, PropStatement, PropReference, t.pred.iri);
      PropSubspacesDisjoint(base, PropStatement, PropQualifier, t.pred.iri);
      assert false;
    }
    assert t in MainTriples(base, entity, property, rtype, node, dv).value;
  }

  /** A statement adds a skos:exactMatch triple only when its claim property is the configured
      exactMatch property, and that triple is then the one whose object is the raw value. */
  lemma StatementExactOnlyWhen(cfg: Config, entity: string, property: string, rtype: string, n: nat, s: Statement, t: Triple)
    requires StatementWalk(cfg, entity, property, rtype, n, s).Emitted?
    requires t in StatementWalk(cfg, entity, property, rtype, n, s).triples
    requires t.pred == IRI(SKOS_EXACT_MATCH)
    ensures cfg.exactMatch == Some(property)
    ensures DataValueOf(s).Ok? && TextPayload(DataValueOf(s).value).Ok?
    ensures t == ExactMatchTriple(cfg.base, entity, TextPayload(DataValueOf(s).value).value)
  {
    var base := cfg.base;
    StatementWalkParts(cfg, entity, property, rtype, n, s);
    var node := StatementNode(base, s.id.value);
    var dv := DataValueOf(s).value;
    var tail := StatementTailWalk(base, entity, property, node, n, s);
    StatementTailPredicates(base, entity, property, node, n, s);
    LocalPredicateIsNotVocabulary(base, Prop, Mint(base, Prop, property));
    LocalPredicateIsNotVocabulary(base, PropDirect, Mint(base, PropDirect, property));
    LocalPredicateIsNotVocabulary(base, PropStatement, Mint(base, PropStatement, property));
    assert t != LinkTriple(base, entity, property, s.id.value);
    assert t !in MainTriples(base, entity, property, rtype, node, dv).value;
    if t in tail.triples {
      if InNamespace(base, PropReference, t.pred.iri) {
        LocalPredicateIsNotVocabulary(base, PropReference, t.pred.iri);
      } else if InNamespace(base, PropQualifier, t.pred.iri) {
        LocalPredicateIsNotVocabulary(base, PropQualifier, t.pred.iri);
      }
      assert false;
    }
    assert t in ExactMatchTriples(cfg, entity, property, dv).value;
  }

  /** Every skos:exactMatch triple of the set is there because the option names `property`. */
  ghost predicate ExactMatchOnlyFor(cfg: Config, property: string, d: set<Triple>) {
    forall t :: t in d && t.pred == IRI(SKOS_EXACT_MATCH) ==> cfg.exactMatch == Some(property)
  }

  /** Every skos:exactMatch triple of the set is there because the option is set. */
  ghost predicate ExactMatchOnlyConfigured(cfg: Config, d: set<Triple>) {
    forall t :: t in d && t.pred == IRI(SKOS_EXACT_MATCH) ==> cfg.exactMatch.Some?
  }

  /** A pass over the statements of a claim adds skos:exactMatch triples only when its property
      is the configured one. */
  lemma {:induction false} PassWalkExactMatchOnlyFor(cfg: Config, entity: string, property: string, rtype: string, n: nat, stmts: seq<Statement>)
    requires PassWalk(cfg, entity, property, rtype, n, stmts).Emitted?
    ensures ExactMatchOnlyFor(cfg, property, PassWalk(cfg, entity, property, rtype, n, stmts).triples)
    decreases |stmts|
  {
    if stmts != [] {
      PassWalkStep(cfg, entity, property, rtype, n, stmts);
      var w := StatementWalk(cfg, entity, property, rtype, n, stmts[0]);
      PassWalkExactMatchOnlyFor(cfg, entity, property, rtype, w.next, stmts[1..]);
      forall t | t in w.triples && t.pred == IRI(SKOS_EXACT_MATCH)
        ensures cfg.exactMatch == Some(property)
      {
        StatementExactOnlyWhen(cfg, entity, property, rtype, n, stmts[0], t);
      }
    }
  }

  lemma {:induction false} PassesWalkExactMatchOnlyFor(cfg: Config, entity: string, property: string, rtype: string, n: nat, stmts: seq<Statement>, k: nat)
    requires PassesWalk(cfg, entity, property, rtype, n, stmts, k).Emitted?
    ensures ExactMatchOnlyFor(cfg, property, PassesWalk(cfg, entity, property, rtype, n, stmts, k).triples)
    decreases k
  {
    if k > 0 {
      PassesWalkStep(cfg, entity, property, rtype, n, stmts, k);
      var w := PassWalk(cfg, entity, property, rtype, n, stmts);
      PassWalkExactMatchOnlyFor(cfg, entity, property, rtype, n, stmts);
      PassesWalkExactMatchOnlyFor(cfg, entity, property, rtype, w.next, stmts, k - 1);
    }
  }

  lemma {:induction false} ClaimsWalkExactMatchOnlyConfigured(cfg: Config, entity: string, n: nat, claims: seq<Claim>)
    requires ClaimsWalk(cfg, entity, n, claims).Emitted?
    ensures ExactMatchOnlyConfigured(cfg, ClaimsWalk(cfg, entity, n, claims).triples)
    decreases |claims|
  {
    if claims != [] {
      ClaimsWalkStep(cfg, entity, n, claims);
      var c := claims[0];
      var w := ClaimWalk(cfg, entity, n, c);
      PassesWalkExactMatchOnlyFor(cfg, entity, c.property, cfg.propinfo[c.property], n, c.statements, |c.statements|);
      ClaimsWalkExactMatchOnlyConfigured(cfg, entity, w.next, claims[1..]);
    }
  }

  /** Entity headers never use the skos:exactMatch predicate. */
  lemma HeaderWithoutExactMatch(base: string, e: Entity)
    requires EntityHeader(base, e).Ok?
    ensures forall t :: t in EntityHeader(base, e).value ==> t.pred != IRI(SKOS_EXACT_MATCH)
  {
  }

  lemma {:induction false} EntitiesWalkExactMatchOnlyConfigured(cfg: Config, n: nat, es: seq<Entity>)
    requires EntitiesWalk(cfg, n, es).Emitted?
    ensures ExactMatchOnlyConfigured(cfg, EntitiesWalk(cfg, n, es).triples)
    decreases |es|
  {
    if es != [] {
      EntitiesWalkStep(cfg, n, es);
      var w := EntityWalk(cfg, n, es[0]);
      EntityWalkParts(cfg, n, es[0]);
      HeaderWithoutExactMatch(cfg.base, es[0]);
      ClaimsWalkExactMatchOnlyConfigured(cfg, es[0].id, n, es[0].claims);
      EntitiesWalkExactMatchOnlyConfigured(cfg, w.next, es[1..]);
    }
  }

  /** With the exactMatch option left at its default, a run's output holds no skos:exactMatch
      triple at all. */
  lemma TranslateWithoutExactMatch(base: string, rows: seq<PropertyRow>, es: seq<Entity>)
    requires Translate(base, None, rows, es).Ok?
    ensures forall t :: t in Translate(base, None, rows, es).value ==> t.pred != IRI(SKOS_EXACT_MATCH)
  {
    var cfg := Config(base, None, RegistryOf(rows).value);
    EntitiesWalkExactMatchOnlyConfigured(cfg, 0, es);
  }
}
