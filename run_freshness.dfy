/** Fresh reference names across a whole run. The counter that stands for uuid4() is threaded
    through every claim of every entity without ever being reset. So the run uses exactly as
    many names as its claims' passes have references. Every prov:wasDerivedFrom link points
    at a name drawn inside the range the run used. Different (entity, claim, pass, statement,
    reference) positions are linked to different names. */
module RunFreshness {
  import opened Wrappers
  import opened Rdf
  import opened Records
  import opened Namespaces
  import opened Values
  import opened Registry
  import opened Semantics
  import opened Freshness
  import opened Subgraphs
  import opened Exclusivity

  /** The fresh names a claim uses: one pass over its statements for each statement it holds. */
  function ClaimNames(c: Claim): nat {
    Times(|c.statements|, RefTotal(c.statements))
  }

  /** The fresh names a list of claims uses. */
  function ClaimsNames(claims: seq<Claim>): nat
    decreases |claims|
  {
    if claims == [] then 0 else ClaimNames(claims[0]) + ClaimsNames(claims[1..])
  }

  /** The fresh names a list of entities uses. */
  function EntitiesNames(es: seq<Entity>): nat
    decreases |es|
  {
    if es == [] then 0 else ClaimsNames(es[0].claims) + EntitiesNames(es[1..])
  }

  /** Every prov:wasDerivedFrom triple of `d` points at a reference node numbered in [lo, hi). */
  ghost predicate DerivedWithin(base: string, d: set<Triple>, lo: nat, hi: nat) {
    forall t :: t in d ==> t.pred == IRI(PROV_WAS_DERIVED_FROM) ==>
      exists k :: lo <= k < hi && t.obj == ReferenceNode(base, k)
  }

  /** No triple of `d` uses the prov:wasDerivedFrom predicate. */
  ghost predicate NoDerivation(d: set<Triple>) {
    forall t :: t in d ==> t.pred != IRI(PROV_WAS_DERIVED_FROM)
  }

  /** Two sets whose links point at adjacent ranges point, together, at their union. */
  lemma WithinJoin(base: string, d1: set<Triple>, d2: set<Triple>, lo: nat, mid: nat, hi: nat)
    requires lo <= mid <= hi
    requires DerivedWithin(base, d1, lo, mid) && DerivedWithin(base, d2, mid, hi)
    ensures DerivedWithin(base, d1 + d2, lo, hi)
  {
    forall t | t in d1 + d2 && t.pred == IRI(PROV_WAS_DERIVED_FROM)
      ensures exists k :: lo <= k < hi && t.obj == ReferenceNode(base, k)
    {
      if t in d1 {
        var k :| lo <= k < mid && t.obj == ReferenceNode(base, k);
      } else {
        var k :| mid <= k < hi && t.obj == ReferenceNode(base, k);
      }
    }
  }

  /** The snaks of a reference are triples under prop/reference/ predicates only. */
  lemma ReferenceGroupsNoDerivation(base: string, entity: string, property: string, node: Term, n: nat, groups: seq<SnakGroup>)
    requires ReferenceGroupsWalk(base, entity, property, node, n, groups).Emitted?
    ensures NoDerivation(ReferenceGroupsWalk(base, entity, property, node, n, groups).triples)
  {
    ReferenceGroupsExact(base, entity, property, node, n, groups);
    forall t | t in ReferenceGroupsWalk(base, entity, property, node, n, groups).triples
      ensures t.pred != IRI(PROV_WAS_DERIVED_FROM)
    {
      var g :| 0 <= g < |groups| && ReferenceSnaksGive(base, node, groups[g].snaks, t);
      var k :| 0 <= k < |groups[g].snaks| && ReferenceTriple(base, node, groups[g].snaks[k]) == Ok(Some(t));
      assert InNamespace(base, PropReference, t.pred.iri);
      LocalPredicateIsNotVocabulary(base, PropReference, t.pred.iri);
    }
  }

  /** The qualifiers of a statement are triples under prop/qualifier/ predicates only. */
  lemma QualifierGroupsNoDerivation(base: string, entity: string, property: string, node: Term, n: nat, groups: seq<SnakGroup>)
    requires QualifierGroupsWalk(base, entity, property, node, n, groups).Emitted?
    ensures NoDerivation(QualifierGroupsWalk(base, entity, property, node, n, groups).triples)
  {
    QualifierGroupsExact(base, entity, property, node, n, groups);
    forall t | t in QualifierGroupsWalk(base, entity, property, node, n, groups).triples
      ensures t.pred != IRI(PROV_WAS_DERIVED_FROM)
    {
      var g :| 0 <= g < |groups| && QualifierSnaksGive(base, node, groups[g].snaks, t);
      var k :| 0 <= k < |groups[g].snaks| && QualifierTriple(base, node, groups[g].snaks[k]) == Ok(Some(t));
      assert InNamespace(base, PropQualifier, t.pred.iri);
      LocalPredicateIsNotVocabulary(base, PropQualifier, t.pred.iri);
    }
  }

  /** The references of a statement starting at counter n link only to nodes n .. n + |refs| - 1. */
  lemma {:induction false} ReferencesWithin(base: string, entity: string, property: string, statementNode: Term, n: nat, refs: seq<Reference>)
    requires ReferencesWalk(base, entity, property, statementNode, n, refs).Emitted?
    ensures DerivedWithin(base, ReferencesWalk(base, entity, property, statementNode, n, refs).triples, n, n + |refs|)
    decreases |refs|
  {
    if refs != [] {
      var node := ReferenceNode(base, n);
      var groups := refs[0].snaks.value;
      var g := ReferenceGroupsWalk(base, entity, property, node, n + 1, groups);
      ReferenceGroupsKeepCounter(base, entity, property, node, n + 1, groups);
      ReferenceGroupsNoDerivation(base, entity, property, node, n + 1, groups);
      ReferencesWithin(base, entity, property, statementNode, g.next, refs[1..]);
      WithinJoin(base, {DerivationTriple(statementNode, node)} + g.triples,
                 ReferencesWalk(base, entity, property, statementNode, g.next, refs[1..]).triples, n, n + 1, n + |refs|);
    }
  }

  /** A statement's claim link, exactMatch triple and main triples use local prop/, prop/direct/
      and prop/statement/ predicates or skos:exactMatch, never prov:wasDerivedFrom. */
  lemma StatementHeadNoDerivation(cfg: Config, entity: string, property: string, rtype: string, s: Statement)
    requires s.id.Some? && DataValueOf(s).Ok?
    requires ExactMatchTriples(cfg, entity, property, DataValueOf(s).value).Ok?
    requires MainTriples(cfg.base, entity, property, rtype, StatementNode(cfg.base, s.id.value), DataValueOf(s).value).Ok?
    ensures NoDerivation({LinkTriple(cfg.base, entity, property, s.id.value)}
                         + ExactMatchTriples(cfg, entity, property, DataValueOf(s).value).value
                         + MainTriples(cfg.base, entity, property, rtype, StatementNode(cfg.base, s.id.value), DataValueOf(s).value).value)
  {
    var base := cfg.base;
    LocalPredicateIsNotVocabulary(base, Prop, Mint(base, Prop, property));
    LocalPredicateIsNotVocabulary(base, PropDirect, Mint(base, PropDirect, property));
    LocalPredicateIsNotVocabulary(base, PropStatement, Mint(base, PropStatement, property));
    assert |SKOS_EXACT_MATCH| == 46 && |PROV_WAS_DERIVED_FROM| == 40;
  }

  /** A statement starting at counter n links only to nodes n .. n + RefCount(s) - 1. */
  lemma StatementWithin(cfg: Config, entity: string, property: string, rtype: string, n: nat, s: Statement)
    requires StatementWalk(cfg, entity, property, rtype, n, s).Emitted?
    ensures DerivedWithin(cfg.base, StatementWalk(cfg, entity, property, rtype, n, s).triples, n, n + RefCount(s))
  {
    var base := cfg.base;
    StatementWalkParts(cfg, entity, property, rtype, n, s);
    StatementHeadNoDerivation(cfg, entity, property, rtype, s);
    var node := StatementNode(base, s.id.value);
    StatementTailParts(base, entity, property, node, n, s);
    var refs := OptionalReferencesWalk(base, entity, property, node, n, s);
    var quals := OptionalQualifiersWalk(base, entity, property, node, refs.next, s);
    if s.references.Some? {
      ReferencesWithin(base, entity, property, node, n, s.references.value);
    }
    if s.qualifiers.Some? {
      QualifierGroupsNoDerivation(base, entity, property, node, refs.next, s.qualifiers.value);
    }
    WithinJoin(base, refs.triples, quals.triples, n, n + RefCount(s), n + RefCount(s));
    var head := {LinkTriple(base, entity, property, s.id.value)}
              + ExactMatchTriples(cfg, entity, property, DataValueOf(s).value).value
              + MainTriples(base, entity, property, rtype, node, DataValueOf(s).value).value;
    WithinJoin(base, head, refs.triples + quals.triples, n, n, n + RefCount(s));
  }

  /** A pass starting at counter n links only to nodes n .. n + RefTotal(stmts) - 1. */
  lemma {:induction false} PassWithin(cfg: Config, entity: string, property: string, rtype: string, n: nat, stmts: seq<Statement>)
    requires PassWalk(cfg, entity, property, rtype, n, stmts).Emitted?
    ensures DerivedWithin(cfg.base, PassWalk(cfg, entity, property, rtype, n, stmts).triples, n, n + RefTotal(stmts))
    decreases |stmts|
  {
    if stmts != [] {
      PassWalkStep(cfg, entity, property, rtype, n, stmts);
      var w := StatementWalk(cfg, entity, property, rtype, n, stmts[0]);
      StatementWithin(cfg, entity, property, rtype, n, stmts[0]);
      StatementWalkMints(cfg, entity, property, rtype, n, stmts[0]);
      PassWithin(cfg, entity, property, rtype, w.next, stmts[1..]);
      WithinJoin(cfg.base, w.triples, PassWalk(cfg, entity, property, rtype, w.next, stmts[1..]).triples,
                 n, w.next, n + RefTotal(stmts));
    }
  }

  /** k passes starting at counter n link only to nodes n .. n + Times(k, RefTotal(stmts)) - 1. */
  lemma {:induction false} PassesWithin(cfg: Config, entity: string, property: string, rtype: string, n: nat, stmts: seq<Statement>, k: nat)
    requires PassesWalk(cfg, entity, property, rtype, n, stmts, k).Emitted?
    ensures DerivedWithin(cfg.base, PassesWalk(cfg, entity, property, rtype, n, stmts, k).triples, n, n + Times(k, RefTotal(stmts)))
    decreases k
  {
    if k > 0 {
      PassesWalkStep(cfg, entity, property, rtype, n, stmts, k);
      var w := PassWalk(cfg, entity, property, rtype, n, stmts);
      PassWithin(cfg, entity, property, rtype, n, stmts);
      PassWalkCount(cfg, entity, property, rtype, n, stmts);
      PassesWithin(cfg, entity, property, rtype, w.next, stmts, k - 1);
      WithinJoin(cfg.base, w.triples, PassesWalk(cfg, entity, property, rtype, w.next, stmts, k - 1).triples,
                 n, w.next, n + Times(k, RefTotal(stmts)));
    }
  }

  /** A claim starting at counter n uses exactly ClaimNames(c) names. */
  lemma ClaimWalkCount(cfg: Config, entity: string, n: nat, c: Claim)
    requires ClaimWalk(cfg, entity, n, c).Emitted?
    ensures ClaimWalk(cfg, entity, n, c).next == n + ClaimNames(c)
  {
    PassesWalkCount(cfg, entity, c.property, cfg.propinfo[c.property], n, c.statements, |c.statements|);
  }

  /** A claim starting at counter n links only to the names it uses. */
  lemma ClaimWalkWithin(cfg: Config, entity: string, n: nat, c: Claim)
    requires ClaimWalk(cfg, entity, n, c).Emitted?
    ensures DerivedWithin(cfg.base, ClaimWalk(cfg, entity, n, c).triples, n, n + ClaimNames(c))
  {
    PassesWithin(cfg, entity, c.property, cfg.propinfo[c.property], n, c.statements, |c.statements|);
  }

  /** The claims of an entity, starting at counter n, use exactly ClaimsNames(claims) names: the
      counter moves on from claim to claim and is never reset. */
  lemma {:induction false} ClaimsWalkCount(cfg: Config, entity: string, n: nat, claims: seq<Claim>)
    requires ClaimsWalk(cfg, entity, n, claims).Emitted?
    ensures ClaimsWalk(cfg, entity, n, claims).next == n + ClaimsNames(claims)
    decreases |claims|
  {
    if claims != [] {
      ClaimsWalkStep(cfg, entity, n, claims);
      var w := ClaimWalk(cfg, entity, n, claims[0]);
      ClaimWalkCount(cfg, entity, n, claims[0]);
      ClaimsWalkCount(cfg, entity, w.next, claims[1..]);
    }
  }

  /** The claims of an entity, starting at counter n, link only to the names they use. */
  lemma {:induction false} ClaimsWalkWithin(cfg: Config, entity: string, n: nat, claims: seq<Claim>)
    requires ClaimsWalk(cfg, entity, n, claims).Emitted?
    ensures DerivedWithin(cfg.base, ClaimsWalk(cfg, entity, n, claims).triples, n, n + ClaimsNames(claims))
    decreases |claims|
  {
    if claims != [] {
      ClaimsWalkStep(cfg, entity, n, claims);
      var w := ClaimWalk(cfg, entity, n, claims[0]);
      ClaimWalkCount(cfg, entity, n, claims[0]);
      ClaimWalkWithin(cfg, entity, n, claims[0]);
      ClaimsWalkWithin(cfg, entity, w.next, claims[1..]);
      WithinJoin(cfg.base, w.triples, ClaimsWalk(cfg, entity, w.next, claims[1..]).triples,
                 n, w.next, n + ClaimsNames(claims));
    }
  }

  /** The header of an entity holds no prov:wasDerivedFrom triple. */
  lemma HeaderNoDerivation(base: string, e: Entity)
    requires EntityHeader(base, e).Ok?
    ensures NoDerivation(EntityHeader(base, e).value)
  {
    HeaderPredicatesDistinct();
    assert |PROV_WAS_DERIVED_FROM| == 40;
  }

  /** An entity starting at counter n uses exactly the names of its claims. */
  lemma EntityWalkCount(cfg: Config, n: nat, e: Entity)
    requires EntityWalk(cfg, n, e).Emitted?
    ensures EntityWalk(cfg, n, e).next == n + ClaimsNames(e.claims)
  {
    EntityWalkParts(cfg, n, e);
    ClaimsWalkCount(cfg, e.id, n, e.claims);
  }

  /** An entity starting at counter n links only to the names of its claims. */
  lemma EntityWalkWithin(cfg: Config, n: nat, e: Entity)
    requires EntityWalk(cfg, n, e).Emitted?
    ensures DerivedWithin(cfg.base, EntityWalk(cfg, n, e).triples, n, n + ClaimsNames(e.claims))
  {
    EntityWalkParts(cfg, n, e);
    HeaderNoDerivation(cfg.base, e);
    ClaimsWalkWithin(cfg, e.id, n, e.claims);
    WithinJoin(cfg.base, EntityHeader(cfg.base, e).value, ClaimsWalk(cfg, e.id, n, e.claims).triples,
               n, n, n + ClaimsNames(e.claims));
  }

  /** A run over entities, starting at counter n, uses exactly EntitiesNames(es) names: the
      counter carries over from one entity to the next. */
  lemma {:induction false} EntitiesWalkCount(cfg: Config, n: nat, es: seq<Entity>)
    requires EntitiesWalk(cfg, n, es).Emitted?
    ensures EntitiesWalk(cfg, n, es).next == n + EntitiesNames(es)
    decreases |es|
  {
    if es != [] {
      EntitiesWalkStep(cfg, n, es);
      var w := EntityWalk(cfg, n, es[0]);
      EntityWalkCount(cfg, n, es[0]);
      EntitiesWalkCount(cfg, w.next, es[1..]);
    }
  }

  /** A run over entities, starting at counter n, links only to the names it uses. */
  lemma {:induction false} EntitiesWalkWithin(cfg: Config, n: nat, es: seq<Entity>)
    requires EntitiesWalk(cfg, n, es).Emitted?
    ensures DerivedWithin(cfg.base, EntitiesWalk(cfg, n, es).triples, n, n + EntitiesNames(es))
    decreases |es|
  {
    if es != [] {
      EntitiesWalkStep(cfg, n, es);
      var w := EntityWalk(cfg, n, es[0]);
      EntityWalkCount(cfg, n, es[0]);
      EntityWalkWithin(cfg, n, es[0]);
      EntitiesWalkWithin(cfg, w.next, es[1..]);
      WithinJoin(cfg.base, w.triples, EntitiesWalk(cfg, w.next, es[1..]).triples,
                 n, w.next, n + EntitiesNames(es));
    }
  }

  /** A prefix of a claim list uses its first claim's names and then those of the rest. */
  lemma ClaimsPrefixStep(claims: seq<Claim>, c: int)
    requires 0 < c <= |claims|
    ensures ClaimsNames(claims[..c]) == ClaimNames(claims[0]) + ClaimsNames(claims[1..][..c - 1])
  {
    assert claims[..c][1..] == claims[1..][..c - 1];
  }

  /** A prefix one claim longer uses that claim's names on top. */
  lemma {:induction false} ClaimsPrefixGrow(claims: seq<Claim>, c: int)
    requires 0 <= c < |claims|
    ensures ClaimsNames(claims[..c + 1]) == ClaimsNames(claims[..c]) + ClaimNames(claims[c])
    decreases c
  {
    ClaimsPrefixStep(claims, c + 1);
    if c == 0 {
      assert claims[1..][..0] == [];
      assert claims[..0] == [];
    } else {
      ClaimsPrefixGrow(claims[1..], c - 1);
      ClaimsPrefixStep(claims, c);
    }
  }

  /** Longer prefixes of a claim list use at least as many names. */
  lemma {:induction false} ClaimsPrefixMonotone(claims: seq<Claim>, c: int, c': int)
    requires 0 <= c <= c' <= |claims|
    ensures ClaimsNames(claims[..c]) <= ClaimsNames(claims[..c'])
    decreases c' - c
  {
    if c < c' {
      ClaimsPrefixGrow(claims, c);
      ClaimsPrefixMonotone(claims, c + 1, c');
    }
  }

  /** A prefix of an entity list uses its first entity's names and then those of the rest. */
  lemma EntitiesPrefixStep(es: seq<Entity>, e: int)
    requires 0 < e <= |es|
    ensures EntitiesNames(es[..e]) == ClaimsNames(es[0].claims) + EntitiesNames(es[1..][..e - 1])
  {
    assert es[..e][1..] == es[1..][..e - 1];
  }

  lemma {:induction false} EntitiesPrefixGrow(es: seq<Entity>, e: int)
    requires 0 <= e < |es|
    ensures EntitiesNames(es[..e + 1]) == EntitiesNames(es[..e]) + ClaimsNames(es[e].claims)
    decreases e
  {
    EntitiesPrefixStep(es, e + 1);
    if e == 0 {
      assert es[1..][..0] == [];
      assert es[..0] == [];
    } else {
      EntitiesPrefixGrow(es[1..], e - 1);
      EntitiesPrefixStep(es, e);
    }
  }

  lemma {:induction false} EntitiesPrefixMonotone(es: seq<Entity>, e: int, e': int)
    requires 0 <= e <= e' <= |es|
    ensures EntitiesNames(es[..e]) <= EntitiesNames(es[..e'])
    decreases e' - e
  {
    if e < e' {
      EntitiesPrefixGrow(es, e);
      EntitiesPrefixMonotone(es, e + 1, e');
    }
  }

  /** The offset, among the names an entity's claims use, of reference j of statement i in pass
      p of claim c: the names of the claims before it, then the slot within the claim. */
  function ClaimsSlot(claims: seq<Claim>, c: int, p: nat, i: int, j: nat): nat
    requires 0 <= c < |claims| && 0 <= i <= |claims[c].statements|
  {
    ClaimsNames(claims[..c]) + ClaimSlot(claims[c].statements, p, i, j)
  }

  /** The offset, among the names a run uses, of reference j of statement i in pass p of claim c
      of entity e: the names of the entities before it, then the slot among its claims. */
  function RunSlot(es: seq<Entity>, e: int, c: int, p: nat, i: int, j: nat): nat
    requires 0 <= e < |es| && 0 <= c < |es[e].claims| && 0 <= i <= |es[e].claims[c].statements|
  {
    EntitiesNames(es[..e]) + ClaimsSlot(es[e].claims, c, p, i, j)
  }

  /** (c, p, i, j) names reference j of statement i of claim c, seen on pass p. */
  predicate IsClaimsPosition(claims: seq<Claim>, c: int, p: nat, i: int, j: nat) {
    0 <= c < |claims| && p < |claims[c].statements| && 0 <= i < |claims[c].statements|
    && j < RefCount(claims[c].statements[i])
  }

  /** (e, c, p, i, j) names a reference position of entity e of the run. */
  predicate IsPosition(es: seq<Entity>, e: int, c: int, p: nat, i: int, j: nat) {
    0 <= e < |es| && IsClaimsPosition(es[e].claims, c, p, i, j)
  }

  /** The claims of an entity link each position's statement to the node of its own slot. */
  lemma {:induction false} ClaimsWalkMintsAt(cfg: Config, entity: string, n: nat, claims: seq<Claim>, c: int, p: nat, i: int, j: nat)
    requires ClaimsWalk(cfg, entity, n, claims).Emitted?
    requires IsClaimsPosition(claims, c, p, i, j)
    ensures claims[c].statements[i].id.Some?
    ensures DerivationTriple(StatementNode(cfg.base, claims[c].statements[i].id.value),
                             ReferenceNode(cfg.base, n + ClaimsSlot(claims, c, p, i, j)))
        in ClaimsWalk(cfg, entity, n, claims).triples
    decreases |claims|
  {
    ClaimsWalkStep(cfg, entity, n, claims);
    var w := ClaimWalk(cfg, entity, n, claims[0]);
    if c == 0 {
      assert claims[..0] == [];
      ClaimWalkMints(cfg, entity, n, claims[0]);
    } else {
      ClaimWalkCount(cfg, entity, n, claims[0]);
      ClaimsPrefixStep(claims, c);
      assert claims[c] == claims[1..][c - 1];
      ClaimsWalkMintsAt(cfg, entity, w.next, claims[1..], c - 1, p, i, j);
      assert n + ClaimsSlot(claims, c, p, i, j) == w.next + ClaimsSlot(claims[1..], c - 1, p, i, j);
    }
  }

  /** An entity links each position of its claims to the node of its claims slot, counted
      from the entity's starting counter. */
  lemma {:induction false} EntityWalkMintsAt(cfg: Config, n: nat, e: Entity, c: int, p: nat, i: int, j: nat, slot: nat)
    requires EntityWalk(cfg, n, e).Emitted?
    requires IsClaimsPosition(e.claims, c, p, i, j) && slot == n + ClaimsSlot(e.claims, c, p, i, j)
    ensures e.claims[c].statements[i].id.Some?
    ensures DerivationTriple(StatementNode(cfg.base, e.claims[c].statements[i].id.value), ReferenceNode(cfg.base, slot))
        in EntityWalk(cfg, n, e).triples
  {
    EntityWalkParts(cfg, n, e);
    ClaimsWalkMintsAt(cfg, e.id, n, e.claims, c, p, i, j);
  }

  /** In a completed run, entity e completes too, starting from the counter the entities before
      it leave behind, and everything it adds is in the run's output. */
  lemma {:induction false} EntitiesWalkHasEntity(cfg: Config, n: nat, es: seq<Entity>, e: int)
    requires EntitiesWalk(cfg, n, es).Emitted?
    requires 0 <= e < |es|
    ensures EntityWalk(cfg, n + EntitiesNames(es[..e]), es[e]).Emitted?
    ensures EntityWalk(cfg, n + EntitiesNames(es[..e]), es[e]).triples <= EntitiesWalk(cfg, n, es).triples
    decreases |es|
  {
    EntitiesWalkStep(cfg, n, es);
    var w := EntityWalk(cfg, n, es[0]);
    if e == 0 {
      assert es[..0] == [];
    } else {
      EntityWalkCount(cfg, n, es[0]);
      EntitiesPrefixStep(es, e);
      assert es[e] == es[1..][e - 1];
      EntitiesWalkHasEntity(cfg, w.next, es[1..], e - 1);
      assert w.next + EntitiesNames(es[1..][..e - 1]) == n + EntitiesNames(es[..e]);
    }
  }

  /** A run over entities links each position's statement to the node of its own slot. */
  lemma {:induction false} EntitiesWalkMintsAt(cfg: Config, n: nat, es: seq<Entity>, e: int, c: int, p: nat, i: int, j: nat)
    requires EntitiesWalk(cfg, n, es).Emitted?
    requires IsPosition(es, e, c, p, i, j)
    ensures es[e].claims[c].statements[i].id.Some?
    ensures DerivationTriple(StatementNode(cfg.base, es[e].claims[c].statements[i].id.value),
                             ReferenceNode(cfg.base, n + RunSlot(es, e, c, p, i, j)))
        in EntitiesWalk(cfg, n, es).triples
  {
    var start := n + EntitiesNames(es[..e]);
    EntitiesWalkHasEntity(cfg, n, es, e);
    EntityWalkMintsAt(cfg, start, es[e], c, p, i, j, n + RunSlot(es, e, c, p, i, j));
  }

  /** The slot of a claims position lies among the names of its own claim. */
  lemma ClaimsSlotBounds(claims: seq<Claim>, c: int, p: nat, i: int, j: nat)
    requires IsClaimsPosition(claims, c, p, i, j)
    ensures ClaimsNames(claims[..c]) <= ClaimsSlot(claims, c, p, i, j) < ClaimsNames(claims[..c + 1])
  {
    ClaimSlotBelowTotal(claims[c].statements, p, i, j);
    ClaimsPrefixGrow(claims, c);
  }

  /** Different positions among an entity's claims have different slots. */
  lemma ClaimsSlotsDistinct(claims: seq<Claim>, c: int, p: nat, i: int, j: nat, c': int, p': nat, i': int, j': nat)
    requires IsClaimsPosition(claims, c, p, i, j) && IsClaimsPosition(claims, c', p', i', j')
    requires (c, p, i, j) != (c', p', i', j')
    ensures ClaimsSlot(claims, c, p, i, j) != ClaimsSlot(claims, c', p', i', j')
  {
    if c == c' {
      ClaimSlotsDistinct(claims[c].statements, p, i, j, p', i', j');
    } else {
      ClaimsSlotBounds(claims, c, p, i, j);
      ClaimsSlotBounds(claims, c', p', i', j');
      if c < c' {
        ClaimsPrefixMonotone(claims, c + 1, c');
      } else {
        ClaimsPrefixMonotone(claims, c' + 1, c);
      }
    }
  }

  /** The slot of a run position lies among the names of its own entity. */
  lemma RunSlotBounds(es: seq<Entity>, e: int, c: int, p: nat, i: int, j: nat)
    requires IsPosition(es, e, c, p, i, j)
    ensures EntitiesNames(es[..e]) <= RunSlot(es, e, c, p, i, j) < EntitiesNames(es[..e + 1])
  {
    var claims := es[e].claims;
    ClaimsSlotBounds(claims, c, p, i, j);
    ClaimsPrefixMonotone(claims, c + 1, |claims|);
    assert claims[..|claims|] == claims;
    EntitiesPrefixGrow(es, e);
  }

  /** Different positions of a run have different slots, and every slot lies below the number
      of names the run uses. */
  lemma RunSlotsDistinct(es: seq<Entity>, e: int, c: int, p: nat, i: int, j: nat, e': int, c': int, p': nat, i': int, j': nat)
    requires IsPosition(es, e, c, p, i, j) && IsPosition(es, e', c', p', i', j')
    requires (e, c, p, i, j) != (e', c', p', i', j')
    ensures RunSlot(es, e, c, p, i, j) != RunSlot(es, e', c', p', i', j')
    ensures RunSlot(es, e, c, p, i, j) < EntitiesNames(es)
  {
    RunSlotBounds(es, e, c, p, i, j);
    EntitiesPrefixMonotone(es, e + 1, |es|);
    assert es[..|es|] == es;
    if e == e' {
      ClaimsSlotsDistinct(es[e].claims, c, p, i, j, c', p', i', j');
    } else {
      RunSlotBounds(es, e', c', p', i', j');
      if e < e' {
        EntitiesPrefixMonotone(es, e + 1, e');
      } else {
        EntitiesPrefixMonotone(es, e' + 1, e);
      }
    }
  }

  /** A completed run uses EntitiesNames(es) fresh names from 0 up, and every
      prov:wasDerivedFrom link of its output points at one of them. */
  lemma TranslateNames(base: string, exactMatch: Option<string>, rows: seq<PropertyRow>, es: seq<Entity>)
    requires Translate(base, exactMatch, rows, es).Ok?
    ensures DerivedWithin(base, Translate(base, exactMatch, rows, es).value, 0, EntitiesNames(es))
  {
    EntitiesWalkWithin(Config(base, exactMatch, RegistryOf(rows).value), 0, es);
  }

  /** In a completed run, reference j of statement i of claim c of entity e is, on pass p,
      linked from the statement's node to the reference node of its run slot. */
  lemma TranslateMintsAt(base: string, exactMatch: Option<string>, rows: seq<PropertyRow>, es: seq<Entity>,
                         e: int, c: int, p: nat, i: int, j: nat)
    requires Translate(base, exactMatch, rows, es).Ok?
    requires IsPosition(es, e, c, p, i, j)
    ensures es[e].claims[c].statements[i].id.Some?
    ensures DerivationTriple(StatementNode(base, es[e].claims[c].statements[i].id.value),
                             ReferenceNode(base, RunSlot(es, e, c, p, i, j)))
        in Translate(base, exactMatch, rows, es).value
  {
    EntitiesWalkMintsAt(Config(base, exactMatch, RegistryOf(rows).value), 0, es, e, c, p, i, j);
  }

  /** Different positions of a run get different reference nodes: no two references of the
      run, in any entity, claim or pass, share a node. */
  lemma RunNodesDistinct(base: string, es: seq<Entity>, e: int, c: int, p: nat, i: int, j: nat,
                         e': int, c': int, p': nat, i': int, j': nat)
    requires IsPosition(es, e, c, p, i, j) && IsPosition(es, e', c', p', i', j')
    requires (e, c, p, i, j) != (e', c', p', i', j')
    ensures ReferenceNode(base, RunSlot(es, e, c, p, i, j)) != ReferenceNode(base, RunSlot(es, e', c', p', i', j'))
  {
    RunSlotsDistinct(es, e, c, p, i, j, e', c', p', i', j');
    ReferenceNodesDistinct(base, RunSlot(es, e, c, p, i, j), RunSlot(es, e', c', p', i', j'));
  }
}
