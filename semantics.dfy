/** What a translation run produces, as functions: for each loop of the translator, the set of
    triples it adds and the fresh-name counter after it, or the error that stops the run. The
    class in the Translator module is proved to follow these functions. */
module Semantics {
  import opened Wrappers
  import opened Rdf
  import opened Records
  import opened Namespaces
  import opened Numerals
  import opened Values
  import opened Registry

  /** The run's configuration: the local base IRI, the optional exactMatch property, and the
      property-type registry. */
  datatype Config = Config(base: string, exactMatch: Option<string>, propinfo: map<string, string>)

  /** The effect of a loop: the triples it adds and the next unused fresh name, or an abort. */
  datatype Walk = Emitted(triples: set<Triple>, next: nat) | Aborted(error: Error)

  /** The triples `d` added before the walk `w`. */
  function Prepend(d: set<Triple>, w: Walk): Walk {
    match w
    case Emitted(t, n) => Emitted(d + t, n)
    case Aborted(_) => w
  }

  lemma PrependTwice(a: set<Triple>, b: set<Triple>, w: Walk)
    ensures Prepend(a, Prepend(b, w)) == Prepend(a + b, w)
  {
    if w.Emitted? {
      assert a + (b + w.triples) == (a + b) + w.triples;
    }
  }

  lemma PrependNothing(w: Walk)
    ensures Prepend({}, w) == w
  {
    if w.Emitted? {
      assert {} + w.triples == w.triples;
    }
  }

  function EntityNode(base: string, id: string): Term {
    IRI(Mint(base, EntityNs, id))
  }

  function StatementNode(base: string, statementId: string): Term {
    IRI(Mint(base, StatementNs, statementId))
  }

  /** The n-th fresh reference node: the name supply that stands for uuid4(). */
  function ReferenceNode(base: string, n: nat): Term {
    IRI(Mint(base, ReferenceNs, NatToString(n)))
  }

  function PropIri(base: string, role: Role, property: string): Term {
    IRI(Mint(base, role, property))
  }

  predicate IsPropertyId(id: string) {
    |id| > 0 && id[0] == 'P'
  }

  function LabelTriple(base: string, id: string, text: string): Triple {
    Triple(EntityNode(base, id), IRI(RDFS_LABEL), Lit(text, Some("en"), None))
  }

  function DescriptionTriple(base: string, id: string, description: string): Triple {
    Triple(EntityNode(base, id), IRI(SCHEMA_DESCRIPTION), Lit(description, Some("en"), None))
  }

  /** The three typing triples of a property entity. */
  function PropertyTriples(base: string, id: string): set<Triple> {
    var node := EntityNode(base, id);
    {Triple(node, IRI(RDF_TYPE), IRI(WIKIBASE_PROPERTY)),
     Triple(node, IRI(WIKIBASE_DIRECT_CLAIM), PropIri(base, PropDirect, id)),
     Triple(node, IRI(WIKIBASE_CLAIM), PropIri(base, Prop, id))}
  }

  /** The entity-level triples: the English label (required), the English description (when
      present) and, for a property, its three typing triples. */
  function EntityHeader(base: string, e: Entity): Result<set<Triple>, Error> {
    if e.id == "" then Fail(EmptyEntityId)
    else if "en" !in e.labels then Fail(NoEnglishLabel(e.id))
    else
      var description := if "en" in e.descriptions then {DescriptionTriple(base, e.id, e.descriptions["en"])} else {};
      var typing := if IsPropertyId(e.id) then PropertyTriples(base, e.id) else {};
      Ok({LabelTriple(base, e.id, e.labels["en"])} + description + typing)
  }

  /** The five header predicates are different IRIs: their lengths already differ. */
  lemma HeaderPredicatesDistinct()
    ensures |RDFS_LABEL| == 42 && |SCHEMA_DESCRIPTION| == 29 && |RDF_TYPE| == 47
    ensures |WIKIBASE_DIRECT_CLAIM| == 37 && |WIKIBASE_CLAIM| == 31
  {
  }

  /** The header as a set: the label, an optional description, optional typing triples. */
  ghost predicate IsHeader(base: string, id: string, text: string, description: Option<string>, isProperty: bool, h: set<Triple>) {
    h == {LabelTriple(base, id, text)}
         + (if description.Some? then {DescriptionTriple(base, id, description.value)} else {})
         + (if isProperty then PropertyTriples(base, id) else {})
  }

  lemma HeaderSize(base: string, id: string, text: string, description: Option<string>, isProperty: bool, h: set<Triple>)
    requires IsHeader(base, id, text, description, isProperty, h)
    ensures |h| == 1 + (if description.Some? then 1 else 0) + (if isProperty then 3 else 0)
  {
    HeaderPredicatesDistinct();
    var labels := {LabelTriple(base, id, text)};
    var descriptions := if description.Some? then {DescriptionTriple(base, id, description.value)} else {};
    var typing := if isProperty then PropertyTriples(base, id) else {};
    assert |typing| == if isProperty then 3 else 0;
    assert labels !! descriptions && (labels + descriptions) !! typing;
  }

  lemma HeaderParts(base: string, id: string, text: string, description: Option<string>, isProperty: bool, h: set<Triple>)
    requires IsHeader(base, id, text, description, isProperty, h)
    ensures LabelTriple(base, id, text) in h
    ensures description.Some? ==> DescriptionTriple(base, id, description.value) in h
    ensures forall t :: t in h ==> t.subj == EntityNode(base, id)
    ensures (exists t :: t in h && t.pred == IRI(SCHEMA_DESCRIPTION)) <==> description.Some?
    ensures PropertyTriples(base, id) <= h <==> isProperty
  {
    HeaderPredicatesDistinct();
    if description.Some? {
      assert DescriptionTriple(base, id, description.value) in h;
    }
    if !isProperty {
      assert Triple(EntityNode(base, id), IRI(RDF_TYPE), IRI(WIKIBASE_PROPERTY)) !in h;
    }
  }

  /** An entity without an id or without an English label aborts; otherwise it gets its label,
      a description exactly when it has an English one, the three typing triples exactly when it
      is a property, and nothing else (all about the entity's own node). */
  lemma EntityHeaderMeaning(base: string, e: Entity)
    ensures e.id == "" ==> EntityHeader(base, e) == Fail(EmptyEntityId)
    ensures e.id != "" && "en" !in e.labels ==> EntityHeader(base, e) == Fail(NoEnglishLabel(e.id))
    ensures EntityHeader(base, e).Ok? <==> e.id != "" && "en" in e.labels
    ensures EntityHeader(base, e).Ok? ==> LabelTriple(base, e.id, e.labels["en"]) in EntityHeader(base, e).value
    ensures EntityHeader(base, e).Ok? && "en" in e.descriptions ==>
      DescriptionTriple(base, e.id, e.descriptions["en"]) in EntityHeader(base, e).value
    ensures EntityHeader(base, e).Ok? ==>
      forall t :: t in EntityHeader(base, e).value ==> t.subj == EntityNode(base, e.id)
    ensures EntityHeader(base, e).Ok? ==>
      ((exists t :: t in EntityHeader(base, e).value && t.pred == IRI(SCHEMA_DESCRIPTION)) <==> "en" in e.descriptions)
    ensures EntityHeader(base, e).Ok? ==> (PropertyTriples(base, e.id) <= EntityHeader(base, e).value <==> IsPropertyId(e.id))
    ensures EntityHeader(base, e).Ok? ==>
      |EntityHeader(base, e).value| == 1 + (if "en" in e.descriptions then 1 else 0) + (if IsPropertyId(e.id) then 3 else 0)
  {
    if e.id != "" && "en" in e.labels {
      var description := if "en" in e.descriptions then Some(e.descriptions["en"]) else None;
      var h := EntityHeader(base, e).value;
      assert IsHeader(base, e.id, e.labels["en"], description, IsPropertyId(e.id), h);
      HeaderSize(base, e.id, e.labels["en"], description, IsPropertyId(e.id), h);
      HeaderParts(base, e.id, e.labels["en"], description, IsPropertyId(e.id), h);
    }
  }

  /** statement['mainsnak']['datavalue']. */
  function DataValueOf(s: Statement): Result<DataValue, Fault> {
    if s.mainsnak.None? || s.mainsnak.value.datavalue.None? then Fail(MissingKey)
    else Ok(s.mainsnak.value.datavalue.value)
  }

  /** The claim triple linking the entity to a statement node. */
  function LinkTriple(base: string, entity: string, property: string, statementId: string): Triple {
    Triple(EntityNode(base, entity), PropIri(base, Prop, property), StatementNode(base, statementId))
  }

  function ExactMatchTriple(base: string, entity: string, target: string): Triple {
    Triple(EntityNode(base, entity), IRI(SKOS_EXACT_MATCH), IRI(target))
  }

  /** The skos:exactMatch triple, emitted only for the configured property, with the raw value
      taken verbatim as the IRI. */
  function ExactMatchTriples(cfg: Config, entity: string, property: string, dv: DataValue): Result<set<Triple>, Fault> {
    if cfg.exactMatch == Some(property) then
      var target :- TextPayload(dv);
      Ok({ExactMatchTriple(cfg.base, entity, target)})
    else
      Ok({})
  }

  function DirectTriple(base: string, entity: string, property: string, o: Term): Triple {
    Triple(EntityNode(base, entity), PropIri(base, PropDirect, property), o)
  }

  function ValueTriple(base: string, node: Term, property: string, o: Term): Triple {
    Triple(node, PropIri(base, PropStatement, property), o)
  }

  /** The direct triple on the entity and the statement-value triple on the statement node. */
  function MainTriples(base: string, entity: string, property: string, rtype: string, node: Term, dv: DataValue)
    : Result<set<Triple>, Fault>
  {
    var o :- MainObject(base, rtype, dv);
    if o.None? then Ok({})
    else Ok({DirectTriple(base, entity, property, o.value), ValueTriple(base, node, property, o.value)})
  }

  function Abort(entity: string, property: string, f: Fault): Walk {
    Aborted(StatementFault(entity, property, f))
  }

  /** The snaks listed under one property of a reference. */
  function ReferenceSnaksWalk(base: string, entity: string, property: string, node: Term, n: nat, snaks: seq<Snak>): Walk
    decreases |snaks|
  {
    if snaks == [] then Emitted({}, n)
    else match ReferenceTriple(base, node, snaks[0])
      case Fail(f) => Abort(entity, property, f)
      case Ok(None) => ReferenceSnaksWalk(base, entity, property, node, n, snaks[1..])
      case Ok(Some(t)) => Prepend({t}, ReferenceSnaksWalk(base, entity, property, node, n, snaks[1..]))
  }

  /** All snak groups of one reference. */
  function ReferenceGroupsWalk(base: string, entity: string, property: string, node: Term, n: nat, groups: seq<SnakGroup>): Walk
    decreases |groups|
  {
    if groups == [] then Emitted({}, n)
    else match ReferenceSnaksWalk(base, entity, property, node, n, groups[0].snaks)
      case Aborted(e) => Aborted(e)
      case Emitted(d, n1) => Prepend(d, ReferenceGroupsWalk(base, entity, property, node, n1, groups[1..]))
  }

  function DerivationTriple(statementNode: Term, referenceNode: Term): Triple {
    Triple(statementNode, IRI(PROV_WAS_DERIVED_FROM), referenceNode)
  }

  /** The references of a statement: each gets the next fresh node, linked from the statement
      node by prov:wasDerivedFrom, and carries its snaks. */
  function ReferencesWalk(base: string, entity: string, property: string, statementNode: Term, n: nat, refs: seq<Reference>): Walk
    decreases |refs|, 1
  {
    if refs == [] then Emitted({}, n) else ReferencesFrom(base, entity, property, statementNode, n, refs)
  }

  /** A non-empty list of references: the first gets node n and its snaks, then the rest. */
  function ReferencesFrom(base: string, entity: string, property: string, statementNode: Term, n: nat, refs: seq<Reference>): Walk
    requires refs != []
    decreases |refs|, 0
  {
    var node := ReferenceNode(base, n);
    match refs[0].snaks
    case None => Abort(entity, property, MissingKey)
    case Some(groups) =>
      match ReferenceGroupsWalk(base, entity, property, node, n + 1, groups)
      case Aborted(e) => Aborted(e)
      case Emitted(d, n1) =>
        Prepend({DerivationTriple(statementNode, node)} + d,
                ReferencesWalk(base, entity, property, statementNode, n1, refs[1..]))
  }

  /** The snaks listed under one qualifier property. */
  function QualifierSnaksWalk(base: string, entity: string, property: string, node: Term, n: nat, snaks: seq<Snak>): Walk
    decreases |snaks|
  {
    if snaks == [] then Emitted({}, n)
    else match QualifierTriple(base, node, snaks[0])
      case Fail(f) => Abort(entity, property, f)
      case Ok(None) => QualifierSnaksWalk(base, entity, property, node, n, snaks[1..])
      case Ok(Some(t)) => Prepend({t}, QualifierSnaksWalk(base, entity, property, node, n, snaks[1..]))
  }

  /** All qualifiers of a statement. */
  function QualifierGroupsWalk(base: string, entity: string, property: string, node: Term, n: nat, groups: seq<SnakGroup>): Walk
    decreases |groups|
  {
    if groups == [] then Emitted({}, n)
    else match QualifierSnaksWalk(base, entity, property, node, n, groups[0].snaks)
      case Aborted(e) => Aborted(e)
      case Emitted(d, n1) => Prepend(d, QualifierGroupsWalk(base, entity, property, node, n1, groups[1..]))
  }

  function OptionalReferencesWalk(base: string, entity: string, property: string, node: Term, n: nat, s: Statement): Walk {
    if s.references.None? then Emitted({}, n)
    else ReferencesWalk(base, entity, property, node, n, s.references.value)
  }

  function OptionalQualifiersWalk(base: string, entity: string, property: string, node: Term, n: nat, s: Statement): Walk {
    if s.qualifiers.None? then Emitted({}, n)
    else QualifierGroupsWalk(base, entity, property, node, n, s.qualifiers.value)
  }

  /** A statement's references, then its qualifiers. */
  function StatementTailWalk(base: string, entity: string, property: string, node: Term, n: nat, s: Statement): Walk {
    match OptionalReferencesWalk(base, entity, property, node, n, s)
    case Aborted(e) => Aborted(e)
    case Emitted(d, n1) => Prepend(d, OptionalQualifiersWalk(base, entity, property, node, n1, s))
  }

  /** The part of a statement whose missing keys abort the run: exactMatch, the main value,
      the references and the qualifiers. */
  function StatementBodyWalk(cfg: Config, entity: string, property: string, rtype: string, node: Term, n: nat, s: Statement): Walk {
    match DataValueOf(s)
    case Fail(f) => Abort(entity, property, f)
    case Ok(dv) =>
      match ExactMatchTriples(cfg, entity, property, dv)
      case Fail(f) => Abort(entity, property, f)
      case Ok(x) =>
        match MainTriples(cfg.base, entity, property, rtype, node, dv)
        case Fail(f) => Abort(entity, property, f)
        case Ok(m) => Prepend(x + m, StatementTailWalk(cfg.base, entity, property, node, n, s))
  }

  /** A statement walk that completes had an id, a datavalue, its exactMatch and main triples,
      and a completed tail; it added exactly those triples. */
  lemma StatementWalkParts(cfg: Config, entity: string, property: string, rtype: string, n: nat, s: Statement)
    requires StatementWalk(cfg, entity, property, rtype, n, s).Emitted?
    ensures s.id.Some? && DataValueOf(s).Ok?
    ensures ExactMatchTriples(cfg, entity, property, DataValueOf(s).value).Ok?
    ensures MainTriples(cfg.base, entity, property, rtype, StatementNode(cfg.base, s.id.value), DataValueOf(s).value).Ok?
    ensures StatementTailWalk(cfg.base, entity, property, StatementNode(cfg.base, s.id.value), n, s).Emitted?
    ensures StatementWalk(cfg, entity, property, rtype, n, s).next
         == StatementTailWalk(cfg.base, entity, property, StatementNode(cfg.base, s.id.value), n, s).next
    ensures StatementWalk(cfg, entity, property, rtype, n, s).triples
         == {LinkTriple(cfg.base, entity, property, s.id.value)}
          + ExactMatchTriples(cfg, entity, property, DataValueOf(s).value).value
          + MainTriples(cfg.base, entity, property, rtype, StatementNode(cfg.base, s.id.value), DataValueOf(s).value).value
          + StatementTailWalk(cfg.base, entity, property, StatementNode(cfg.base, s.id.value), n, s).triples
  {
  }

  /** A completed tail is its completed references followed by its completed qualifiers. */
  lemma StatementTailParts(base: string, entity: string, property: string, node: Term, n: nat, s: Statement)
    requires StatementTailWalk(base, entity, property, node, n, s).Emitted?
    ensures OptionalReferencesWalk(base, entity, property, node, n, s).Emitted?
    ensures OptionalQualifiersWalk(base, entity, property, node, OptionalReferencesWalk(base, entity, property, node, n, s).next, s).Emitted?
    ensures StatementTailWalk(base, entity, property, node, n, s).next
         == OptionalQualifiersWalk(base, entity, property, node, OptionalReferencesWalk(base, entity, property, node, n, s).next, s).next
    ensures StatementTailWalk(base, entity, property, node, n, s).triples
         == OptionalReferencesWalk(base, entity, property, node, n, s).triples
          + OptionalQualifiersWalk(base, entity, property, node, OptionalReferencesWalk(base, entity, property, node, n, s).next, s).triples
  {
  }

  /** One statement: its claim link, then its body. */
  function StatementWalk(cfg: Config, entity: string, property: string, rtype: string, n: nat, s: Statement): Walk {
    match s.id
    case None => Aborted(MissingStatementId(entity, property))
    case Some(sid) =>
      Prepend({LinkTriple(cfg.base, entity, property, sid)},
              StatementBodyWalk(cfg, entity, property, rtype, StatementNode(cfg.base, sid), n, s))
  }

  /** One pass over all statements of a claim. */
  function PassWalk(cfg: Config, entity: string, property: string, rtype: string, n: nat, stmts: seq<Statement>): Walk
    decreases |stmts|, 1
  {
    if stmts == [] then Emitted({}, n) else PassFrom(cfg, entity, property, rtype, n, stmts)
  }

  /** A pass over a non-empty list: its first statement, then a pass over the rest. */
  function PassFrom(cfg: Config, entity: string, property: string, rtype: string, n: nat, stmts: seq<Statement>): Walk
    requires stmts != []
    decreases |stmts|, 0
  {
    match StatementWalk(cfg, entity, property, rtype, n, stmts[0])
    case Aborted(e) => Aborted(e)
    case Emitted(d, n1) => Prepend(d, PassWalk(cfg, entity, property, rtype, n1, stmts[1..]))
  }

  /** `k` further passes over the statements of a claim. */
  function PassesWalk(cfg: Config, entity: string, property: string, rtype: string, n: nat, stmts: seq<Statement>, k: nat): Walk
    decreases k
  {
    if k == 0 then Emitted({}, n)
    else match PassWalk(cfg, entity, property, rtype, n, stmts)
      case Aborted(e) => Aborted(e)
      case Emitted(d, n1) => Prepend(d, PassesWalk(cfg, entity, property, rtype, n1, stmts, k - 1))
  }

  /** A claim: its property must be registered; its statement list is walked once per statement
      it holds, because the statement loop sits inside a second loop over the same list. */
  function ClaimWalk(cfg: Config, entity: string, n: nat, c: Claim): Walk {
    if c.property !in cfg.propinfo then Aborted(UnknownProperty(entity, c.property))
    else PassesWalk(cfg, entity, c.property, cfg.propinfo[c.property], n, c.statements, |c.statements|)
  }

  function ClaimsWalk(cfg: Config, entity: string, n: nat, claims: seq<Claim>): Walk
    decreases |claims|
  {
    if claims == [] then Emitted({}, n)
    else match ClaimWalk(cfg, entity, n, claims[0])
      case Aborted(e) => Aborted(e)
      case Emitted(d, n1) => Prepend(d, ClaimsWalk(cfg, entity, n1, claims[1..]))
  }

  function EntityWalk(cfg: Config, n: nat, e: Entity): Walk {
    match EntityHeader(cfg.base, e)
    case Fail(err) => Aborted(err)
    case Ok(h) => Prepend(h, ClaimsWalk(cfg, e.id, n, e.claims))
  }

  function EntitiesWalk(cfg: Config, n: nat, es: seq<Entity>): Walk
    decreases |es|
  {
    if es == [] then Emitted({}, n)
    else match EntityWalk(cfg, n, es[0])
      case Aborted(e) => Aborted(e)
      case Emitted(d, n1) => Prepend(d, EntitiesWalk(cfg, n1, es[1..]))
  }

  /** A pass that completes is its first statement followed by the pass over the rest. */
  lemma PassWalkStep(cfg: Config, entity: string, property: string, rtype: string, n: nat, stmts: seq<Statement>)
    requires stmts != []
    requires PassWalk(cfg, entity, property, rtype, n, stmts).Emitted?
    ensures StatementWalk(cfg, entity, property, rtype, n, stmts[0]).Emitted?
    ensures var w := StatementWalk(cfg, entity, property, rtype, n, stmts[0]);
      var rest := PassWalk(cfg, entity, property, rtype, w.next, stmts[1..]);
      rest.Emitted? &&
      PassWalk(cfg, entity, property, rtype, n, stmts).triples == w.triples + rest.triples &&
      PassWalk(cfg, entity, property, rtype, n, stmts).next == rest.next
  {
  }

  /** k passes that complete are one pass followed by k - 1 passes. */
  lemma PassesWalkStep(cfg: Config, entity: string, property: string, rtype: string, n: nat, stmts: seq<Statement>, k: nat)
    requires k > 0
    requires PassesWalk(cfg, entity, property, rtype, n, stmts, k).Emitted?
    ensures PassWalk(cfg, entity, property, rtype, n, stmts).Emitted?
    ensures var w := PassWalk(cfg, entity, property, rtype, n, stmts);
      var rest := PassesWalk(cfg, entity, property, rtype, w.next, stmts, k - 1);
      rest.Emitted? &&
      PassesWalk(cfg, entity, property, rtype, n, stmts, k).triples == w.triples + rest.triples &&
      PassesWalk(cfg, entity, property, rtype, n, stmts, k).next == rest.next
  {
  }

  /** A completed claim walk is the completed walk of its first claim followed by the rest. */
  lemma ClaimsWalkStep(cfg: Config, entity: string, n: nat, claims: seq<Claim>)
    requires claims != []
    requires ClaimsWalk(cfg, entity, n, claims).Emitted?
    ensures ClaimWalk(cfg, entity, n, claims[0]).Emitted?
    ensures var w := ClaimWalk(cfg, entity, n, claims[0]);
      var rest := ClaimsWalk(cfg, entity, w.next, claims[1..]);
      rest.Emitted? &&
      ClaimsWalk(cfg, entity, n, claims).triples == w.triples + rest.triples &&
      ClaimsWalk(cfg, entity, n, claims).next == rest.next
  {
  }

  /** A completed entity walk is its header followed by its completed claims. */
  lemma EntityWalkParts(cfg: Config, n: nat, e: Entity)
    requires EntityWalk(cfg, n, e).Emitted?
    ensures EntityHeader(cfg.base, e).Ok? && ClaimsWalk(cfg, e.id, n, e.claims).Emitted?
    ensures EntityWalk(cfg, n, e).triples == EntityHeader(cfg.base, e).value + ClaimsWalk(cfg, e.id, n, e.claims).triples
    ensures EntityWalk(cfg, n, e).next == ClaimsWalk(cfg, e.id, n, e.claims).next
  {
  }

  /** A completed walk over entities is the walk of the first one followed by the rest. */
  lemma EntitiesWalkStep(cfg: Config, n: nat, es: seq<Entity>)
    requires es != []
    requires EntitiesWalk(cfg, n, es).Emitted?
    ensures EntityWalk(cfg, n, es[0]).Emitted?
    ensures var w := EntityWalk(cfg, n, es[0]);
      var rest := EntitiesWalk(cfg, w.next, es[1..]);
      rest.Emitted? &&
      EntitiesWalk(cfg, n, es).triples == w.triples + rest.triples &&
      EntitiesWalk(cfg, n, es).next == rest.next
  {
  }

  /** The whole run: the registry, then every entity from an empty graph; the graph is written
      out only when nothing aborted. */
  function Translate(base: string, exactMatch: Option<string>, rows: seq<PropertyRow>, es: seq<Entity>)
    : Result<set<Triple>, Error>
  {
    var propinfo :- RegistryOf(rows);
    match EntitiesWalk(Config(base, exactMatch, propinfo), 0, es)
    case Emitted(d, _) => Ok(d)
    case Aborted(e) => Fail(e)
  }
}
