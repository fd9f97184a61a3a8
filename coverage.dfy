/** What a run that completes is guaranteed to contain: for every entity its header triples,
    and for every statement of every claim its link, its direct and statement-value triples
    (with one shared object) and, for the configured property, its exactMatch triple. Since
    serialization happens only after normal completion, the conditions that stop the run
    leave no output at all. */
module Coverage {
  import opened Wrappers
  import opened Rdf
  import opened Records
  import opened Values
  import opened Registry
  import opened Semantics

  /** The triples one statement is guaranteed to have put into `d`. */
  ghost predicate StatementEmitted(cfg: Config, entity: string, property: string, rtype: string, s: Statement, d: set<Triple>) {
    s.id.Some? && LinkTriple(cfg.base, entity, property, s.id.value) in d &&
    DataValueOf(s).Ok? &&
    var dv := DataValueOf(s).value;
    var o := MainObject(cfg.base, rtype, dv);
    o.Ok? &&
    (o.value.Some? ==>
      DirectTriple(cfg.base, entity, property, o.value.value) in d &&
      ValueTriple(cfg.base, StatementNode(cfg.base, s.id.value), property, o.value.value) in d) &&
    (cfg.exactMatch == Some(property) ==>
      TextPayload(dv).Ok? && ExactMatchTriple(cfg.base, entity, TextPayload(dv).value) in d)
  }

  ghost predicate ClaimsEmitted(cfg: Config, entity: string, claims: seq<Claim>, d: set<Triple>) {
    forall i :: 0 <= i < |claims| ==>
      claims[i].property in cfg.propinfo &&
      forall j :: 0 <= j < |claims[i].statements| ==>
        StatementEmitted(cfg, entity, claims[i].property, cfg.propinfo[claims[i].property], claims[i].statements[j], d)
  }

  ghost predicate EntityEmitted(cfg: Config, e: Entity, d: set<Triple>) {
    EntityHeader(cfg.base, e).Ok? && EntityHeader(cfg.base, e).value <= d &&
    ClaimsEmitted(cfg, e.id, e.claims, d)
  }

  lemma StatementEmittedGrows(cfg: Config, entity: string, property: string, rtype: string, s: Statement, d: set<Triple>, d': set<Triple>)
    requires d <= d' && StatementEmitted(cfg, entity, property, rtype, s, d)
    ensures StatementEmitted(cfg, entity, property, rtype, s, d')
  {
  }

  lemma ClaimsEmittedGrows(cfg: Config, entity: string, claims: seq<Claim>, d: set<Triple>, d': set<Triple>)
    requires d <= d' && ClaimsEmitted(cfg, entity, claims, d)
    ensures ClaimsEmitted(cfg, entity, claims, d')
  {
    forall i, j | 0 <= i < |claims| && 0 <= j < |claims[i].statements|
      ensures StatementEmitted(cfg, entity, claims[i].property, cfg.propinfo[claims[i].property], claims[i].statements[j], d')
    {
      StatementEmittedGrows(cfg, entity, claims[i].property, cfg.propinfo[claims[i].property], claims[i].statements[j], d, d');
    }
  }

  /** A statement that completes has its link, its value triples and its exactMatch triple. */
  lemma StatementWalkEmits(cfg: Config, entity: string, property: string, rtype: string, n: nat, s: Statement)
    requires StatementWalk(cfg, entity, property, rtype, n, s).Emitted?
    ensures StatementEmitted(cfg, entity, property, rtype, s, StatementWalk(cfg, entity, property, rtype, n, s).triples)
  {
  }

  lemma {:induction false} PassWalkEmits(cfg: Config, entity: string, property: string, rtype: string, n: nat, stmts: seq<Statement>)
    requires PassWalk(cfg, entity, property, rtype, n, stmts).Emitted?
    ensures forall i :: 0 <= i < |stmts| ==>
      StatementEmitted(cfg, entity, property, rtype, stmts[i], PassWalk(cfg, entity, property, rtype, n, stmts).triples)
    decreases |stmts|
  {
    if stmts != [] {
      var d := PassWalk(cfg, entity, property, rtype, n, stmts).triples;
      var w := StatementWalk(cfg, entity, property, rtype, n, stmts[0]);
      var rest := PassWalk(cfg, entity, property, rtype, w.next, stmts[1..]);
      StatementWalkEmits(cfg, entity, property, rtype, n, stmts[0]);
      PassWalkEmits(cfg, entity, property, rtype, w.next, stmts[1..]);
      forall i | 0 <= i < |stmts| ensures StatementEmitted(cfg, entity, property, rtype, stmts[i], d) {
        if i == 0 {
          StatementEmittedGrows(cfg, entity, property, rtype, stmts[0], w.triples, d);
        } else {
          assert stmts[i] == stmts[1..][i - 1];
          StatementEmittedGrows(cfg, entity, property, rtype, stmts[i], rest.triples, d);
        }
      }
    }
  }

  /** A claim that completes covers all of its statements (already on the first pass). */
  lemma ClaimWalkEmits(cfg: Config, entity: string, n: nat, c: Claim)
    requires ClaimWalk(cfg, entity, n, c).Emitted?
    ensures c.property in cfg.propinfo
    ensures forall j :: 0 <= j < |c.statements| ==>
      StatementEmitted(cfg, entity, c.property, cfg.propinfo[c.property], c.statements[j], ClaimWalk(cfg, entity, n, c).triples)
  {
    if c.statements != [] {
      var rtype := cfg.propinfo[c.property];
      var first := PassWalk(cfg, entity, c.property, rtype, n, c.statements);
      PassWalkEmits(cfg, entity, c.property, rtype, n, c.statements);
      forall j | 0 <= j < |c.statements|
        ensures StatementEmitted(cfg, entity, c.property, rtype, c.statements[j], ClaimWalk(cfg, entity, n, c).triples)
      {
        StatementEmittedGrows(cfg, entity, c.property, rtype, c.statements[j], first.triples, ClaimWalk(cfg, entity, n, c).triples);
      }
    }
  }

  lemma {:induction false} ClaimsWalkEmits(cfg: Config, entity: string, n: nat, claims: seq<Claim>)
    requires ClaimsWalk(cfg, entity, n, claims).Emitted?
    ensures ClaimsEmitted(cfg, entity, claims, ClaimsWalk(cfg, entity, n, claims).triples)
    decreases |claims|
  {
    if claims != [] {
      var d := ClaimsWalk(cfg, entity, n, claims).triples;
      var w := ClaimWalk(cfg, entity, n, claims[0]);
      var rest := ClaimsWalk(cfg, entity, w.next, claims[1..]);
      ClaimWalkEmits(cfg, entity, n, claims[0]);
      ClaimsWalkEmits(cfg, entity, w.next, claims[1..]);
      ClaimsEmittedGrows(cfg, entity, claims[1..], rest.triples, d);
      forall i, j | 0 <= i < |claims| && 0 <= j < |claims[i].statements|
        ensures claims[i].property in cfg.propinfo
        ensures StatementEmitted(cfg, entity, claims[i].property, cfg.propinfo[claims[i].property], claims[i].statements[j], d)
      {
        if i == 0 {
          StatementEmittedGrows(cfg, entity, claims[0].property, cfg.propinfo[claims[0].property], claims[0].statements[j], w.triples, d);
        } else {
          assert claims[i] == claims[1..][i - 1];
        }
      }
      forall i | 0 <= i < |claims| ensures claims[i].property in cfg.propinfo {
        if i > 0 {
          assert claims[i] == claims[1..][i - 1];
        }
      }
    }
  }

  lemma {:induction false} EntitiesWalkEmits(cfg: Config, n: nat, es: seq<Entity>)
    requires EntitiesWalk(cfg, n, es).Emitted?
    ensures forall i :: 0 <= i < |es| ==> EntityEmitted(cfg, es[i], EntitiesWalk(cfg, n, es).triples)
    decreases |es|
  {
    if es != [] {
      var d := EntitiesWalk(cfg, n, es).triples;
      var w := EntityWalk(cfg, n, es[0]);
      var rest := EntitiesWalk(cfg, w.next, es[1..]);
      var header := EntityHeader(cfg.base, es[0]);
      var claims := ClaimsWalk(cfg, es[0].id, n, es[0].claims);
      ClaimsWalkEmits(cfg, es[0].id, n, es[0].claims);
      ClaimsEmittedGrows(cfg, es[0].id, es[0].claims, claims.triples, d);
      EntitiesWalkEmits(cfg, w.next, es[1..]);
      forall i | 0 <= i < |es| ensures EntityEmitted(cfg, es[i], d) {
        if i > 0 {
          assert es[i] == es[1..][i - 1];
          ClaimsEmittedGrows(cfg, es[i].id, es[i].claims, rest.triples, d);
        }
      }
    }
  }

  /** A run that completes has read every claim property from the registry and holds every
      entity's header and every statement's guaranteed triples. */
  lemma TranslateEmits(base: string, exactMatch: Option<string>, rows: seq<PropertyRow>, es: seq<Entity>)
    requires Translate(base, exactMatch, rows, es).Ok?
    ensures RegistryOf(rows).Ok?
    ensures forall i :: 0 <= i < |es| ==>
      EntityEmitted(Config(base, exactMatch, RegistryOf(rows).value), es[i], Translate(base, exactMatch, rows, es).value)
  {
    EntitiesWalkEmits(Config(base, exactMatch, RegistryOf(rows).value), 0, es);
  }

  /** A claim whose property is not registered stops the run: nothing is written. */
  lemma UnknownPropertyAborts(base: string, exactMatch: Option<string>, rows: seq<PropertyRow>, es: seq<Entity>, i: int, j: int)
    requires RegistryOf(rows).Ok?
    requires 0 <= i < |es| && 0 <= j < |es[i].claims|
    requires es[i].claims[j].property !in RegistryOf(rows).value
    ensures Translate(base, exactMatch, rows, es).Fail?
  {
    if Translate(base, exactMatch, rows, es).Ok? {
      TranslateEmits(base, exactMatch, rows, es);
    }
  }

  /** A statement without mainsnak.datavalue stops the run: nothing is written. */
  lemma MissingDataValueAborts(base: string, exactMatch: Option<string>, rows: seq<PropertyRow>, es: seq<Entity>, i: int, j: int, k: int)
    requires 0 <= i < |es| && 0 <= j < |es[i].claims| && 0 <= k < |es[i].claims[j].statements|
    requires DataValueOf(es[i].claims[j].statements[k]).Fail?
    ensures Translate(base, exactMatch, rows, es).Fail?
  {
    if Translate(base, exactMatch, rows, es).Ok? {
      TranslateEmits(base, exactMatch, rows, es);
      assert EntityEmitted(Config(base, exactMatch, RegistryOf(rows).value), es[i], Translate(base, exactMatch, rows, es).value);
    }
  }

  /** An entity without an English label stops the run: nothing is written. */
  lemma MissingEnglishLabelAborts(base: string, exactMatch: Option<string>, rows: seq<PropertyRow>, es: seq<Entity>, i: int)
    requires 0 <= i < |es| && "en" !in es[i].labels
    ensures Translate(base, exactMatch, rows, es).Fail?
  {
    if Translate(base, exactMatch, rows, es).Ok? {
      TranslateEmits(base, exactMatch, rows, es);
      assert EntityEmitted(Config(base, exactMatch, RegistryOf(rows).value), es[i], Translate(base, exactMatch, rows, es).value);
    }
  }

  /** A property-info row without a type stops the run before any entity, naming the first
      such row. */
  lemma MalformedRegistryAborts(base: string, exactMatch: Option<string>, rows: seq<PropertyRow>, es: seq<Entity>, i: int)
    requires FirstUntyped(rows, i)
    ensures Translate(base, exactMatch, rows, es) == Fail(MalformedRegistryEntry(rows[i].id))
  {
    RegistryOfMeaning(rows);
    var k :| FirstUntyped(rows, k) && RegistryOf(rows).error == MalformedRegistryEntry(rows[k].id);
    assert k == i;
  }
}
