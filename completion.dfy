/** When a run completes: each walk finishes without an abort exactly when every key it reads
    is present in the shape it reads it, every claim's property is registered, and every entity
    has an id and an English label. Whether a walk completes never depends on the fresh-name
    counter or on the node it writes about. */
module Completion {
  import opened Wrappers
  import opened Rdf
  import opened Records
  import opened Values
  import opened Registry
  import opened Semantics

  ghost predicate ReferenceSnaksTranslatable(snaks: seq<Snak>) {
    forall k :: 0 <= k < |snaks| ==> ReferenceSnakReadable(snaks[k])
  }

  ghost predicate ReferenceGroupsTranslatable(groups: seq<SnakGroup>) {
    forall g :: 0 <= g < |groups| ==> ReferenceSnaksTranslatable(groups[g].snaks)
  }

  /** A reference has its `snaks` key and every snak in it can be read. */
  ghost predicate ReferenceTranslatable(ref: Reference) {
    ref.snaks.Some? && ReferenceGroupsTranslatable(ref.snaks.value)
  }

  ghost predicate ReferencesTranslatable(refs: seq<Reference>) {
    forall r :: 0 <= r < |refs| ==> ReferenceTranslatable(refs[r])
  }

  ghost predicate QualifierSnaksTranslatable(snaks: seq<Snak>) {
    forall k :: 0 <= k < |snaks| ==> QualifierSnakReadable(snaks[k])
  }

  ghost predicate QualifierGroupsTranslatable(groups: seq<SnakGroup>) {
    forall g :: 0 <= g < |groups| ==> QualifierSnaksTranslatable(groups[g].snaks)
  }

  /** A statement has an id and a main datavalue; the raw value is a string when the claim is
      the exactMatch property; the main value can be read for the registered type; and its
      references and qualifiers, when present, can be read. */
  ghost predicate StatementTranslatable(cfg: Config, property: string, rtype: string, s: Statement) {
    s.id.Some? && DataValueOf(s).Ok? &&
    (cfg.exactMatch == Some(property) ==> TextPayload(DataValueOf(s).value).Ok?) &&
    MainObject(cfg.base, rtype, DataValueOf(s).value).Ok? &&
    (s.references.Some? ==> ReferencesTranslatable(s.references.value)) &&
    (s.qualifiers.Some? ==> QualifierGroupsTranslatable(s.qualifiers.value))
  }

  ghost predicate StatementsTranslatable(cfg: Config, property: string, rtype: string, stmts: seq<Statement>) {
    forall i :: 0 <= i < |stmts| ==> StatementTranslatable(cfg, property, rtype, stmts[i])
  }

  /** A claim's property is registered and each of its statements can be translated. */
  ghost predicate ClaimTranslatable(cfg: Config, c: Claim) {
    c.property in cfg.propinfo && StatementsTranslatable(cfg, c.property, cfg.propinfo[c.property], c.statements)
  }

  ghost predicate ClaimsTranslatable(cfg: Config, claims: seq<Claim>) {
    forall j :: 0 <= j < |claims| ==> ClaimTranslatable(cfg, claims[j])
  }

  /** An entity has an id, an English label and claims that can all be translated. */
  ghost predicate EntityTranslatable(cfg: Config, e: Entity) {
    e.id != "" && "en" in e.labels && ClaimsTranslatable(cfg, e.claims)
  }

  ghost predicate EntitiesTranslatable(cfg: Config, es: seq<Entity>) {
    forall i :: 0 <= i < |es| ==> EntityTranslatable(cfg, es[i])
  }

  lemma {:induction false} ReferenceSnaksCompletion(base: string, entity: string, property: string, node: Term, n: nat, snaks: seq<Snak>)
    ensures ReferenceSnaksWalk(base, entity, property, node, n, snaks).Emitted? <==> ReferenceSnaksTranslatable(snaks)
    decreases |snaks|
  {
    if snaks != [] {
      ReferenceSnaksCompletion(base, entity, property, node, n, snaks[1..]);
      assert forall k :: 0 < k < |snaks| ==> snaks[k] == snaks[1..][k - 1];
    }
  }

  lemma {:induction false} ReferenceGroupsCompletion(base: string, entity: string, property: string, node: Term, n: nat, groups: seq<SnakGroup>)
    ensures ReferenceGroupsWalk(base, entity, property, node, n, groups).Emitted? <==> ReferenceGroupsTranslatable(groups)
    decreases |groups|
  {
    if groups != [] {
      ReferenceSnaksCompletion(base, entity, property, node, n, groups[0].snaks);
      var w := ReferenceSnaksWalk(base, entity, property, node, n, groups[0].snaks);
      if w.Emitted? {
        ReferenceGroupsCompletion(base, entity, property, node, w.next, groups[1..]);
      }
      assert forall g :: 0 < g < |groups| ==> groups[g] == groups[1..][g - 1];
    }
  }

  /** The references of a statement complete exactly when each has its snaks and they can all
      be read. */
  lemma {:induction false} ReferencesCompletion(base: string, entity: string, property: string, statementNode: Term, n: nat, refs: seq<Reference>)
    ensures ReferencesWalk(base, entity, property, statementNode, n, refs).Emitted? <==> ReferencesTranslatable(refs)
    decreases |refs|
  {
    if refs != [] {
      assert ReferencesWalk(base, entity, property, statementNode, n, refs)
          == ReferencesFrom(base, entity, property, statementNode, n, refs);
      if refs[0].snaks.Some? {
        var node := ReferenceNode(base, n);
        ReferenceGroupsCompletion(base, entity, property, node, n + 1, refs[0].snaks.value);
        var w := ReferenceGroupsWalk(base, entity, property, node, n + 1, refs[0].snaks.value);
        if w.Emitted? {
          ReferencesCompletion(base, entity, property, statementNode, w.next, refs[1..]);
        }
      }
      assert forall r :: 0 < r < |refs| ==> refs[r] == refs[1..][r - 1];
    }
  }

  lemma {:induction false} QualifierSnaksCompletion(base: string, entity: string, property: string, node: Term, n: nat, snaks: seq<Snak>)
    ensures QualifierSnaksWalk(base, entity, property, node, n, snaks).Emitted? <==> QualifierSnaksTranslatable(snaks)
    decreases |snaks|
  {
    if snaks != [] {
      QualifierSnaksCompletion(base, entity, property, node, n, snaks[1..]);
      assert forall k :: 0 < k < |snaks| ==> snaks[k] == snaks[1..][k - 1];
    }
  }

  /** The qualifiers of a statement complete exactly when every qualifier snak can be read. */
  lemma {:induction false} QualifierGroupsCompletion(base: string, entity: string, property: string, node: Term, n: nat, groups: seq<SnakGroup>)
    ensures QualifierGroupsWalk(base, entity, property, node, n, groups).Emitted? <==> QualifierGroupsTranslatable(groups)
    decreases |groups|
  {
    if groups != [] {
      QualifierSnaksCompletion(base, entity, property, node, n, groups[0].snaks);
      var w := QualifierSnaksWalk(base, entity, property, node, n, groups[0].snaks);
      if w.Emitted? {
        QualifierGroupsCompletion(base, entity, property, node, w.next, groups[1..]);
      }
      assert forall g :: 0 < g < |groups| ==> groups[g] == groups[1..][g - 1];
    }
  }

  /** A statement completes exactly when it can be translated. */
  lemma StatementCompletion(cfg: Config, entity: string, property: string, rtype: string, n: nat, s: Statement)
    ensures StatementWalk(cfg, entity, property, rtype, n, s).Emitted? <==> StatementTranslatable(cfg, property, rtype, s)
  {
    if s.id.Some? {
      var node := StatementNode(cfg.base, s.id.value);
      var refs := OptionalReferencesWalk(cfg.base, entity, property, node, n, s);
      if s.references.Some? {
        ReferencesCompletion(cfg.base, entity, property, node, n, s.references.value);
      }
      if refs.Emitted? && s.qualifiers.Some? {
        QualifierGroupsCompletion(cfg.base, entity, property, node, refs.next, s.qualifiers.value);
      }
    }
  }

  /** One pass completes exactly when every statement of the claim can be translated. */
  lemma {:induction false} PassCompletion(cfg: Config, entity: string, property: string, rtype: string, n: nat, stmts: seq<Statement>)
    ensures PassWalk(cfg, entity, property, rtype, n, stmts).Emitted? <==> StatementsTranslatable(cfg, property, rtype, stmts)
    decreases |stmts|
  {
    if stmts != [] {
      assert PassWalk(cfg, entity, property, rtype, n, stmts) == PassFrom(cfg, entity, property, rtype, n, stmts);
      StatementCompletion(cfg, entity, property, rtype, n, stmts[0]);
      var w := StatementWalk(cfg, entity, property, rtype, n, stmts[0]);
      if w.Emitted? {
        PassCompletion(cfg, entity, property, rtype, w.next, stmts[1..]);
      }
      assert forall i :: 0 < i < |stmts| ==> stmts[i] == stmts[1..][i - 1];
    }
  }

  /** Any positive number of passes completes exactly when one pass does: every pass reads the
      same statements. */
  lemma {:induction false} PassesCompletion(cfg: Config, entity: string, property: string, rtype: string, n: nat, stmts: seq<Statement>, k: nat)
    ensures PassesWalk(cfg, entity, property, rtype, n, stmts, k).Emitted? <==> k == 0 || StatementsTranslatable(cfg, property, rtype, stmts)
    decreases k
  {
    if k > 0 {
      PassCompletion(cfg, entity, property, rtype, n, stmts);
      var w := PassWalk(cfg, entity, property, rtype, n, stmts);
      if w.Emitted? {
        PassesCompletion(cfg, entity, property, rtype, w.next, stmts, k - 1);
      }
    }
  }

  /** A claim completes exactly when its property is registered and its statements can be
      translated. */
  lemma ClaimCompletion(cfg: Config, entity: string, n: nat, c: Claim)
    ensures ClaimWalk(cfg, entity, n, c).Emitted? <==> ClaimTranslatable(cfg, c)
  {
    if c.property in cfg.propinfo {
      PassesCompletion(cfg, entity, c.property, cfg.propinfo[c.property], n, c.statements, |c.statements|);
    }
  }

  lemma {:induction false} ClaimsCompletion(cfg: Config, entity: string, n: nat, claims: seq<Claim>)
    ensures ClaimsWalk(cfg, entity, n, claims).Emitted? <==> ClaimsTranslatable(cfg, claims)
    decreases |claims|
  {
    if claims != [] {
      ClaimCompletion(cfg, entity, n, claims[0]);
      var w := ClaimWalk(cfg, entity, n, claims[0]);
      if w.Emitted? {
        ClaimsCompletion(cfg, entity, w.next, claims[1..]);
      }
      assert forall j :: 0 < j < |claims| ==> claims[j] == claims[1..][j - 1];
    }
  }

  /** An entity completes exactly when it has an id, an English label and translatable claims. */
  lemma EntityCompletion(cfg: Config, n: nat, e: Entity)
    ensures EntityWalk(cfg, n, e).Emitted? <==> EntityTranslatable(cfg, e)
  {
    EntityHeaderMeaning(cfg.base, e);
    ClaimsCompletion(cfg, e.id, n, e.claims);
  }

  lemma {:induction false} EntitiesCompletion(cfg: Config, n: nat, es: seq<Entity>)
    ensures EntitiesWalk(cfg, n, es).Emitted? <==> EntitiesTranslatable(cfg, es)
    decreases |es|
  {
    if es != [] {
      EntityCompletion(cfg, n, es[0]);
      var w := EntityWalk(cfg, n, es[0]);
      if w.Emitted? {
        EntitiesCompletion(cfg, w.next, es[1..]);
      }
      assert forall i :: 0 < i < |es| ==> es[i] == es[1..][i - 1];
    }
  }

  /** A run writes its graph exactly when every property-info row has a type and every entity
      can be translated against the registry the rows give; every other run aborts. */
  lemma TranslateCompletion(base: string, exactMatch: Option<string>, rows: seq<PropertyRow>, es: seq<Entity>)
    ensures Translate(base, exactMatch, rows, es).Ok? <==>
      RegistryOf(rows).Ok? && EntitiesTranslatable(Config(base, exactMatch, RegistryOf(rows).value), es)
  {
    if RegistryOf(rows).Ok? {
      EntitiesCompletion(Config(base, exactMatch, RegistryOf(rows).value), 0, es);
    }
  }
}
