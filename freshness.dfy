/** Reference nodes: every reference processed gets the next fresh node, all such nodes are
    different, and because a claim's statement list is walked once per statement it holds,
    each reference of a claim with m statements is given m different nodes. */
module Freshness {
  import opened Wrappers
  import opened Rdf
  import opened Records
  import opened Namespaces
  import opened Numerals
  import opened Semantics

  function RefCount(s: Statement): nat {
    if s.references.Some? then |s.references.value| else 0
  }

  /** The number of references over a list of statements. */
  function RefTotal(stmts: seq<Statement>): nat
    decreases |stmts|
  {
    if stmts == [] then 0 else RefCount(stmts[0]) + RefTotal(stmts[1..])
  }

  /** Fresh names never repeat: different counters give different reference nodes. */
  lemma ReferenceNodesDistinct(base: string, a: nat, b: nat)
    ensures ReferenceNode(base, a) == ReferenceNode(base, b) <==> a == b
  {
    assert SlashFree(NatToString(a)) && SlashFree(NatToString(b));
    MintInjective(base, ReferenceNs, NatToString(a), ReferenceNs, NatToString(b));
    NatToStringInjective(a, b);
  }

  lemma {:induction false} ReferenceSnaksKeepCounter(base: string, entity: string, property: string, node: Term, n: nat, snaks: seq<Snak>)
    requires ReferenceSnaksWalk(base, entity, property, node, n, snaks).Emitted?
    ensures ReferenceSnaksWalk(base, entity, property, node, n, snaks).next == n
    decreases |snaks|
  {
    if snaks != [] {
      ReferenceSnaksKeepCounter(base, entity, property, node, n, snaks[1..]);
    }
  }

  lemma {:induction false} ReferenceGroupsKeepCounter(base: string, entity: string, property: string, node: Term, n: nat, groups: seq<SnakGroup>)
    requires ReferenceGroupsWalk(base, entity, property, node, n, groups).Emitted?
    ensures ReferenceGroupsWalk(base, entity, property, node, n, groups).next == n
    decreases |groups|
  {
    if groups != [] {
      ReferenceSnaksKeepCounter(base, entity, property, node, n, groups[0].snaks);
      ReferenceGroupsKeepCounter(base, entity, property, node, n, groups[1..]);
    }
  }

  lemma {:induction false} QualifierSnaksKeepCounter(base: string, entity: string, property: string, node: Term, n: nat, snaks: seq<Snak>)
    requires QualifierSnaksWalk(base, entity, property, node, n, snaks).Emitted?
    ensures QualifierSnaksWalk(base, entity, property, node, n, snaks).next == n
    decreases |snaks|
  {
    if snaks != [] {
      QualifierSnaksKeepCounter(base, entity, property, node, n, snaks[1..]);
    }
  }

  lemma {:induction false} QualifierGroupsKeepCounter(base: string, entity: string, property: string, node: Term, n: nat, groups: seq<SnakGroup>)
    requires QualifierGroupsWalk(base, entity, property, node, n, groups).Emitted?
    ensures QualifierGroupsWalk(base, entity, property, node, n, groups).next == n
    decreases |groups|
  {
    if groups != [] {
      QualifierSnaksKeepCounter(base, entity, property, node, n, groups[0].snaks);
      QualifierGroupsKeepCounter(base, entity, property, node, n, groups[1..]);
    }
  }

  /** k references consume k fresh names, and the statement node is derived from each of the k
      nodes they got. */
  lemma {:induction false} ReferencesWalkMints(base: string, entity: string, property: string, statementNode: Term, n: nat, refs: seq<Reference>)
    requires ReferencesWalk(base, entity, property, statementNode, n, refs).Emitted?
    ensures ReferencesWalk(base, entity, property, statementNode, n, refs).next == n + |refs|
    ensures forall m :: n <= m < n + |refs| ==>
      DerivationTriple(statementNode, ReferenceNode(base, m)) in ReferencesWalk(base, entity, property, statementNode, n, refs).triples
    decreases |refs|
  {
    if refs != [] {
      var node := ReferenceNode(base, n);
      ReferenceGroupsKeepCounter(base, entity, property, node, n + 1, refs[0].snaks.value);
      ReferencesWalkMints(base, entity, property, statementNode, n + 1, refs[1..]);
    }
  }

  /** A statement consumes one fresh name per reference it carries, and its node is derived
      from each of them. */
  lemma StatementWalkMints(cfg: Config, entity: string, property: string, rtype: string, n: nat, s: Statement)
    requires StatementWalk(cfg, entity, property, rtype, n, s).Emitted?
    ensures StatementWalk(cfg, entity, property, rtype, n, s).next == n + RefCount(s)
    ensures s.id.Some? && forall m :: n <= m < n + RefCount(s) ==>
      DerivationTriple(StatementNode(cfg.base, s.id.value), ReferenceNode(cfg.base, m))
        in StatementWalk(cfg, entity, property, rtype, n, s).triples
  {
    StatementWalkParts(cfg, entity, property, rtype, n, s);
    var node := StatementNode(cfg.base, s.id.value);
    StatementTailParts(cfg.base, entity, property, node, n, s);
    var refs := OptionalReferencesWalk(cfg.base, entity, property, node, n, s);
    if s.references.Some? {
      ReferencesWalkMints(cfg.base, entity, property, node, n, s.references.value);
    }
    if s.qualifiers.Some? {
      QualifierGroupsKeepCounter(cfg.base, entity, property, node, refs.next, s.qualifiers.value);
    }
  }

  /** The offset, within one pass, of the fresh name of reference j of statement i. */
  function PassSlot(stmts: seq<Statement>, i: int, j: nat): nat
    requires 0 <= i <= |stmts|
  {
    RefTotal(stmts[..i]) + j
  }

  /** The names used by k whole passes of t names each, counted pass by pass. */
  function Times(k: nat, t: nat): nat {
    if k == 0 then 0 else t + Times(k - 1, t)
  }

  lemma {:induction false} TimesIsProduct(k: nat, t: nat)
    ensures Times(k, t) == k * t
  {
    if k > 0 {
      TimesIsProduct(k - 1, t);
    }
  }

  /** The offset, within a claim, of that name in pass p. */
  function ClaimSlot(stmts: seq<Statement>, p: nat, i: int, j: nat): nat
    requires 0 <= i <= |stmts|
  {
    Times(p, RefTotal(stmts)) + PassSlot(stmts, i, j)
  }

  lemma PrefixTotal(stmts: seq<Statement>, i: int)
    requires 0 < i <= |stmts|
    ensures RefTotal(stmts[..i]) == RefCount(stmts[0]) + RefTotal(stmts[1..][..i - 1])
  {
    assert stmts[..i][1..] == stmts[1..][..i - 1];
  }

  /** Statement i of a list is statement i - 1 of its tail, and its slot moves accordingly. */
  lemma PassSlotTail(stmts: seq<Statement>, i: int, j: nat)
    requires 0 < i < |stmts|
    ensures stmts[i] == stmts[1..][i - 1]
    ensures PassSlot(stmts, i, j) == RefCount(stmts[0]) + PassSlot(stmts[1..], i - 1, j)
  {
    PrefixTotal(stmts, i);
  }

  /** One pass consumes RefTotal(stmts) fresh names. */
  lemma {:induction false} PassWalkCount(cfg: Config, entity: string, property: string, rtype: string, n: nat, stmts: seq<Statement>)
    requires PassWalk(cfg, entity, property, rtype, n, stmts).Emitted?
    ensures PassWalk(cfg, entity, property, rtype, n, stmts).next == n + RefTotal(stmts)
    decreases |stmts|
  {
    if stmts != [] {
      PassWalkStep(cfg, entity, property, rtype, n, stmts);
      var w := StatementWalk(cfg, entity, property, rtype, n, stmts[0]);
      StatementWalkMints(cfg, entity, property, rtype, n, stmts[0]);
      PassWalkCount(cfg, entity, property, rtype, w.next, stmts[1..]);
    }
  }

  /** Within a pass, the j-th reference of statement i gets the name after those of the
      statements before it, and the statement node is derived from it. */
  lemma {:induction false} PassWalkMintsAt(cfg: Config, entity: string, property: string, rtype: string, n: nat, stmts: seq<Statement>, i: int, j: nat)
    requires PassWalk(cfg, entity, property, rtype, n, stmts).Emitted?
    requires 0 <= i < |stmts| && j < RefCount(stmts[i])
    ensures stmts[i].id.Some?
    ensures DerivationTriple(StatementNode(cfg.base, stmts[i].id.value), ReferenceNode(cfg.base, n + PassSlot(stmts, i, j)))
      in PassWalk(cfg, entity, property, rtype, n, stmts).triples
    decreases |stmts|
  {
    PassWalkStep(cfg, entity, property, rtype, n, stmts);
    var w := StatementWalk(cfg, entity, property, rtype, n, stmts[0]);
    StatementWalkMints(cfg, entity, property, rtype, n, stmts[0]);
    if i == 0 {
      assert stmts[..0] == [];
    } else {
      PassSlotTail(stmts, i, j);
      PassWalkMintsAt(cfg, entity, property, rtype, w.next, stmts[1..], i - 1, j);
    }
  }


  /** k passes consume k times RefTotal(stmts) fresh names. */
  lemma {:induction false} PassesWalkCount(cfg: Config, entity: string, property: string, rtype: string, n: nat, stmts: seq<Statement>, k: nat)
    requires PassesWalk(cfg, entity, property, rtype, n, stmts, k).Emitted?
    ensures PassesWalk(cfg, entity, property, rtype, n, stmts, k).next == n + Times(k, RefTotal(stmts))
    decreases k
  {
    if k > 0 {
      PassesWalkStep(cfg, entity, property, rtype, n, stmts, k);
      var w := PassWalk(cfg, entity, property, rtype, n, stmts);
      PassWalkCount(cfg, entity, property, rtype, n, stmts);
      PassesWalkCount(cfg, entity, property, rtype, w.next, stmts, k - 1);
    }
  }

  /** In pass p of k, statement i's j-th reference gets the name after the p earlier passes and
      the statements before i. */
  lemma {:induction false} PassesWalkMintsAt(cfg: Config, entity: string, property: string, rtype: string, n: nat, stmts: seq<Statement>, k: nat,
                                             p: nat, i: int, j: nat)
    requires PassesWalk(cfg, entity, property, rtype, n, stmts, k).Emitted?
    requires p < k && 0 <= i < |stmts| && j < RefCount(stmts[i])
    ensures stmts[i].id.Some?
    ensures DerivationTriple(StatementNode(cfg.base, stmts[i].id.value), ReferenceNode(cfg.base, n + ClaimSlot(stmts, p, i, j)))
      in PassesWalk(cfg, entity, property, rtype, n, stmts, k).triples
    decreases k
  {
    var start := n + Times(p, RefTotal(stmts));
    PassesWalkHasPass(cfg, entity, property, rtype, n, stmts, k, p, start);
    PassWalkMintsAt(cfg, entity, property, rtype, start, stmts, i, j);
    PassesWalkKeepsPass(cfg, entity, property, rtype, n, stmts, k, p, start,
      DerivationTriple(StatementNode(cfg.base, stmts[i].id.value), ReferenceNode(cfg.base, start + PassSlot(stmts, i, j))));
  }

  /** Pass p of k completes, starting at the counter left by the p passes before it. */
  lemma {:induction false} PassesWalkHasPass(cfg: Config, entity: string, property: string, rtype: string, n: nat, stmts: seq<Statement>, k: nat, p: nat, start: nat)
    requires PassesWalk(cfg, entity, property, rtype, n, stmts, k).Emitted?
    requires p < k && start == n + Times(p, RefTotal(stmts))
    ensures PassWalk(cfg, entity, property, rtype, start, stmts).Emitted?
    decreases k
  {
    PassesWalkStep(cfg, entity, property, rtype, n, stmts, k);
    if p == 0 {
      assert start == n;
    } else {
      var w := PassWalk(cfg, entity, property, rtype, n, stmts);
      PassWalkCount(cfg, entity, property, rtype, n, stmts);
      assert start == w.next + Times(p - 1, RefTotal(stmts));
      PassesWalkHasPass(cfg, entity, property, rtype, w.next, stmts, k - 1, p - 1, start);
    }
  }

  /** A triple added by pass p of k is among those of all k passes. */
  lemma {:induction false} PassesWalkKeepsPass(cfg: Config, entity: string, property: string, rtype: string, n: nat, stmts: seq<Statement>, k: nat, p: nat, start: nat, t: Triple)
    requires PassesWalk(cfg, entity, property, rtype, n, stmts, k).Emitted?
    requires p < k && start == n + Times(p, RefTotal(stmts))
    requires PassWalk(cfg, entity, property, rtype, start, stmts).Emitted?
    requires t in PassWalk(cfg, entity, property, rtype, start, stmts).triples
    ensures t in PassesWalk(cfg, entity, property, rtype, n, stmts, k).triples
    decreases k
  {
    PassesWalkStep(cfg, entity, property, rtype, n, stmts, k);
    if p == 0 {
      assert start == n;
    } else {
      var w := PassWalk(cfg, entity, property, rtype, n, stmts);
      PassWalkCount(cfg, entity, property, rtype, n, stmts);
      assert start == w.next + Times(p - 1, RefTotal(stmts));
      PassesWalkKeepsPass(cfg, entity, property, rtype, w.next, stmts, k - 1, p - 1, start, t);
    }
  }

  /** Every statement of a pass that completes carries an id. */
  lemma {:induction false} PassWalkHasId(cfg: Config, entity: string, property: string, rtype: string, n: nat, stmts: seq<Statement>, i: int)
    requires PassWalk(cfg, entity, property, rtype, n, stmts).Emitted?
    requires 0 <= i < |stmts|
    ensures stmts[i].id.Some?
    decreases |stmts|
  {
    PassWalkStep(cfg, entity, property, rtype, n, stmts);
    if i > 0 {
      var w := StatementWalk(cfg, entity, property, rtype, n, stmts[0]);
      PassWalkHasId(cfg, entity, property, rtype, w.next, stmts[1..], i - 1);
    }
  }

  /** The doubled loop: a claim with m statements consumes m times as many fresh names as it
      has references, and in each of the m passes statement i's j-th reference is linked to the
      node of its own slot. */
  lemma ClaimWalkMints(cfg: Config, entity: string, n: nat, c: Claim)
    requires ClaimWalk(cfg, entity, n, c).Emitted?
    ensures ClaimWalk(cfg, entity, n, c).next == n + |c.statements| * RefTotal(c.statements)
    ensures forall i :: 0 <= i < |c.statements| ==> c.statements[i].id.Some?
    ensures forall p, i, j :: 0 <= p < |c.statements| && 0 <= i < |c.statements| && 0 <= j < RefCount(c.statements[i]) ==>
      DerivationTriple(StatementNode(cfg.base, c.statements[i].id.value),
                       ReferenceNode(cfg.base, n + ClaimSlot(c.statements, p, i, j)))
        in ClaimWalk(cfg, entity, n, c).triples
  {
    var stmts := c.statements;
    var rtype := cfg.propinfo[c.property];
    PassesWalkCount(cfg, entity, c.property, rtype, n, stmts, |stmts|);
    TimesIsProduct(|stmts|, RefTotal(stmts));
    forall i | 0 <= i < |stmts|
      ensures stmts[i].id.Some?
    {
      PassesWalkStep(cfg, entity, c.property, rtype, n, stmts, |stmts|);
      PassWalkHasId(cfg, entity, c.property, rtype, n, stmts, i);
    }
    forall p, i, j | 0 <= p < |stmts| && 0 <= i < |stmts| && 0 <= j < RefCount(stmts[i])
      ensures DerivationTriple(StatementNode(cfg.base, stmts[i].id.value), ReferenceNode(cfg.base, n + ClaimSlot(stmts, p, i, j)))
          in ClaimWalk(cfg, entity, n, c).triples
    {
      PassesWalkMintsAt(cfg, entity, c.property, rtype, n, stmts, |stmts|, p, i, j);
    }
  }

  /** Every slot of a pass lies below the pass's total. */
  lemma {:induction false} PassSlotBelowTotal(stmts: seq<Statement>, i: int, j: nat)
    requires 0 <= i < |stmts| && j < RefCount(stmts[i])
    ensures PassSlot(stmts, i, j) < RefTotal(stmts)
    decreases |stmts|
  {
    if i == 0 {
      assert stmts[..0] == [];
    } else {
      PrefixTotal(stmts, i);
      assert stmts[i] == stmts[1..][i - 1];
      PassSlotBelowTotal(stmts[1..], i - 1, j);
    }
  }

  /** Different (statement, reference) positions of a pass have different slots. */
  lemma {:induction false} PassSlotsDistinct(stmts: seq<Statement>, i: int, j: nat, i': int, j': nat)
    requires 0 <= i < |stmts| && j < RefCount(stmts[i])
    requires 0 <= i' < |stmts| && j' < RefCount(stmts[i'])
    requires (i, j) != (i', j')
    ensures PassSlot(stmts, i, j) != PassSlot(stmts, i', j')
    decreases |stmts|
  {
    assert stmts[..0] == [];
    if i == 0 && i' != 0 {
      PrefixTotal(stmts, i');
    } else if i != 0 && i' == 0 {
      PrefixTotal(stmts, i);
    } else if i != 0 && i' != 0 {
      PrefixTotal(stmts, i);
      PrefixTotal(stmts, i');
      assert stmts[i] == stmts[1..][i - 1] && stmts[i'] == stmts[1..][i' - 1];
      PassSlotsDistinct(stmts[1..], i - 1, j, i' - 1, j');
    }
  }

  lemma {:induction false} PassesApart(p: nat, q: nat, total: nat)
    requires p < q
    ensures Times(p, total) + total <= Times(q, total)
    decreases q
  {
    if p + 1 < q {
      PassesApart(p, q - 1, total);
    }
  }

  /** Every slot of a claim lies below the names the whole claim uses. */
  lemma ClaimSlotBelowTotal(stmts: seq<Statement>, p: nat, i: int, j: nat)
    requires p < |stmts| && 0 <= i < |stmts| && j < RefCount(stmts[i])
    ensures ClaimSlot(stmts, p, i, j) < Times(|stmts|, RefTotal(stmts))
  {
    PassSlotBelowTotal(stmts, i, j);
    if p + 1 < |stmts| {
      PassesApart(p, |stmts|, RefTotal(stmts));
    } else {
      assert Times(|stmts|, RefTotal(stmts)) == RefTotal(stmts) + Times(p, RefTotal(stmts));
    }
  }

  /** Different (pass, statement, reference) positions of a claim have different slots. */
  lemma ClaimSlotsDistinct(stmts: seq<Statement>, p: nat, i: int, j: nat, p': nat, i': int, j': nat)
    requires 0 <= i < |stmts| && j < RefCount(stmts[i])
    requires 0 <= i' < |stmts| && j' < RefCount(stmts[i'])
    requires (p, i, j) != (p', i', j')
    ensures ClaimSlot(stmts, p, i, j) != ClaimSlot(stmts, p', i', j')
  {
    var total := RefTotal(stmts);
    PassSlotBelowTotal(stmts, i, j);
    PassSlotBelowTotal(stmts, i', j');
    if p == p' {
      PassSlotsDistinct(stmts, i, j, i', j');
    } else if p < p' {
      PassesApart(p, p', total);
    } else {
      PassesApart(p', p, total);
    }
  }

  /** Different (pass, statement, reference) positions of a claim get different reference
      nodes: the doubled loop mints a new node for every reference on every pass. */
  lemma ClaimSlotNodesDistinct(base: string, n: nat, stmts: seq<Statement>, p: nat, i: int, j: nat, p': nat, i': int, j': nat)
    requires 0 <= i < |stmts| && j < RefCount(stmts[i])
    requires 0 <= i' < |stmts| && j' < RefCount(stmts[i'])
    requires (p, i, j) != (p', i', j')
    ensures ReferenceNode(base, n + ClaimSlot(stmts, p, i, j)) != ReferenceNode(base, n + ClaimSlot(stmts, p', i', j'))
  {
    ClaimSlotsDistinct(stmts, p, i, j, p', i', j');
    ReferenceNodesDistinct(base, n + ClaimSlot(stmts, p, i, j), n + ClaimSlot(stmts, p', i', j'));
  }
}
