/** The reference and qualifier sub-graphs of a statement, characterised exactly: a completed
    walk adds a triple if and only if one of its snaks maps to that triple. */
module Subgraphs {
  import opened Wrappers
  import opened Rdf
  import opened Records
  import opened Namespaces
  import opened Values
  import opened Semantics
  import opened Freshness

  /** Some snak of the list maps, as a reference snak of `node`, to `t`. */
  ghost predicate ReferenceSnaksGive(base: string, node: Term, snaks: seq<Snak>, t: Triple) {
    exists k :: 0 <= k < |snaks| && ReferenceTriple(base, node, snaks[k]) == Ok(Some(t))
  }

  /** Some snak of some group maps, as a reference snak of `node`, to `t`. */
  ghost predicate ReferenceGroupsGive(base: string, node: Term, groups: seq<SnakGroup>, t: Triple) {
    exists g :: 0 <= g < |groups| && ReferenceSnaksGive(base, node, groups[g].snaks, t)
  }

  /** `t` is the derivation link to the reference named `m`, or a triple of that reference's snaks. */
  ghost predicate ReferenceGives(base: string, statementNode: Term, m: nat, ref: Reference, t: Triple) {
    t == DerivationTriple(statementNode, ReferenceNode(base, m)) ||
    (ref.snaks.Some? && ReferenceGroupsGive(base, ReferenceNode(base, m), ref.snaks.value, t))
  }

  ghost predicate QualifierSnaksGive(base: string, node: Term, snaks: seq<Snak>, t: Triple) {
    exists k :: 0 <= k < |snaks| && QualifierTriple(base, node, snaks[k]) == Ok(Some(t))
  }

  ghost predicate QualifierGroupsGive(base: string, node: Term, groups: seq<SnakGroup>, t: Triple) {
    exists g :: 0 <= g < |groups| && QualifierSnaksGive(base, node, groups[g].snaks, t)
  }

  /** The snaks of one reference property: every snak maps without error, and the walk adds
      exactly the triples they map to. */
  lemma {:induction false} ReferenceSnaksExact(base: string, entity: string, property: string, node: Term, n: nat, snaks: seq<Snak>)
    requires ReferenceSnaksWalk(base, entity, property, node, n, snaks).Emitted?
    ensures forall k :: 0 <= k < |snaks| ==> ReferenceTriple(base, node, snaks[k]).Ok?
    ensures forall t :: t in ReferenceSnaksWalk(base, entity, property, node, n, snaks).triples <==>
      ReferenceSnaksGive(base, node, snaks, t)
    decreases |snaks|
  {
    if snaks != [] {
      var rest := ReferenceSnaksWalk(base, entity, property, node, n, snaks[1..]);
      ReferenceSnaksExact(base, entity, property, node, n, snaks[1..]);
      var head := ReferenceTriple(base, node, snaks[0]);
      var d := ReferenceSnaksWalk(base, entity, property, node, n, snaks).triples;
      assert head.Ok?;
      assert d == (if head.value.Some? then {head.value.value} else {}) + rest.triples;
      forall k | 0 < k < |snaks|
        ensures snaks[k] == snaks[1..][k - 1]
      {
      }
      forall t
        ensures t in d <==> ReferenceSnaksGive(base, node, snaks, t)
      {
        if t in rest.triples {
          var k :| 0 <= k < |snaks[1..]| && ReferenceTriple(base, node, snaks[1..][k]) == Ok(Some(t));
          assert snaks[k + 1] == snaks[1..][k];
        }
        if ReferenceSnaksGive(base, node, snaks, t) {
          var k :| 0 <= k < |snaks| && ReferenceTriple(base, node, snaks[k]) == Ok(Some(t));
          if k > 0 {
            assert ReferenceTriple(base, node, snaks[1..][k - 1]) == Ok(Some(t));
          }
        }
      }
    }
  }

  /** All reference snak groups of one reference node. */
  lemma {:induction false} ReferenceGroupsExact(base: string, entity: string, property: string, node: Term, n: nat, groups: seq<SnakGroup>)
    requires ReferenceGroupsWalk(base, entity, property, node, n, groups).Emitted?
    ensures forall g, k :: 0 <= g < |groups| && 0 <= k < |groups[g].snaks| ==>
      ReferenceTriple(base, node, groups[g].snaks[k]).Ok?
    ensures forall t :: t in ReferenceGroupsWalk(base, entity, property, node, n, groups).triples <==>
      ReferenceGroupsGive(base, node, groups, t)
    decreases |groups|
  {
    if groups != [] {
      var first := ReferenceSnaksWalk(base, entity, property, node, n, groups[0].snaks);
      ReferenceSnaksExact(base, entity, property, node, n, groups[0].snaks);
      ReferenceSnaksKeepCounter(base, entity, property, node, n, groups[0].snaks);
      var rest := ReferenceGroupsWalk(base, entity, property, node, n, groups[1..]);
      ReferenceGroupsExact(base, entity, property, node, n, groups[1..]);
      var d := ReferenceGroupsWalk(base, entity, property, node, n, groups).triples;
      assert d == first.triples + rest.triples;
      forall g | 0 < g < |groups|
        ensures groups[g] == groups[1..][g - 1]
      {
      }
      forall t
        ensures t in d <==> ReferenceGroupsGive(base, node, groups, t)
      {
        if t in rest.triples {
          var g :| 0 <= g < |groups[1..]| && ReferenceSnaksGive(base, node, groups[1..][g].snaks, t);
          assert groups[g + 1] == groups[1..][g];
        }
        if ReferenceGroupsGive(base, node, groups, t) {
          var g :| 0 <= g < |groups| && ReferenceSnaksGive(base, node, groups[g].snaks, t);
          if g > 0 {
            assert ReferenceSnaksGive(base, node, groups[1..][g - 1].snaks, t);
          }
        }
      }
    }
  }

  /** A completed reference walk is its first reference followed by the rest. */
  lemma ReferencesWalkStep(base: string, entity: string, property: string, statementNode: Term, n: nat, refs: seq<Reference>)
    requires refs != []
    requires ReferencesWalk(base, entity, property, statementNode, n, refs).Emitted?
    ensures refs[0].snaks.Some?
    ensures ReferenceGroupsWalk(base, entity, property, ReferenceNode(base, n), n + 1, refs[0].snaks.value).Emitted?
    ensures var first := ReferenceGroupsWalk(base, entity, property, ReferenceNode(base, n), n + 1, refs[0].snaks.value);
      var rest := ReferencesWalk(base, entity, property, statementNode, first.next, refs[1..]);
      rest.Emitted? &&
      ReferencesWalk(base, entity, property, statementNode, n, refs).triples
        == {DerivationTriple(statementNode, ReferenceNode(base, n))} + first.triples + rest.triples
  {
  }

  /** The triples of a list of references are the first one's derivation link and snak triples,
      and those of the rest, whose positions are shifted by one. */
  lemma ReferencesCombine(base: string, statementNode: Term, n: nat, refs: seq<Reference>,
                          first: set<Triple>, rest: set<Triple>, t: Triple)
    requires refs != [] && refs[0].snaks.Some?
    requires t in first <==> ReferenceGroupsGive(base, ReferenceNode(base, n), refs[0].snaks.value, t)
    requires t in rest <==> exists r :: 0 <= r < |refs[1..]| && ReferenceGives(base, statementNode, n + 1 + r, refs[1..][r], t)
    ensures t in {DerivationTriple(statementNode, ReferenceNode(base, n))} + first + rest <==>
      exists r :: 0 <= r < |refs| && ReferenceGives(base, statementNode, n + r, refs[r], t)
  {
    if t in rest {
      var r :| 0 <= r < |refs[1..]| && ReferenceGives(base, statementNode, n + 1 + r, refs[1..][r], t);
      assert ReferenceGives(base, statementNode, n + (r + 1), refs[r + 1], t);
    } else if t in {DerivationTriple(statementNode, ReferenceNode(base, n))} + first {
      assert ReferenceGives(base, statementNode, n + 0, refs[0], t);
    }
    if exists r :: 0 <= r < |refs| && ReferenceGives(base, statementNode, n + r, refs[r], t) {
      var r :| 0 <= r < |refs| && ReferenceGives(base, statementNode, n + r, refs[r], t);
      if r > 0 {
        assert ReferenceGives(base, statementNode, n + 1 + (r - 1), refs[1..][r - 1], t);
      }
    }
  }

  /** A reference walk completes only if every reference carries its snaks. */
  lemma {:induction false} ReferencesHaveSnaks(base: string, entity: string, property: string, statementNode: Term, n: nat, refs: seq<Reference>)
    requires ReferencesWalk(base, entity, property, statementNode, n, refs).Emitted?
    ensures forall r :: 0 <= r < |refs| ==> refs[r].snaks.Some?
    decreases |refs|
  {
    if refs != [] {
      ReferencesWalkStep(base, entity, property, statementNode, n, refs);
      var first := ReferenceGroupsWalk(base, entity, property, ReferenceNode(base, n), n + 1, refs[0].snaks.value);
      ReferencesHaveSnaks(base, entity, property, statementNode, first.next, refs[1..]);
      forall r | 0 < r < |refs|
        ensures refs[r].snaks.Some?
      {
        assert refs[r] == refs[1..][r - 1];
      }
    }
  }

  /** Whether one triple is added by a reference walk. */
  lemma {:induction false} ReferencesExactAt(base: string, entity: string, property: string, statementNode: Term, n: nat, refs: seq<Reference>, t: Triple)
    requires ReferencesWalk(base, entity, property, statementNode, n, refs).Emitted?
    ensures t in ReferencesWalk(base, entity, property, statementNode, n, refs).triples <==>
      exists r :: 0 <= r < |refs| && ReferenceGives(base, statementNode, n + r, refs[r], t)
    decreases |refs|
  {
    if refs != [] {
      ReferencesWalkStep(base, entity, property, statementNode, n, refs);
      var node := ReferenceNode(base, n);
      var groups := refs[0].snaks.value;
      var first := ReferenceGroupsWalk(base, entity, property, node, n + 1, groups);
      ReferenceGroupsExact(base, entity, property, node, n + 1, groups);
      ReferenceGroupsKeepCounter(base, entity, property, node, n + 1, groups);
      var rest := ReferencesWalk(base, entity, property, statementNode, n + 1, refs[1..]);
      ReferencesExactAt(base, entity, property, statementNode, n + 1, refs[1..], t);
      ReferencesCombine(base, statementNode, n, refs, first.triples, rest.triples, t);
    }
  }

  /** The references of a statement: the r-th one is named by the counter plus r, every one has
      its snaks, and the walk adds exactly the derivation links and the snaks' triples. */
  lemma {:induction false} ReferencesExact(base: string, entity: string, property: string, statementNode: Term, n: nat, refs: seq<Reference>)
    requires ReferencesWalk(base, entity, property, statementNode, n, refs).Emitted?
    ensures forall r :: 0 <= r < |refs| ==> refs[r].snaks.Some?
    ensures forall t :: t in ReferencesWalk(base, entity, property, statementNode, n, refs).triples <==>
      exists r :: 0 <= r < |refs| && ReferenceGives(base, statementNode, n + r, refs[r], t)
  {
    ReferencesHaveSnaks(base, entity, property, statementNode, n, refs);
    forall t
      ensures t in ReferencesWalk(base, entity, property, statementNode, n, refs).triples <==>
        exists r :: 0 <= r < |refs| && ReferenceGives(base, statementNode, n + r, refs[r], t)
    {
      ReferencesExactAt(base, entity, property, statementNode, n, refs, t);
    }
  }

  lemma {:induction false} QualifierSnaksExact(base: string, entity: string, property: string, node: Term, n: nat, snaks: seq<Snak>)
    requires QualifierSnaksWalk(base, entity, property, node, n, snaks).Emitted?
    ensures forall k :: 0 <= k < |snaks| ==> QualifierTriple(base, node, snaks[k]).Ok?
    ensures forall t :: t in QualifierSnaksWalk(base, entity, property, node, n, snaks).triples <==>
      QualifierSnaksGive(base, node, snaks, t)
    decreases |snaks|
  {
    if snaks != [] {
      var rest := QualifierSnaksWalk(base, entity, property, node, n, snaks[1..]);
      QualifierSnaksExact(base, entity, property, node, n, snaks[1..]);
      var head := QualifierTriple(base, node, snaks[0]);
      var d := QualifierSnaksWalk(base, entity, property, node, n, snaks).triples;
      assert head.Ok?;
      assert d == (if head.value.Some? then {head.value.value} else {}) + rest.triples;
      forall k | 0 < k < |snaks|
        ensures snaks[k] == snaks[1..][k - 1]
      {
      }
      forall t
        ensures t in d <==> QualifierSnaksGive(base, node, snaks, t)
      {
        if t in rest.triples {
          var k :| 0 <= k < |snaks[1..]| && QualifierTriple(base, node, snaks[1..][k]) == Ok(Some(t));
          assert snaks[k + 1] == snaks[1..][k];
        }
        if QualifierSnaksGive(base, node, snaks, t) {
          var k :| 0 <= k < |snaks| && QualifierTriple(base, node, snaks[k]) == Ok(Some(t));
          if k > 0 {
            assert QualifierTriple(base, node, snaks[1..][k - 1]) == Ok(Some(t));
          }
        }
      }
    }
  }

  /** The qualifiers of a statement: every qualifier snak maps without error, and the walk adds
      exactly the triples they map to (so only quantity snaks contribute). */
  lemma {:induction false} QualifierGroupsExact(base: string, entity: string, property: string, node: Term, n: nat, groups: seq<SnakGroup>)
    requires QualifierGroupsWalk(base, entity, property, node, n, groups).Emitted?
    ensures forall g, k :: 0 <= g < |groups| && 0 <= k < |groups[g].snaks| ==>
      QualifierTriple(base, node, groups[g].snaks[k]).Ok?
    ensures forall t :: t in QualifierGroupsWalk(base, entity, property, node, n, groups).triples <==>
      QualifierGroupsGive(base, node, groups, t)
    decreases |groups|
  {
    if groups != [] {
      var first := QualifierSnaksWalk(base, entity, property, node, n, groups[0].snaks);
      QualifierSnaksExact(base, entity, property, node, n, groups[0].snaks);
      QualifierSnaksKeepCounter(base, entity, property, node, n, groups[0].snaks);
      var rest := QualifierGroupsWalk(base, entity, property, node, n, groups[1..]);
      QualifierGroupsExact(base, entity, property, node, n, groups[1..]);
      var d := QualifierGroupsWalk(base, entity, property, node, n, groups).triples;
      assert d == first.triples + rest.triples;
      forall g | 0 < g < |groups|
        ensures groups[g] == groups[1..][g - 1]
      {
      }
      forall t
        ensures t in d <==> QualifierGroupsGive(base, node, groups, t)
      {
        if t in rest.triples {
          var g :| 0 <= g < |groups[1..]| && QualifierSnaksGive(base, node, groups[1..][g].snaks, t);
          assert groups[g + 1] == groups[1..][g];
        }
        if QualifierGroupsGive(base, node, groups, t) {
          var g :| 0 <= g < |groups| && QualifierSnaksGive(base, node, groups[g].snaks, t);
          if g > 0 {
            assert QualifierSnaksGive(base, node, groups[1..][g - 1].snaks, t);
          }
        }
      }
    }
  }
}
