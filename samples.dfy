/** A worked run: an item with an English label and one url-typed claim holding a single
    statement without references or qualifiers yields exactly four triples: the label, the
    claim link, the direct triple and the statement-value triple, the last two with the URL
    as an IRI. */
module Samples {
  import opened Wrappers
  import opened Rdf
  import opened Records
  import opened Namespaces
  import opened Registry
  import opened Semantics
  import opened Numerals
  import opened Values

  const SampleBase := "http://example.org/wb/"
  const SampleUrl := "http://example.org"

  function SampleRows(): seq<PropertyRow> {
    [PropertyRow("P2", Some("url"))]
  }

  function SampleStatement(): Statement {
    Statement(Some("S1"), Some(Snak(Some("P2"), Some(DataValue(Some("string"), Some(StringValue(SampleUrl)))))), None, None)
  }

  function SampleEntity(): Entity {
    Entity("Q1", map["en" := "Test"], map[], [Claim("P2", [SampleStatement()])])
  }

  function SampleTriples(): set<Triple> {
    {LabelTriple(SampleBase, "Q1", "Test"),
     LinkTriple(SampleBase, "Q1", "P2", "S1"),
     DirectTriple(SampleBase, "Q1", "P2", IRI(SampleUrl)),
     ValueTriple(SampleBase, StatementNode(SampleBase, "S1"), "P2", IRI(SampleUrl))}
  }

  function SampleStatementTriples(): set<Triple> {
    var o := IRI(SampleUrl);
    {LinkTriple(SampleBase, "Q1", "P2", "S1"),
     DirectTriple(SampleBase, "Q1", "P2", o),
     ValueTriple(SampleBase, StatementNode(SampleBase, "S1"), "P2", o)}
  }

  /** The statement alone: its claim link, and the URL as the object of its two value triples. */
  lemma SampleStatementWalk()
    ensures StatementWalk(Config(SampleBase, None, map["P2" := "url"]), "Q1", "P2", "url", 0, SampleStatement())
      == Emitted(SampleStatementTriples(), 0)
  {
    var s := SampleStatement();
    var node := StatementNode(SampleBase, "S1");
    var o := IRI(SampleUrl);
    assert StatementTailWalk(SampleBase, "Q1", "P2", node, 0, s) == Emitted({}, 0);
    assert MainTriples(SampleBase, "Q1", "P2", "url", node, DataValueOf(s).value)
        == Ok({DirectTriple(SampleBase, "Q1", "P2", o), ValueTriple(SampleBase, node, "P2", o)});
  }

  /** The one claim, walked once because it holds one statement. */
  lemma SampleClaimsWalk()
    ensures ClaimsWalk(Config(SampleBase, None, map["P2" := "url"]), "Q1", 0, SampleEntity().claims)
      == Emitted(SampleStatementTriples(), 0)
  {
    var s := SampleStatement();
    var cfg := Config(SampleBase, None, map["P2" := "url"]);
    SampleStatementWalk();
    assert PassWalk(cfg, "Q1", "P2", "url", 0, [s]) == Emitted(SampleStatementTriples(), 0) by {
      assert [s][1..] == [];
      assert PassFrom(cfg, "Q1", "P2", "url", 0, [s]) == Prepend(SampleStatementTriples(), PassWalk(cfg, "Q1", "P2", "url", 0, []));
    }
    assert PassesWalk(cfg, "Q1", "P2", "url", 0, [s], 1) == Emitted(SampleStatementTriples(), 0);
    assert SampleEntity().claims[1..] == [];
  }

  lemma SingleUrlClaim()
    ensures Translate(SampleBase, None, SampleRows(), [SampleEntity()]) == Ok(SampleTriples())
  {
    var e := SampleEntity();
    var cfg := Config(SampleBase, None, map["P2" := "url"]);
    assert RegistryOf(SampleRows()) == Ok(map["P2" := "url"]) by {
      assert SampleRows()[1..] == [];
    }
    assert EntityHeader(SampleBase, e) == Ok({LabelTriple(SampleBase, "Q1", "Test")});
    SampleClaimsWalk();
    assert EntitiesWalk(cfg, 0, [e]) == Emitted({LabelTriple(SampleBase, "Q1", "Test")} + SampleStatementTriples(), 0) by {
      assert [e][1..] == [];
    }
    assert {LabelTriple(SampleBase, "Q1", "Test")} + SampleStatementTriples() == SampleTriples();
  }

  /** The four triples are pairwise different: their predicates already are. */
  lemma SampleTriplesCount()
    ensures |SampleTriples()| == 4
  {
    assert |Mint(SampleBase, Prop, "P2")| == 29 && |Mint(SampleBase, PropDirect, "P2")| == 36;
    assert |Mint(SampleBase, PropStatement, "P2")| == 39 && |RDFS_LABEL| == 42;
  }

  /** The run therefore emits exactly four triples. */
  lemma SingleUrlClaimEmitsFour()
    ensures Translate(SampleBase, None, SampleRows(), [SampleEntity()]).Ok?
    ensures |Translate(SampleBase, None, SampleRows(), [SampleEntity()]).value| == 4
  {
    SingleUrlClaim();
    SampleTriplesCount();
  }

  /** Item 42 is written as entity/Q42. */
  lemma SampleItemIri(base: string)
    ensures ItemIri(base, IntScalar(42)) == IRI(Mint(base, EntityNs, "Q42"))
  {
    assert NatToString(42) == NatToString(4) + [DigitChar(2)] == "42";
  }
}
