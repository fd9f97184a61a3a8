/** The local namespace scheme: every role's root is the configured base followed by a fixed
    suffix, and an IRI in a role is that root followed by the local identifier. */
module Namespaces {

  /** The eight local namespaces the translator mints IRIs in. */
  datatype Role =
    | Prop            // prop/
    | PropDirect      // prop/direct/
    | EntityNs        // entity/
    | ReferenceNs     // reference/
    | StatementNs     // entity/statement/
    | PropStatement   // prop/statement/
    | PropReference   // prop/reference/
    | PropQualifier   // prop/qualifier/

  function Suffix(role: Role): string {
    match role
    case Prop => "prop/"
    case PropDirect => "prop/direct/"
    case EntityNs => "entity/"
    case ReferenceNs => "reference/"
    case StatementNs => "entity/statement/"
    case PropStatement => "prop/statement/"
    case PropReference => "prop/reference/"
    case PropQualifier => "prop/qualifier/"
  }

  /** The roles whose IRIs are used as predicates all live under base + "prop/". */
  predicate IsPredicateRole(role: Role) {
    role in {Prop, PropDirect, PropStatement, PropReference, PropQualifier}
  }

  function Root(base: string, role: Role): string {
    base + Suffix(role)
  }

  /** The IRI of `local` in the namespace of `role`. */
  function Mint(base: string, role: Role, local: string): (iri: string)
    ensures Root(base, role) <= iri && |iri| == |Root(base, role)| + |local|
    ensures iri[|Root(base, role)|..] == local
  {
    Root(base, role) + local
  }

  predicate SlashFree(s: string) {
    forall i :: 0 <= i < |s| ==> s[i] != '/'
  }

  /** Whether an IRI lies in a role's namespace (starts with that role's root). */
  predicate InNamespace(base: string, role: Role, iri: string) {
    Root(base, role) <= iri
  }

  lemma SuffixEndsInSlash(role: Role)
    ensures |Suffix(role)| >= 5 && Suffix(role)[|Suffix(role)| - 1] == '/'
  {
  }

  /** Every IRI in the namespace of a predicate role lies under base + "prop/". */
  lemma {:induction false} PredicateNamespaceUnderProp(base: string, role: Role, iri: string)
    requires IsPredicateRole(role) && InNamespace(base, role, iri)
    ensures base + "prop/" <= iri
  {
    assert Suffix(role)[..5] == "prop/";
    assert iri[..|base| + 5] == Root(base, role)[..|base| + 5] == base + Suffix(role)[..5];
  }

  /** The four sub-namespaces of prop/ (direct, statement, reference, qualifier) are pairwise
      disjoint for any local ids: their suffixes already differ right after "prop/". */
  lemma {:induction false} PropSubspacesDisjoint(base: string, r1: Role, r2: Role, iri: string)
    requires r1 in {PropDirect, PropStatement, PropReference, PropQualifier}
    requires r2 in {PropDirect, PropStatement, PropReference, PropQualifier}
    requires r1 != r2
    ensures InNamespace(base, r1, iri) ==> !InNamespace(base, r2, iri)
  {
    assert Suffix(r1)[5] != Suffix(r2)[5];
    if InNamespace(base, r1, iri) {
      assert iri[|base| + 5] == Root(base, r1)[|base| + 5] == Suffix(r1)[5];
    }
  }

  /** If the IRI of a slash-free local id lies in the namespace of `other`, then the suffix of
      `other` is a prefix of the suffix of the role it was minted in. */
  lemma {:induction false} NamespaceOfMint(base: string, role: Role, local: string, other: Role)
    requires SlashFree(local)
    requires InNamespace(base, other, Mint(base, role, local))
    ensures Suffix(other) <= Suffix(role)
  {
    var iri := Mint(base, role, local);
    var s1, s2 := Suffix(role), Suffix(other);
    SuffixEndsInSlash(other);
    assert iri == base + (s1 + local);
    assert s2 <= s1 + local by {
      forall k | 0 <= k < |s2| ensures s2[k] == (s1 + local)[k] {
        assert Root(base, other)[|base| + k] == iri[|base| + k];
      }
    }
    if |s2| > |s1| {
      assert false;
    }
  }

  /** The suffixes are pairwise different: no suffix is a proper prefix of another with the
      same length, so equal suffixes mean equal roles. */
  lemma SuffixInjective(r1: Role, r2: Role)
    requires Suffix(r1) == Suffix(r2)
    ensures r1 == r2
  {
  }

  /** For slash-free local ids (Wikibase ids such as P31, Q5 and statement ids are), IRIs minted
      in different roles or from different ids never coincide. */
  lemma {:induction false} MintInjective(base: string, r1: Role, a: string, r2: Role, b: string)
    requires SlashFree(a) && SlashFree(b)
    ensures Mint(base, r1, a) == Mint(base, r2, b) <==> r1 == r2 && a == b
  {
    if Mint(base, r1, a) == Mint(base, r2, b) {
      NamespaceOfMint(base, r1, a, r2);
      NamespaceOfMint(base, r2, b, r1);
      assert Suffix(r1) == Suffix(r2);
      SuffixInjective(r1, r2);
    }
  }

  /** Without the slash-free restriction the roles do overlap: "prop/" is itself a prefix of
      "prop/direct/", so a local id containing a slash can reach another role's IRI. */
  lemma MintOverlapsWithSlash(base: string)
    ensures Mint(base, Prop, "direct/P1") == Mint(base, PropDirect, "P1")
  {
  }
}
