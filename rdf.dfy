/** The RDF terms and triples the translator emits, and the fixed vocabulary IRIs it uses. */
module Rdf {
  import opened Wrappers

  /** An RDF term: an IRI, or a literal with an optional language tag and optional datatype IRI. */
  datatype Term =
    | IRI(iri: string)
    | Lit(lexical: string, lang: Option<string>, datatypeIri: Option<string>)

  datatype Triple = Triple(subj: Term, pred: Term, obj: Term)

  const RDF_TYPE := "http://www.w3.org/1999/02/22-rdf-syntax-ns#type"
  const RDFS_LABEL := "http://www.w3.org/2000/01/rdf-schema#label"
  const SCHEMA_DESCRIPTION := "http://schema.org/description"
  const WIKIBASE_PROPERTY := "http://wikiba.se/ontology#Property"
  const WIKIBASE_DIRECT_CLAIM := "http://wikiba.se/ontology#directClaim"
  const WIKIBASE_CLAIM := "http://wikiba.se/ontology#claim"
  const SKOS_EXACT_MATCH := "http://www.w3.org/2004/02/skos/core#exactMatch"
  const PROV_WAS_DERIVED_FROM := "http://www.w3.org/ns/prov#wasDerivedFrom"
  const XSD_DATE_TIME := "http://www.w3.org/2001/XMLSchema#dateTime"

  /** A literal with neither a language tag nor a datatype. */
  function PlainLiteral(s: string): Term {
    Lit(s, None, None)
  }
}
