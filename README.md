# wb2ttl translation engine, modelled in Dafny

`wb2ttl.py` reads entity records from a Wikibase (items `Q<n>` and properties `P<n>`, with
labels, descriptions and claims). It writes them out as RDF triples in a local namespace
scheme that copies Wikidata's. This project models the script's core and proves properties of
it:

- the property-type registry, built from the property-info rows;
- the minting of IRIs in the eight local namespaces;
- the walk over entities, claims, statements, references and qualifiers, including the
  dispatch on datatypes that turns each value into an IRI or a literal.

The model has three layers:

- **Specification functions** (`Semantics`, `Registry`, `Values`). For each loop of the
  script there is a function. It gives either the set of triples that loop adds together with
  the fresh-name counter after it, or the error that stops the run.
- **An imperative translator** (`Translator`). A class holds the graph as a `set<Triple>`
  field and a fresh-name counter. Its methods are the script's nested loops, and each method
  is proved to follow its specification function. The registry loop is a method with a loop
  too (`Registry.BuildRegistry`).
- **Lemmas** about the specification functions:
  - what a completed run must contain, and which missing keys abort it (`Coverage`);
  - exactly when each walk, and the whole run, completes (`Completion`);
  - the exact reference and qualifier sub-graphs (`Subgraphs`);
  - which triples can only appear under certain conditions (`Exclusivity`);
  - reference-node freshness and the doubled statement loop within a claim (`Freshness`);
  - reference-node freshness across the whole run (`RunFreshness`);
  - a worked example (`Samples`).

Modelling choices:

- `uuid.uuid4()` becomes a counter. Reference node `n` is `reference/<n in decimal>`, and the
  counter is threaded through every walk.
- `exit()` and an uncaught `KeyError`/`TypeError`/`IndexError` become an abort that carries
  an `Error` value. Serialization happens only after normal completion, so `Translate`
  returns either the whole graph or the error, and never part of a graph.
- The keys of a statement, snak, reference and datavalue that the script reads with a lookup
  are `Option` fields, so a missing key is representable and aborts the run. An entity's `id`,
  `labels`, `descriptions` and `claims` are plain fields (see "Left out"). Snak groups and
  claims are sequences in the order of the decoded dictionaries.
- The exactMatch option's default, `False`, becomes `None`.

Some behaviour of the code is easy to misread, and the model follows the code:

- An entity without an English label aborts the run. `wb2ttl.py:118` reads the label without a
  guard and outside the `try`, so the label is not simply skipped.
- An abort leaves no output at all. The graph is serialized only at `wb2ttl.py:277`, after the
  loop, and `exit()` ends the process first. No triples of earlier entities are written.
- A claim's statements are walked once per statement of the claim (`wb2ttl.py:134-137`).
  Because the graph is a set, only the fresh reference nodes show this: each reference gets a
  new node and a new `prov:wasDerivedFrom` link on every pass.
- A property id listed by several property-info rows ends up with the type of its last row.

## Model

| member | source | states |
|---|---|---|
| Registry.RegistryOfMeaning | wb2ttl.py:95-101 | Building the registry fails exactly when some row has no type, and the error names the first such row. On success the keys are exactly the rows' ids, and each id maps to the type of the last row naming it. |
| Registry.BuildRegistry | wb2ttl.py:95-101 | The loop that fills the dictionary in place and stops at the first untyped row returns exactly `RegistryOf(rows)`. |
| Registry.RegistryOf | wb2ttl.py:95-101 | The registry the property-info loop builds: each row in order sets its id to its type, and the first row without a type aborts. Its meaning is stated by `Registry.RegistryOfMeaning`. |
| Namespaces.Mint | wb2ttl.py:35-57 | A minted IRI starts with the role's root (base plus role suffix), and after the root it is exactly the local id. |
| Namespaces.MintInjective | wb2ttl.py:35-57 | For slash-free local ids, two minted IRIs are equal if and only if the role and the id are the same. |
| Namespaces.PropSubspacesDisjoint | wb2ttl.py:39-57 | No IRI lies in two of the prop/direct/, prop/statement/, prop/reference/ and prop/qualifier/ namespaces, whatever the local ids. |
| Namespaces.PredicateNamespaceUnderProp | wb2ttl.py:36-57 | Every IRI in a predicate namespace starts with base + "prop/". |
| Namespaces.MintOverlapsWithSlash | wb2ttl.py:36-39 | The namespaces do overlap for ids that contain a slash: prop/ plus "direct/P1" is prop/direct/ plus "P1". |
| Numerals.IntToString | wb2ttl.py:167 | Python's `str()` of an integer is a digit string exactly when the integer is not negative. |
| Numerals.NatToStringValue | wb2ttl.py:167 | The digits written for a natural number n read back in base ten as n. |
| Numerals.IntToStringValue | wb2ttl.py:167 | `str(i)` is a numeral that reads back as i, with a minus sign exactly for negative i. |
| Numerals.IntToStringInjective | wb2ttl.py:167 | Different integers have different `str()` images. |
| Numerals.NatToStringCanonical | wb2ttl.py:167 | `str(n)` of a natural number is a non-empty digit string with no leading zero; only `0` itself starts with `0`. |
| Numerals.IntToStringCanonical | wb2ttl.py:167 | `str(i)` is a canonical numeral: canonical digits, or a minus sign before canonical digits that do not start with `0`, so there is no `-0`. |
| Numerals.DigitsRoundTrip | wb2ttl.py:167 | Every canonical digit string is exactly `str()` of its base-ten value. So a `Q` + digits id that the script writes here names the same node as a record whose own id is `Q` followed by those digits (wb2ttl.py:114-118). |
| Numerals.NumeralRoundTrip | wb2ttl.py:167 | Every canonical numeral is `str()` of the integer it denotes. Together with `Numerals.IntToStringCanonical` and `Numerals.IntToStringValue`, `str()` is a bijection between the integers and the canonical numerals. |
| Values.ItemIriInjective | wb2ttl.py:163-173 | Different numeric ids give different `entity/Q<id>` IRIs. |
| Values.MainObject | wb2ttl.py:163-222 | The shared object by registered type: an item gives the `entity/Q<numeric-id>` IRI; string and commonsMedia give a plain literal; url gives the raw value as an IRI; time gives an xsd:dateTime literal. Each succeeds exactly when its field can be read. Any other type gives no object and no error. |
| Values.ReferenceTriple | wb2ttl.py:233-252 | A snak without a value type aborts. A url or string snak succeeds exactly when its property and its string value are present, and a time snak exactly when its property and a string `time` field are present. It then gives one triple on the reference node with predicate prop/reference/<snak property>, whose object is an IRI, a plain literal, or a plain literal of the time string. Any other value type gives nothing and no error. |
| Values.QualifierTriple | wb2ttl.py:256-263 | A snak without a value type aborts. A quantity snak succeeds exactly when its property and a string `amount` are present, and then gives the triple statement node, prop/qualifier/<snak property>, a plain literal of the amount. Any other value type gives nothing and no error. |
| Semantics.EntityHeaderMeaning | wb2ttl.py:114-126 | An empty id or a missing English label aborts. Otherwise the label triple is present; a description triple is present exactly when an English description exists; the three typing triples are present exactly when the id starts with P. All of these have the entity node as subject, and there are no others (the count is 1, +1, +3). |
| Semantics.EntityHeader | wb2ttl.py:114-126 | The label, description and typing triples of one entity, or the abort for an empty id or a missing English label. Stated by `Semantics.EntityHeaderMeaning`. |
| Semantics.ExactMatchTriples | wb2ttl.py:150-156 | The skos:exactMatch triple from the entity to the IRI of the datavalue's text, exactly when the statement's property is the configured exactMatch property. Stated by `Exclusivity.StatementExactOnlyWhen`. |
| Semantics.MainTriples | wb2ttl.py:163-222 | The direct-claim triple from the entity and the statement-value triple from the statement node, for the property's registered datatype. Stated by `Exclusivity.StatementDirectOnlyWhen` and `Exclusivity.StatementValueOnlyWhen`. |
| Semantics.StatementBodyWalk | wb2ttl.py:141-271 | The part of one statement inside the `try`: datavalue, exactMatch, main value, references and qualifiers, with a missing key aborting. Stated by `Coverage.StatementWalkEmits` and `Completion.StatementCompletion`. |
| Semantics.ReferenceSnaksWalk | wb2ttl.py:233-252 | The snaks of one reference: a url snak gives an IRI object, a string snak a literal, a time snak a literal of its `time`, any other type nothing; a malformed snak aborts. Stated by `Subgraphs.ReferenceSnaksExact`. |
| Semantics.ReferenceGroupsWalk | wb2ttl.py:233-252 | The snak groups of one reference in order. Stated by `Subgraphs.ReferenceGroupsExact`. |
| Semantics.QualifierSnaksWalk | wb2ttl.py:257-263 | The snaks of one qualifier: a quantity snak gives a literal of its `amount`, any other type nothing; a malformed snak aborts. Stated by `Subgraphs.QualifierSnaksExact`. |
| Semantics.ReferencesWalk | wb2ttl.py:225-252 | The references of a statement: a fresh node for each, its prov:wasDerivedFrom link and its snaks. Stated by `Subgraphs.ReferencesExact`, `Freshness.ReferencesWalkMints` and `Completion.ReferencesCompletion`. |
| Semantics.QualifierGroupsWalk | wb2ttl.py:254-263 | The qualifiers of a statement. Stated by `Subgraphs.QualifierGroupsExact` and `Completion.QualifierGroupsCompletion`. |
| Semantics.StatementWalk | wb2ttl.py:138-271 | One statement: its claim link, then its datavalue, exactMatch, main value, references and qualifiers, with a missing key aborting. Stated by `Coverage.StatementWalkEmits`, the `Exclusivity.Statement*OnlyWhen` lemmas and `Completion.StatementCompletion`. |
| Semantics.PassWalk | wb2ttl.py:137-271 | One pass of the inner statement loop. Stated by `Coverage.PassWalkEmits`, `Freshness.PassWalkMintsAt` and `Completion.PassCompletion`. |
| Semantics.PassesWalk | wb2ttl.py:134-137 | k passes over the same statement list, which is the doubled loop. Stated by `Freshness.PassesWalkCount`, `Freshness.PassesWalkMintsAt` and `Completion.PassesCompletion`. |
| Semantics.ClaimWalk | wb2ttl.py:129-137 | One claim: an unregistered property aborts, otherwise as many passes as the claim has statements. Stated by `Coverage.ClaimWalkEmits`, `Freshness.ClaimWalkMints` and `Completion.ClaimCompletion`. |
| Semantics.ClaimsWalk | wb2ttl.py:129-137 | The claims of one entity in order. Stated by `Coverage.ClaimsWalkEmits` and `Completion.ClaimsCompletion`. |
| Semantics.EntityWalk | wb2ttl.py:114-271 | One entity: its header, then its claims. Stated by `Completion.EntityCompletion`. |
| Semantics.EntitiesWalk | wb2ttl.py:109-271 | The loop over all entity records. Stated by `Coverage.EntitiesWalkEmits` and `Completion.EntitiesCompletion`. |
| Semantics.Translate | wb2ttl.py:95-277 | The whole run: the registry, then every entity into an empty graph, and the graph only when nothing aborted. Stated by `Coverage.TranslateEmits`, `Completion.TranslateCompletion` and `Exclusivity.TranslateWithoutExactMatch`. |
| Translator.Translator.constructor | wb2ttl.py:67 | The translator starts with an empty graph and an unused name supply. |
| Translator.Translator.FreshReferenceNode | wb2ttl.py:227 | Returns the reference node named by the current counter, advances the counter by one and leaves the graph unchanged. That these names never repeat over a run is stated by `RunFreshness.RunNodesDistinct` and `RunFreshness.TranslateMintsAt`. |
| Translator.Translator.AddReferenceSnaks | wb2ttl.py:234-252 | Adds exactly the triples of `ReferenceSnaksWalk`, or returns its abort. |
| Translator.Translator.AddReferenceGroups | wb2ttl.py:233-252 | Adds exactly the triples of `ReferenceGroupsWalk`, or returns its abort. |
| Translator.Translator.AddReferences | wb2ttl.py:225-252 | Follows `ReferencesWalk`: a fresh node per reference, its derivation link and its snaks; the counter advances as the walk's does. |
| Translator.Translator.AddQualifierSnaks | wb2ttl.py:257-263 | Adds exactly the triples of `QualifierSnaksWalk`, or returns its abort. |
| Translator.Translator.AddQualifierGroups | wb2ttl.py:255-263 | Adds exactly the triples of `QualifierGroupsWalk`, or returns its abort. |
| Translator.Translator.AddStatementTail | wb2ttl.py:224-263 | Follows `StatementTailWalk`: the references, then the qualifiers. |
| Translator.Translator.AddStatement | wb2ttl.py:138-271 | Follows `StatementWalk`: the claim link, then datavalue, exactMatch, main value and tail; a missing key aborts. |
| Translator.Translator.AddClaimPass | wb2ttl.py:137-271 | Follows `PassWalk`: one pass over the statements of a claim. |
| Translator.Translator.AddClaim | wb2ttl.py:134-137 | Follows `PassesWalk` with as many passes as the claim has statements (the doubled loop). |
| Translator.Translator.AddEntityHeader | wb2ttl.py:114-126 | Adds exactly the `EntityHeader` triples or returns its error, leaving the graph unchanged then. Does not touch the counter. |
| Translator.Translator.AddEntity | wb2ttl.py:114-139 | Follows `EntityWalk`: the header, then each claim, aborting on a property missing from the registry. |
| Translator.Translator.AddEntities | wb2ttl.py:109-271 | Follows `EntitiesWalk` over the entity rows. |
| Translator.Convert | wb2ttl.py:95-277 | The whole script returns exactly `Translate`: the registry, then every entity into a fresh graph, and the graph only when nothing aborted. |
| Coverage.StatementWalkEmits | wb2ttl.py:137-222 | A completed statement has an id, its claim link, a datavalue, and its direct and statement-value triples with one shared object. The exactMatch triple is also there when the property is the configured one. |
| Coverage.PassWalkEmits | wb2ttl.py:137-222 | A completed pass holds every statement's guaranteed triples. |
| Coverage.ClaimWalkEmits | wb2ttl.py:129-139 | A completed claim had a registered property and holds every statement's guaranteed triples. |
| Coverage.ClaimsWalkEmits | wb2ttl.py:129-139 | A completed claim loop holds the guaranteed triples of every claim. |
| Coverage.EntitiesWalkEmits | wb2ttl.py:109-139 | A completed entity loop holds every entity's header and every statement's guaranteed triples. |
| Coverage.TranslateEmits | wb2ttl.py:95-277 | A run that completes had a valid registry, and its output holds every entity's header and every statement's guaranteed triples. |
| Coverage.UnknownPropertyAborts | wb2ttl.py:129-132 | A claim property missing from the registry makes the run fail, so nothing is written. |
| Coverage.MissingDataValueAborts | wb2ttl.py:141-142 | A statement without mainsnak.datavalue makes the run fail, so nothing is written. |
| Coverage.MissingEnglishLabelAborts | wb2ttl.py:118 | An entity without an English label makes the run fail, so nothing is written. |
| Coverage.MalformedRegistryAborts | wb2ttl.py:95-101 | A property-info row without a type makes the run fail with the first such row's id, before any entity is processed. |
| Completion.ReferenceSnaksCompletion | wb2ttl.py:234-252 | The snaks under one reference property complete if and only if each has a value type and, for url, string and time, its property and payload. |
| Completion.ReferenceGroupsCompletion | wb2ttl.py:233-252 | All snak groups of a reference complete if and only if every snak in them can be read. |
| Completion.ReferencesCompletion | wb2ttl.py:225-252 | The references of a statement complete if and only if each has its `snaks` key and every snak in them can be read. This holds whatever the counter is. |
| Completion.QualifierSnaksCompletion | wb2ttl.py:257-263 | The snaks under one qualifier property complete if and only if each has a value type and every quantity snak has its property and amount. |
| Completion.QualifierGroupsCompletion | wb2ttl.py:254-263 | All qualifiers of a statement complete if and only if every qualifier snak can be read. |
| Completion.StatementCompletion | wb2ttl.py:138-271 | A statement completes if and only if it has an id and a main datavalue, its raw value is a string when its claim is the exactMatch property, its main value can be read for the registered type, and its references and qualifiers can be read. |
| Completion.PassCompletion | wb2ttl.py:137-271 | A pass completes if and only if every statement of the claim can be translated. |
| Completion.PassesCompletion | wb2ttl.py:134-137 | k passes complete if and only if k is 0 or every statement can be translated, because each pass reads the same statements. |
| Completion.ClaimCompletion | wb2ttl.py:129-137 | A claim completes if and only if its property is registered and all its statements can be translated. |
| Completion.ClaimsCompletion | wb2ttl.py:129-137 | An entity's claims complete if and only if every claim can be translated. |
| Completion.EntityCompletion | wb2ttl.py:114-271 | An entity completes if and only if it has a non-empty id, an English label and translatable claims. |
| Completion.EntitiesCompletion | wb2ttl.py:109-271 | The entity loop completes if and only if every entity can be translated. |
| Completion.TranslateCompletion | wb2ttl.py:95-277 | A run writes its graph if and only if every property-info row has a type and every entity can be translated against the resulting registry. Every other run aborts and writes nothing. This is the converse of the four abort lemmas. |
| Subgraphs.ReferenceSnaksExact | wb2ttl.py:234-252 | The snaks under one reference property all map without error, and the walk adds a triple if and only if one of the snaks maps to it. |
| Subgraphs.ReferenceGroupsExact | wb2ttl.py:233-252 | The same, over all snak groups of a reference. |
| Subgraphs.ReferencesExact | wb2ttl.py:225-252 | Every reference has snaks. The walk adds a triple if and only if, for some r, it is the derivation link from the statement node to reference node n + r, or a triple of reference r's snaks on that node. |
| Subgraphs.ReferencesHaveSnaks | wb2ttl.py:226-233 | A reference walk completes only if every reference has its `snaks` key. |
| Subgraphs.ReferencesExactAt | wb2ttl.py:225-252 | For any one triple: the walk adds it if and only if it is the derivation link to reference node n + r, or a snak triple of reference r on that node, for some r. |
| Subgraphs.QualifierSnaksExact | wb2ttl.py:257-263 | The qualifier snaks of one property all map without error, and the walk adds a triple if and only if one of them maps to it. |
| Subgraphs.QualifierGroupsExact | wb2ttl.py:255-263 | The same, over all qualifier properties, so only quantity snaks contribute. |
| Exclusivity.StatementTailPredicates | wb2ttl.py:224-263 | Every reference or qualifier triple uses prov:wasDerivedFrom, or a predicate in prop/reference/ or prop/qualifier/. |
| Exclusivity.VocabularyOutsideProp | wb2ttl.py:36-64 | For every base, neither skos:exactMatch nor prov:wasDerivedFrom lies under base + "prop/". |
| Exclusivity.LocalPredicateIsNotVocabulary | wb2ttl.py:36-64 | For every base, no IRI in a predicate namespace is skos:exactMatch or prov:wasDerivedFrom. |
| Exclusivity.StatementDirectOnlyWhen | wb2ttl.py:163-222 | A statement adds a prop/direct/<P> triple only when P's registered type is a main type, and the triple is then the direct triple carrying the main value. |
| Exclusivity.StatementValueOnlyWhen | wb2ttl.py:163-222 | A statement adds a prop/statement/<P> triple only when P's registered type is a main type, and the triple is then the statement-value triple on the statement node. |
| Exclusivity.StatementExactOnlyWhen | wb2ttl.py:151-156 | A statement adds a skos:exactMatch triple only when its property is the configured exactMatch property, and the triple's object is then the raw value as an IRI. |
| Exclusivity.PassWalkExactMatchOnlyFor | wb2ttl.py:137-156 | A pass adds skos:exactMatch triples only when the claim property is the configured one. |
| Exclusivity.PassesWalkExactMatchOnlyFor | wb2ttl.py:134-156 | The same holds for all passes of a claim. |
| Exclusivity.ClaimsWalkExactMatchOnlyConfigured | wb2ttl.py:129-156 | An entity's claims add skos:exactMatch triples only when the option is set. |
| Exclusivity.HeaderWithoutExactMatch | wb2ttl.py:118-126 | Entity headers never use skos:exactMatch. |
| Exclusivity.EntitiesWalkExactMatchOnlyConfigured | wb2ttl.py:109-156 | The entity loop adds skos:exactMatch triples only when the option is set. |
| Exclusivity.TranslateWithoutExactMatch | wb2ttl.py:151-156 | With the option at its default, the output holds no skos:exactMatch triple at all. |
| Freshness.ReferenceNodesDistinct | wb2ttl.py:227 | Two reference nodes are equal if and only if their counters are. |
| Freshness.ReferencesWalkMints | wb2ttl.py:225-232 | k references use exactly k fresh names, n to n + k - 1, and the statement node is derived from each of them. |
| Freshness.StatementWalkMints | wb2ttl.py:225-232 | A statement uses one fresh name per reference and links its node to each of them. |
| Freshness.PassWalkCount | wb2ttl.py:137-232 | One pass uses exactly as many fresh names as the claim has references. |
| Freshness.PassWalkMintsAt | wb2ttl.py:137-232 | In a pass, reference j of statement i gets the name after those of the earlier statements, and is linked from statement i's node. |
| Freshness.PassesWalkCount | wb2ttl.py:134-232 | k passes use k times as many fresh names as there are references. |
| Freshness.PassesWalkMintsAt | wb2ttl.py:134-232 | In pass p, reference j of statement i gets the name after p whole passes and the earlier statements, and is linked from statement i's node. |
| Freshness.PassesWalkHasPass | wb2ttl.py:134-137 | In a completed run of k passes, pass p completes too, starting from the counter that p whole passes leave behind. |
| Freshness.PassesWalkKeepsPass | wb2ttl.py:134-137 | Every triple added by pass p is in the output of all k passes. |
| Freshness.PassWalkHasId | wb2ttl.py:137-138 | Every statement of a completed pass has an id. |
| Freshness.ClaimWalkMints | wb2ttl.py:134-232 | A claim with m statements uses m times as many fresh names as it has references, and in each of the m passes each reference is linked to the node of its own slot. |
| Freshness.PassSlotsDistinct | wb2ttl.py:137-227 | Different (statement, reference) positions of a pass get different slots. |
| Freshness.ClaimSlotBelowTotal | wb2ttl.py:134-227 | Every slot of a claim lies below the names the whole claim uses. |
| Freshness.ClaimSlotsDistinct | wb2ttl.py:134-227 | Different (pass, statement, reference) positions of a claim have different slots. |
| Freshness.ClaimSlotNodesDistinct | wb2ttl.py:134-227 | Different (pass, statement, reference) positions of a claim get different reference nodes, so each reference gets a new node on every pass. |
| RunFreshness.ReferenceGroupsNoDerivation | wb2ttl.py:233-252 | The snaks of a reference never add a `prov:wasDerivedFrom` triple: their predicates lie under prop/reference/. |
| RunFreshness.QualifierGroupsNoDerivation | wb2ttl.py:254-263 | The qualifiers of a statement never add a `prov:wasDerivedFrom` triple: their predicates lie under prop/qualifier/. |
| RunFreshness.ReferencesWithin | wb2ttl.py:225-232 | The references of a statement starting at counter n link only to nodes n to n + k - 1 for k references. |
| RunFreshness.StatementHeadNoDerivation | wb2ttl.py:138-222 | A statement's claim link, exactMatch triple and main triples never use `prov:wasDerivedFrom`. |
| RunFreshness.StatementWithin | wb2ttl.py:137-263 | A statement starting at counter n links only to the nodes of its own references, n to n + RefCount - 1. |
| RunFreshness.PassWithin | wb2ttl.py:137-263 | One pass starting at counter n links only to nodes below n plus the claim's reference count. |
| RunFreshness.PassesWithin | wb2ttl.py:134-263 | k passes starting at counter n link only to nodes below n plus k times the reference count. |
| RunFreshness.ClaimWalkCount | wb2ttl.py:134-232 | A claim uses exactly `ClaimNames(c)` fresh names, its statement count times its reference count, from its starting counter. |
| RunFreshness.ClaimWalkWithin | wb2ttl.py:134-263 | A claim starting at counter n links only to the names it uses, n to n + `ClaimNames(c)` - 1. |
| RunFreshness.ClaimsWalkCount | wb2ttl.py:129-232 | The claims of an entity use exactly `ClaimsNames` names: the counter moves on from claim to claim and is never reset. |
| RunFreshness.ClaimsWalkWithin | wb2ttl.py:129-263 | The claims of an entity link only to the names they use. |
| RunFreshness.HeaderNoDerivation | wb2ttl.py:118-126 | An entity's label, description and typing triples never use `prov:wasDerivedFrom`. |
| RunFreshness.EntityWalkCount | wb2ttl.py:114-232 | An entity uses exactly the names of its claims. |
| RunFreshness.EntityWalkWithin | wb2ttl.py:114-263 | An entity links only to the names of its claims. |
| RunFreshness.EntitiesWalkCount | wb2ttl.py:109-232 | A run over entities uses exactly `EntitiesNames(es)` names from its starting counter, carried over from entity to entity. |
| RunFreshness.EntitiesWalkWithin | wb2ttl.py:109-263 | A run over entities links only to the names it uses. |
| RunFreshness.EntityWalkMintsAt | wb2ttl.py:114-232 | Within one entity, each (claim, pass, statement, reference) position is linked from its statement's node to the node of its claims slot. |
| RunFreshness.ClaimsWalkMintsAt | wb2ttl.py:129-232 | Within an entity, reference j of statement i of claim c is, on pass p, linked from the statement's node to the node of its claims slot. |
| RunFreshness.EntitiesWalkHasEntity | wb2ttl.py:109-114 | In a completed run, entity e completes too, from the counter the entities before it leave behind, and all it adds is in the output. |
| RunFreshness.EntitiesWalkMintsAt | wb2ttl.py:109-232 | Within a run, each (entity, claim, pass, statement, reference) position is linked from its statement's node to the node of its run slot. |
| RunFreshness.ClaimsSlotBounds | wb2ttl.py:129-227 | A claims position's slot lies among the names of its own claim. |
| RunFreshness.ClaimsSlotsDistinct | wb2ttl.py:129-227 | Different positions among an entity's claims have different slots. |
| RunFreshness.RunSlotBounds | wb2ttl.py:109-227 | A run position's slot lies among the names of its own entity. |
| RunFreshness.RunSlotsDistinct | wb2ttl.py:109-227 | Different run positions have different slots, each below the run's total `EntitiesNames(es)`. |
| RunFreshness.TranslateNames | wb2ttl.py:109-232 | Every `prov:wasDerivedFrom` link in a completed run's output points at one of the names 0 to `EntitiesNames(es)` - 1. |
| RunFreshness.TranslateMintsAt | wb2ttl.py:109-232 | In a completed run's output, every reference position is linked from its statement's node to the reference node of its run slot. |
| RunFreshness.RunNodesDistinct | wb2ttl.py:109-227 | Different positions of a run get different reference nodes, in any entity, claim or pass. |
| Samples.SingleUrlClaim | wb2ttl.py:109-222 | An item labelled "Test" with one url claim P2 and a single statement yields exactly its label, its claim link, and its direct and statement-value triples carrying the URL as an IRI. |
| Samples.SampleStatementWalk | wb2ttl.py:138-210 | The sample statement alone adds its claim link, and its direct and statement-value triples carrying the URL as an IRI, and uses no fresh names. |
| Samples.SingleUrlClaimEmitsFour | wb2ttl.py:109-222 | That run emits exactly four triples. |
| Samples.SampleItemIri | wb2ttl.py:167 | The item with numeric id 42 is written as entity/Q42. |

## Left out

- Database access: the MySQL connection, the cursors and the SQL files (`wb2ttl.py:73-107`, `274`). This is I/O. The registry rows and the entity records are parameters.
- `json.loads` and the unused `modified` field (`wb2ttl.py:110-112`). Records arrive already decoded.
- A record without an `id` key cannot be represented: `Entity.id` is a plain string. The script would crash with a `KeyError` at `wb2ttl.py:114`, outside the `try`. The same holds for a record that lacks `labels`, `descriptions` or `claims` altogether. Likewise `labels` and `descriptions` map a language straight to its text. So an `en` entry without a `value` key, which the script would hit as a `KeyError` at `wb2ttl.py:118` or `wb2ttl.py:121`, cannot be represented either.
- Argument parsing (`wb2ttl.py:23-27`). The base IRI and the optional exactMatch property are parameters.
- rdflib's graph, `bind` and Turtle serialization (`wb2ttl.py:66-70`, `277`). rdflib is a foreign library. The graph is an abstract set of triples.
- The `print`, `pprint` and `traceback` diagnostics (`wb2ttl.py:100`, `131`, `158`, `267-270`). They are a side channel, not output.
- The randomness of `uuid.uuid4()`. It is modelled as a counter, so the model's names are decimal numbers rather than UUIDs. What the script relies on is that the names never repeat within a run. The model proves that every position (entity, claim, pass, statement, reference) of a completed run is linked to its own node, and that every `prov:wasDerivedFrom` link of the output points at one of the `EntitiesNames(es)` names the run draws. It does not model the collision probability of real UUIDs.
- The unused `wikidata_base` namespaces and the relative `wdp` (`wb2ttl.py:32-57`). No triple uses them.
- The re-check at `wb2ttl.py:146-148`. It cannot be reached because line 130 already exits.
- Which exception the script dies of. A `KeyError`, `TypeError` or `IndexError`, caught or not, becomes one abort with an `Error` value.
- Values.MainObject: a payload of the wrong JSON shape that rdflib would coerce aborts the run with `WrongShape`. Examples are an object value under a string/commonsMedia/url property, or a non-string `time`. Python would write the coerced literal or IRI.
- Values.ReferenceTriple: likewise, a reference snak whose url/string value is an object, or whose `time` is not a string, aborts instead of being coerced.
- Values.QualifierTriple: likewise, a non-string `amount` aborts instead of becoming a literal of the number.
- Semantics.ExactMatchTriples: likewise, an object value under the exactMatch property aborts instead of becoming an IRI of its text.
- A JSON float, boolean or null under `numeric-id`, `time` or `amount` cannot be represented: `Records.Scalar` holds only an integer or a string. Python would write `str()` of it, such as `3.0`, `True` or `None`.
- Namespaces.MintInjective: stated only for local ids without a slash. Namespaces.MintOverlapsWithSlash shows that it fails otherwise.
- Literal equality follows the lexical form, language and datatype. rdflib's value-based comparison of typed literals is not modelled.
