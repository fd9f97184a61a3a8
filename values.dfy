/** Datatype dispatch: how a snak's tagged value becomes an RDF object, for a statement's main
    value, for a reference snak and for a qualifier snak. */
module Values {
  import opened Wrappers
  import opened Rdf
  import opened Records
  import opened Namespaces
  import opened Numerals

  const WIKIBASE_ITEM := "wikibase-item"
  const STRING := "string"
  const COMMONS_MEDIA := "commonsMedia"
  const URL := "url"
  const TIME := "time"
  const QUANTITY := "quantity"

  /** The registered datatypes whose main value produces the direct and statement-value triples. */
  const MAIN_TYPES: set<string> := {WIKIBASE_ITEM, STRING, COMMONS_MEDIA, URL, TIME}

  /** The reference-snak value types that produce a triple. */
  const REFERENCE_TYPES: set<string> := {URL, STRING, TIME}

  /** datavalue['value'] used as a string. */
  function TextPayload(dv: DataValue): Result<string, Fault> {
    match dv.value
    case None => Fail(MissingKey)
    case Some(StringValue(s)) => Ok(s)
    case Some(ObjectValue(_)) => Fail(WrongShape)
  }

  /** datavalue['value'][key]. */
  function FieldOf(dv: DataValue, key: string): Result<Scalar, Fault> {
    match dv.value
    case None => Fail(MissingKey)
    case Some(StringValue(_)) => Fail(WrongShape)
    case Some(ObjectValue(fields)) => if key in fields then Ok(fields[key]) else Fail(MissingKey)
  }

  /** datavalue['value'][key] used as a string (`time`, `amount`). */
  function StringField(dv: DataValue, key: string): Result<string, Fault> {
    var x :- FieldOf(dv, key);
    if x.StrScalar? then Ok(x.s) else Fail(WrongShape)
  }

  /** Python's str() of a scalar. */
  function PyStr(x: Scalar): string {
    match x
    case IntScalar(i) => IntToString(i)
    case StrScalar(s) => s
  }

  /** The local entity IRI of the item whose numeric id is `x`: entity/Q<x>. */
  function ItemIri(base: string, x: Scalar): Term {
    IRI(Mint(base, EntityNs, "Q" + PyStr(x)))
  }

  /** The object shared by a statement's direct triple and its statement-value triple, by the
      property's registered datatype; None for any other datatype (skipped, not an error). */
  function MainObject(base: string, rtype: string, dv: DataValue): (r: Result<Option<Term>, Fault>)
    ensures rtype !in MAIN_TYPES ==> r == Ok(None)
    ensures rtype in MAIN_TYPES && r.Ok? ==> r.value.Some?
    ensures rtype == WIKIBASE_ITEM ==>
      (r.Ok? <==> FieldOf(dv, "numeric-id").Ok?) &&
      (r.Ok? ==> r.value.value == ItemIri(base, FieldOf(dv, "numeric-id").value))
    ensures rtype == STRING || rtype == COMMONS_MEDIA ==>
      (r.Ok? <==> TextPayload(dv).Ok?) &&
      (r.Ok? ==> r.value.value == PlainLiteral(TextPayload(dv).value))
    ensures rtype == URL ==>
      (r.Ok? <==> TextPayload(dv).Ok?) &&
      (r.Ok? ==> r.value.value == IRI(TextPayload(dv).value))
    ensures rtype == TIME ==>
      (r.Ok? <==> StringField(dv, "time").Ok?) &&
      (r.Ok? ==> r.value.value == Lit(StringField(dv, "time").value, None, Some(XSD_DATE_TIME)))
  {
    if rtype == WIKIBASE_ITEM then
      var x :- FieldOf(dv, "numeric-id");
      Ok(Some(ItemIri(base, x)))
    else if rtype == STRING || rtype == COMMONS_MEDIA then
      var s :- TextPayload(dv);
      Ok(Some(PlainLiteral(s)))
    else if rtype == URL then
      var s :- TextPayload(dv);
      Ok(Some(IRI(s)))
    else if rtype == TIME then
      var s :- StringField(dv, "time");
      Ok(Some(Lit(s, None, Some(XSD_DATE_TIME))))
    else
      Ok(None)
  }

  /** The value type a snak declares, read as snak['datavalue']['type']. */
  function SnakType(snak: Snak): Result<string, Fault> {
    if snak.datavalue.None? || snak.datavalue.value.valueType.None? then Fail(MissingKey)
    else Ok(snak.datavalue.value.valueType.value)
  }

  function SnakProperty(snak: Snak): Result<string, Fault> {
    if snak.property.None? then Fail(MissingKey) else Ok(snak.property.value)
  }

  /** The triple a reference snak contributes to reference node `node`: url values become IRIs,
      string values plain literals, time values untyped literals of the time string; a snak of
      any other value type contributes nothing. */
  function ReferenceTriple(base: string, node: Term, snak: Snak): (r: Result<Option<Triple>, Fault>)
    ensures r.Ok? ==> SnakType(snak).Ok?
    ensures SnakType(snak).Ok? && SnakType(snak).value !in REFERENCE_TYPES ==> r == Ok(None)
    ensures r.Ok? && SnakType(snak).value in REFERENCE_TYPES ==>
      r.value.Some? && SnakProperty(snak).Ok? &&
      r.value.value.subj == node &&
      r.value.value.pred == IRI(Mint(base, PropReference, SnakProperty(snak).value))
    ensures SnakType(snak).Ok? && (SnakType(snak).value == URL || SnakType(snak).value == STRING) ==>
      (r.Ok? <==> SnakProperty(snak).Ok? && TextPayload(snak.datavalue.value).Ok?)
    ensures SnakType(snak).Ok? && SnakType(snak).value == TIME ==>
      (r.Ok? <==> SnakProperty(snak).Ok? && StringField(snak.datavalue.value, "time").Ok?)
    ensures r.Ok? && SnakType(snak).value == URL ==>
      TextPayload(snak.datavalue.value).Ok? && r.value.value.obj == IRI(TextPayload(snak.datavalue.value).value)
    ensures r.Ok? && SnakType(snak).value == STRING ==>
      TextPayload(snak.datavalue.value).Ok? &&
      r.value.value.obj == PlainLiteral(TextPayload(snak.datavalue.value).value)
    ensures r.Ok? && SnakType(snak).value == TIME ==>
      StringField(snak.datavalue.value, "time").Ok? &&
      r.value.value.obj == PlainLiteral(StringField(snak.datavalue.value, "time").value)
  {
    var tag :- SnakType(snak);
    var dv := snak.datavalue.value;
    if tag == URL then
      var p :- SnakProperty(snak);
      var s :- TextPayload(dv);
      Ok(Some(Triple(node, IRI(Mint(base, PropReference, p)), IRI(s))))
    else if tag == STRING then
      var p :- SnakProperty(snak);
      var s :- TextPayload(dv);
      Ok(Some(Triple(node, IRI(Mint(base, PropReference, p)), PlainLiteral(s))))
    else if tag == TIME then
      var p :- SnakProperty(snak);
      var s :- StringField(dv, "time");
      Ok(Some(Triple(node, IRI(Mint(base, PropReference, p)), PlainLiteral(s))))
    else
      Ok(None)
  }

  /** The triple a qualifier snak contributes to statement node `node`: only quantity values
      contribute, as a plain literal of the amount; every other value type contributes nothing. */
  function QualifierTriple(base: string, node: Term, snak: Snak): (r: Result<Option<Triple>, Fault>)
    ensures r.Ok? ==> SnakType(snak).Ok?
    ensures SnakType(snak).Ok? && SnakType(snak).value != QUANTITY ==> r == Ok(None)
    ensures SnakType(snak).Ok? && SnakType(snak).value == QUANTITY ==>
      (r.Ok? <==> SnakProperty(snak).Ok? && StringField(snak.datavalue.value, "amount").Ok?)
    ensures r.Ok? && SnakType(snak).value == QUANTITY ==>
      SnakProperty(snak).Ok? && StringField(snak.datavalue.value, "amount").Ok? &&
      r.value == Some(Triple(node, IRI(Mint(base, PropQualifier, SnakProperty(snak).value)),
                             PlainLiteral(StringField(snak.datavalue.value, "amount").value)))
  {
    var tag :- SnakType(snak);
    if tag == QUANTITY then
      var p :- SnakProperty(snak);
      var amount :- StringField(snak.datavalue.value, "amount");
      Ok(Some(Triple(node, IRI(Mint(base, PropQualifier, p)), PlainLiteral(amount))))
    else
      Ok(None)
  }

  /** The keys the reference dispatch reads are there, in the shape it reads them: the value
      type, and for a url, string or time value the snak's property and its payload. */
  predicate ReferenceSnakReadable(snak: Snak) {
    SnakType(snak).Ok? &&
    (SnakType(snak).value == URL || SnakType(snak).value == STRING ==>
       SnakProperty(snak).Ok? && TextPayload(snak.datavalue.value).Ok?) &&
    (SnakType(snak).value == TIME ==>
       SnakProperty(snak).Ok? && StringField(snak.datavalue.value, "time").Ok?)
  }

  /** The keys the qualifier dispatch reads are there: the value type, and for a quantity the
      snak's property and its amount. */
  predicate QualifierSnakReadable(snak: Snak) {
    SnakType(snak).Ok? &&
    (SnakType(snak).value == QUANTITY ==>
       SnakProperty(snak).Ok? && StringField(snak.datavalue.value, "amount").Ok?)
  }

  /** Distinct numeric ids give distinct item IRIs. */
  lemma {:induction false} ItemIriInjective(base: string, i: int, j: int)
    ensures ItemIri(base, IntScalar(i)) == ItemIri(base, IntScalar(j)) <==> i == j
  {
    var a, b := "Q" + IntToString(i), "Q" + IntToString(j);
    if ItemIri(base, IntScalar(i)) == ItemIri(base, IntScalar(j)) {
      assert SlashFree(a) && SlashFree(b) by {
        IntToStringSlashFree(i);
        IntToStringSlashFree(j);
      }
      MintInjective(base, EntityNs, a, EntityNs, b);
      assert a[1..] == IntToString(i) && b[1..] == IntToString(j);
      IntToStringInjective(i, j);
    }
  }

  lemma IntToStringSlashFree(i: int)
    ensures SlashFree("Q" + IntToString(i))
  {
    var s := IntToString(i);
    if i >= 0 {
      assert IsDigitString(s);
    } else {
      assert s[1..] == NatToString(-i);
      assert IsDigitString(s[1..]);
    }
  }
}
