/** Decoded Wikibase entity records, the property-info rows, and the ways a run can abort.
    A field the translator reads with a key lookup is an Option: None is a missing key. */
module Records {
  import opened Wrappers

  /** A scalar inside a value object: `numeric-id` is a JSON number, `time` and `amount` strings. */
  datatype Scalar = IntScalar(i: int) | StrScalar(s: string)

  /** A datavalue's `value`: a bare string (string, url, commonsMedia) or an object. */
  datatype Value = StringValue(s: string) | ObjectValue(fields: map<string, Scalar>)

  /** A snak's `datavalue`: its `type` tag and its `value`. */
  datatype DataValue = DataValue(valueType: Option<string>, value: Option<Value>)

  datatype Snak = Snak(property: Option<string>, datavalue: Option<DataValue>)

  /** One entry of a snak dictionary: a property id and the snaks listed under it. */
  datatype SnakGroup = SnakGroup(property: string, snaks: seq<Snak>)

  datatype Reference = Reference(snaks: Option<seq<SnakGroup>>)

  datatype Statement = Statement(
    id: Option<string>,
    mainsnak: Option<Snak>,
    references: Option<seq<Reference>>,
    qualifiers: Option<seq<SnakGroup>>)

  /** One entry of an entity's `claims` dictionary. */
  datatype Claim = Claim(property: string, statements: seq<Statement>)

  /** A decoded item (Q<n>) or property (P<n>) record; labels and descriptions map a language
      code to the text. */
  datatype Entity = Entity(
    id: string,
    labels: map<string, string>,
    descriptions: map<string, string>,
    claims: seq<Claim>)

  /** A row of the property-info table: the property id and, when present, its datatype. */
  datatype PropertyRow = PropertyRow(id: string, typeTag: Option<string>)

  /** Why a lookup inside a statement failed: a missing key (KeyError) or a payload of the
      wrong JSON shape for the access made on it. */
  datatype Fault = MissingKey | WrongShape

  /** Every way the run can stop without writing any output. */
  datatype Error =
    | MalformedRegistryEntry(property: string)
    | EmptyEntityId
    | NoEnglishLabel(entity: string)
    | UnknownProperty(entity: string, property: string)
    | MissingStatementId(entity: string, property: string)
    | StatementFault(entity: string, property: string, fault: Fault)
}
