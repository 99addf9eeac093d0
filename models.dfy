/**
 * The value types shared by the validator: a schema field descriptor, a
 * validation result, a decoded record and a schema.
 */
module Models {
  import opened Wrappers
  import opened Text

  /**
   * Validation descriptor of one field. `length` is a plain C# `int` with no
   * lower bound; an absent custom message means "use the rule's default text".
   */
  datatype SchemaField = SchemaField(
    length: Int32,
    mandatory: bool,
    lengthErrorMessage: Option<string>,
    mandatoryErrorMessage: Option<string>)

  /** `new SchemaField(length, mandatory)`: both custom messages take their default, null. */
  function DefaultSchemaField(length: Int32, mandatory: bool): (f: SchemaField)
    ensures f.length == length && f.mandatory == mandatory
    ensures f.lengthErrorMessage.None? && f.mandatoryErrorMessage.None?
  {
    SchemaField(length, mandatory, None, None)
  }

  /** Outcome of validating one field: its name, the verdict and, on failure, the message. */
  datatype ValidationResult = ValidationResult(field: string, isValid: bool, errorMessage: Option<string>) {

    /** A valid result carries no message; an invalid one always carries one. */
    predicate WellFormed()
    {
      isValid <==> errorMessage.None?
    }
  }

  /** `ValidationResult.Success(field)`. */
  function Success(field: string): (r: ValidationResult)
    ensures r.field == field && r.isValid && r.WellFormed()
  {
    ValidationResult(field, true, None)
  }

  /** `ValidationResult.Failure(field, message)`. */
  function Failure(field: string, message: string): (r: ValidationResult)
    ensures r.field == field && !r.isValid && r.WellFormed()
    ensures r.errorMessage == Some(message)
  {
    ValidationResult(field, false, Some(message))
  }

  /** The two factories never produce the same result, and each keeps what it was given. */
  lemma FactoriesAreDistinct(f: string, g: string, m: string, m': string)
    ensures Success(f) != Failure(g, m)
    ensures Success(f) == Success(g) <==> f == g
    ensures Failure(f, m) == Failure(g, m') <==> f == g && m == m'
  {
  }

  /**
   * One decoded JSON object: field name to value. A JSON `null` value
   * decodes to `None`, like a C# null string.
   */
  type Record = map<string, Option<string>>

  /** `record.TryGetValue(name, out value)`: the value, or null when the key is absent. */
  function Lookup(record: Record, name: string): (v: Option<string>)
    ensures name !in record ==> v.None?
    ensures name in record ==> v == record[name]
  {
    if name in record then record[name] else None
  }

  /** One entry of the schema dictionary. */
  datatype SchemaEntry = SchemaEntry(name: string, field: SchemaField)

  /** The schema dictionary, as the sequence its enumeration visits. */
  type Schema = seq<SchemaEntry>
}
