/**
 * The built-in validation rules. Each is a pure predicate over a field's
 * name, its raw value (None for a null or missing value) and its schema
 * descriptor, returning a ValidationResult.
 */
module ValidationRules {
  import opened Wrappers
  import opened Text
  import opened Models

  /** The rule implementations that can be registered, in the order they are applied. */
  datatype Rule = Mandatory | Length

  const MandatoryDefaultMessage: string := "Field is mandatory but missing or empty."
  const LengthMessagePrefix: string := "Field exceeds maximum length of "

  /** The text of the default length message for a given maximum. */
  function LengthDefaultMessage(length: Int32): string
  {
    LengthMessagePrefix + IntToDecimal(length) + "."
  }

  /** Fails when the field is mandatory and its value is null, empty or white space only. */
  function MandatoryRule(fieldName: string, fieldValue: Option<string>, schemaField: SchemaField): (r: ValidationResult)
    ensures r.field == fieldName && r.WellFormed()
  {
    if schemaField.mandatory && IsNullOrWhiteSpace(fieldValue) then
      Failure(fieldName, schemaField.mandatoryErrorMessage.GetOr(MandatoryDefaultMessage))
    else
      Success(fieldName)
  }

  /** Fails when the value is non-empty and has more UTF-16 code units than `length`. */
  function LengthRule(fieldName: string, fieldValue: Option<string>, schemaField: SchemaField): (r: ValidationResult)
    ensures r.field == fieldName && r.WellFormed()
  {
    if !IsNullOrEmpty(fieldValue) && Utf16Length(fieldValue.value) > schemaField.length then
      Failure(fieldName, schemaField.lengthErrorMessage.GetOr(LengthDefaultMessage(schemaField.length)))
    else
      Success(fieldName)
  }

  /** `rule.Validate(fieldName, fieldValue, schemaField)`. */
  function Apply(rule: Rule, fieldName: string, fieldValue: Option<string>, schemaField: SchemaField): (r: ValidationResult)
    ensures r.field == fieldName && r.WellFormed()
  {
    match rule
    case Mandatory => MandatoryRule(fieldName, fieldValue, schemaField)
    case Length => LengthRule(fieldName, fieldValue, schemaField)
  }

  // ---------------------------------------------------------------- Mandatory

  /** The mandatory rule fails exactly on a mandatory field with a blank value, with the custom or default message. */
  lemma MandatoryRuleVerdict(fieldName: string, fieldValue: Option<string>, schemaField: SchemaField)
    ensures var r := MandatoryRule(fieldName, fieldValue, schemaField);
      && (!r.isValid <==> schemaField.mandatory && (fieldValue.None? || forall i | 0 <= i < |fieldValue.value| :: IsWhiteSpace(fieldValue.value[i])))
      && (!r.isValid && schemaField.mandatoryErrorMessage.Some? ==> r.errorMessage == schemaField.mandatoryErrorMessage)
      && (!r.isValid && schemaField.mandatoryErrorMessage.None? ==> r.errorMessage == Some(MandatoryDefaultMessage))
      && (r.isValid ==> r == Success(fieldName))
  {
  }

  /** A field that is not mandatory never fails the mandatory rule, whatever its value. */
  lemma NonMandatoryNeverFails(fieldName: string, fieldValue: Option<string>, schemaField: SchemaField)
    requires !schemaField.mandatory
    ensures MandatoryRule(fieldName, fieldValue, schemaField) == Success(fieldName)
  {
  }

  /** A missing key, an empty string and a white-space-only string are treated alike. */
  lemma MandatoryBlankValuesAlike(fieldName: string, blank: string, schemaField: SchemaField)
    requires forall i | 0 <= i < |blank| :: IsWhiteSpace(blank[i])
    ensures MandatoryRule(fieldName, None, schemaField) == MandatoryRule(fieldName, Some(""), schemaField)
    ensures MandatoryRule(fieldName, None, schemaField) == MandatoryRule(fieldName, Some(blank), schemaField)
  {
  }

  /** The maximum length and its message have no influence on the mandatory rule. */
  lemma MandatoryIgnoresLength(fieldName: string, fieldValue: Option<string>, schemaField: SchemaField, length: Int32, message: Option<string>)
    ensures MandatoryRule(fieldName, fieldValue, schemaField)
         == MandatoryRule(fieldName, fieldValue, schemaField.(length := length, lengthErrorMessage := message))
  {
  }

  // ------------------------------------------------------------------- Length

  /** The length rule fails exactly on a non-empty value longer than `length`, with the custom or default message. */
  lemma LengthRuleVerdict(fieldName: string, fieldValue: Option<string>, schemaField: SchemaField)
    ensures var r := LengthRule(fieldName, fieldValue, schemaField);
      && (!r.isValid <==> fieldValue.Some? && fieldValue.value != [] && Utf16Length(fieldValue.value) > schemaField.length)
      && (!r.isValid && schemaField.lengthErrorMessage.Some? ==> r.errorMessage == schemaField.lengthErrorMessage)
      && (!r.isValid && schemaField.lengthErrorMessage.None? ==>
            r.errorMessage == Some(LengthMessagePrefix + IntToDecimal(schemaField.length) + "."))
      && (r.isValid ==> r == Success(fieldName))
  {
  }

  /** The default length message names the configured maximum, recoverably. */
  lemma LengthMessageNamesMaximum(fieldName: string, value: string, schemaField: SchemaField)
    requires schemaField.lengthErrorMessage.None?
    requires value != [] && Utf16Length(value) > schemaField.length
    ensures var r := LengthRule(fieldName, Some(value), schemaField);
      && !r.isValid
      && var m := r.errorMessage.value;
      && |m| > |LengthMessagePrefix| + 1
      && m[..|LengthMessagePrefix|] == LengthMessagePrefix
      && m[|m| - 1] == '.'
      && ParseInt(m[|LengthMessagePrefix|..|m| - 1]) == schemaField.length
  {
    var m := LengthRule(fieldName, Some(value), schemaField).errorMessage.value;
    var digits := IntToDecimal(schemaField.length);
    assert m == LengthMessagePrefix + digits + ".";
    assert m[|LengthMessagePrefix|..|m| - 1] == digits;
    IntToDecimalRoundTrip(schemaField.length);
  }

  /** The comparison is strict: a value exactly `length` long passes, one code unit more fails. */
  lemma LengthBoundary(fieldName: string, value: string, schemaField: SchemaField)
    requires value != []
    ensures Utf16Length(value) == schemaField.length ==> LengthRule(fieldName, Some(value), schemaField).isValid
    ensures Utf16Length(value) == schemaField.length + 1 ==> !LengthRule(fieldName, Some(value), schemaField).isValid
  {
  }

  /** Null and empty values always pass the length rule, whatever the maximum. */
  lemma LengthAcceptsNullAndEmpty(fieldName: string, schemaField: SchemaField)
    ensures LengthRule(fieldName, None, schemaField) == Success(fieldName)
    ensures LengthRule(fieldName, Some(""), schemaField) == Success(fieldName)
  {
  }

  /** A negative maximum rejects every non-empty value. */
  lemma NegativeLengthRejectsNonEmpty(fieldName: string, value: string, schemaField: SchemaField)
    requires schemaField.length < 0 && value != []
    ensures !LengthRule(fieldName, Some(value), schemaField).isValid
  {
  }

  /** The mandatory flag and its message have no influence on the length rule. */
  lemma LengthIgnoresMandatory(fieldName: string, fieldValue: Option<string>, schemaField: SchemaField, mandatory: bool, message: Option<string>)
    ensures LengthRule(fieldName, fieldValue, schemaField)
         == LengthRule(fieldName, fieldValue, schemaField.(mandatory := mandatory, mandatoryErrorMessage := message))
  {
  }

  /** The rule unit tests: "20" fits 3, "3000" does not (default message), "" fails a mandatory field only. */
  lemma RuleExamples()
    ensures LengthRule("age", Some("20"), DefaultSchemaField(3, false)).isValid
    ensures LengthRule("age", Some("3000"), DefaultSchemaField(3, false))
         == Failure("age", "Field exceeds maximum length of 3.")
    ensures MandatoryRule("name", Some(""), DefaultSchemaField(0, true))
         == Failure("name", "Field is mandatory but missing or empty.")
    ensures MandatoryRule("name", Some(""), DefaultSchemaField(0, false)).isValid
  {
    Utf16LengthOfBmp("20");
    Utf16LengthOfBmp("3000");
    assert IntToDecimal(3) == "3";
    assert LengthDefaultMessage(3) == "Field exceeds maximum length of 3.";
  }
}
