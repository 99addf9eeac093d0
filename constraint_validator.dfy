/**
 * The constraint evaluator: runs an ordered list of rules over one field and
 * returns the first failing rule's result, or success when every rule passes.
 */
module ConstraintValidation {
  import opened Wrappers
  import opened Models
  import opened ValidationRules

  /** The configuration's default rule list is empty. */
  const DefaultRules: seq<Rule> := []

  /** First-failure search over `rules`, in list order. */
  function Evaluate(rules: seq<Rule>, fieldName: string, fieldValue: Option<string>, schemaField: SchemaField): (r: ValidationResult)
    ensures r.field == fieldName && r.WellFormed()
    ensures r.isValid ==> r == Success(fieldName)
  {
    if rules == [] then
      Success(fieldName)
    else
      var head := Apply(rules[0], fieldName, fieldValue, schemaField);
      if !head.isValid then head else Evaluate(rules[1..], fieldName, fieldValue, schemaField)
  }

  /** The result is valid exactly when every rule, applied to the same input, passes. */
  lemma {:induction false} EvaluateValidIffAllPass(rules: seq<Rule>, fieldName: string, fieldValue: Option<string>, schemaField: SchemaField)
    ensures Evaluate(rules, fieldName, fieldValue, schemaField).isValid
        <==> forall i | 0 <= i < |rules| :: Apply(rules[i], fieldName, fieldValue, schemaField).isValid
  {
    if rules != [] {
      EvaluateValidIffAllPass(rules[1..], fieldName, fieldValue, schemaField);
      assert forall i | 1 <= i < |rules| :: rules[i] == rules[1..][i - 1];
    }
  }

  /**
   * A failing result is the result of the first failing rule, returned
   * unchanged: every rule before it passes.
   */
  lemma {:induction false} EvaluateReturnsFirstFailure(rules: seq<Rule>, fieldName: string, fieldValue: Option<string>, schemaField: SchemaField)
    requires !Evaluate(rules, fieldName, fieldValue, schemaField).isValid
    ensures exists i | 0 <= i < |rules| ::
      && Evaluate(rules, fieldName, fieldValue, schemaField) == Apply(rules[i], fieldName, fieldValue, schemaField)
      && forall j | 0 <= j < i :: Apply(rules[j], fieldName, fieldValue, schemaField).isValid
  {
    if Apply(rules[0], fieldName, fieldValue, schemaField).isValid {
      EvaluateReturnsFirstFailure(rules[1..], fieldName, fieldValue, schemaField);
      var i :| 0 <= i < |rules[1..]|
        && Evaluate(rules[1..], fieldName, fieldValue, schemaField) == Apply(rules[1..][i], fieldName, fieldValue, schemaField)
        && forall j | 0 <= j < i :: Apply(rules[1..][j], fieldName, fieldValue, schemaField).isValid;
      assert forall j | 1 <= j < i + 1 :: rules[j] == rules[1..][j - 1];
      assert rules[i + 1] == rules[1..][i];
    } else {
      assert Evaluate(rules, fieldName, fieldValue, schemaField) == Apply(rules[0], fieldName, fieldValue, schemaField);
    }
  }

  /**
   * Rules after the first failing one are never consulted: appending any
   * rules behind a list that already fails does not change the result.
   */
  lemma {:induction false} EvaluateIgnoresLaterRules(rules: seq<Rule>, later: seq<Rule>, fieldName: string, fieldValue: Option<string>, schemaField: SchemaField)
    requires !Evaluate(rules, fieldName, fieldValue, schemaField).isValid
    ensures Evaluate(rules + later, fieldName, fieldValue, schemaField) == Evaluate(rules, fieldName, fieldValue, schemaField)
  {
    assert rules != [];
    assert (rules + later)[0] == rules[0];
    if Apply(rules[0], fieldName, fieldValue, schemaField).isValid {
      assert (rules + later)[1..] == rules[1..] + later;
      EvaluateIgnoresLaterRules(rules[1..], later, fieldName, fieldValue, schemaField);
    }
  }

  /** With the default, empty, rule list every field is valid. */
  lemma DefaultRulesAcceptEverything(fieldName: string, fieldValue: Option<string>, schemaField: SchemaField)
    ensures Evaluate(DefaultRules, fieldName, fieldValue, schemaField) == Success(fieldName)
  {
  }

  /**
   * Registration order decides the message: a mandatory, white-space-only
   * value longer than its maximum fails both rules, and each order reports
   * a different one.
   */
  lemma RuleOrderDecidesMessage()
    ensures Evaluate([Length, Mandatory], "code", Some("    "), DefaultSchemaField(2, true))
         == Failure("code", "Field exceeds maximum length of 2.")
    ensures Evaluate([Mandatory, Length], "code", Some("    "), DefaultSchemaField(2, true))
         == Failure("code", "Field is mandatory but missing or empty.")
  {
    Text.Utf16LengthOfBmp("    ");
    assert Text.IntToDecimal(2) == "2";
    assert LengthDefaultMessage(2) == "Field exceeds maximum length of 2.";
  }

  /** The constraint validator service: the rule list is captured once, at construction. */
  class ConstraintValidator {
    const rules: seq<Rule>

    /** `rules.ToList()`: a snapshot of the configured rules. */
    constructor (configured: array<Rule>)
      ensures rules == configured[..]
    {
      rules := configured[..];
    }

    /** Runs the rules in order and returns the first failure, or success. */
    method Validate(fieldName: string, fieldValue: Option<string>, schemaField: SchemaField) returns (result: ValidationResult)
      ensures result == Evaluate(rules, fieldName, fieldValue, schemaField)
    {
      var i := 0;
      while i < |rules|
        invariant 0 <= i <= |rules|
        invariant Evaluate(rules[i..], fieldName, fieldValue, schemaField) == Evaluate(rules, fieldName, fieldValue, schemaField)
      {
        var r := Apply(rules[i], fieldName, fieldValue, schemaField);
        if !r.isValid {
          return r;
        }
        assert rules[i..][1..] == rules[i + 1..];
        i := i + 1;
      }
      return Success(fieldName);
    }
  }

  /**
   * The snapshot is independent of the configured array: overwriting an
   * entry after construction leaves the validator's rules as they were.
   */
  method ConfigureThenOverwrite(configured: array<Rule>, index: nat, replacement: Rule) returns (validator: ConstraintValidator)
    requires index < configured.Length
    modifies configured
    ensures validator.rules == old(configured[..])
    ensures configured[index] == replacement
  {
    validator := new ConstraintValidator(configured);
    configured[index] := replacement;
  }
}
