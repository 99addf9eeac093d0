/**
 * The chunk validator: every (record, schema entry) pair of a chunk goes
 * through the constraint evaluator, and the results are collected into a
 * bag. The service validates records in parallel into a concurrent bag;
 * here the records are visited in order and the bag is a multiset, which is
 * the same collection whatever order the workers finish in.
 */
module ChunkValidation {
  import opened Wrappers
  import opened Models
  import opened ValidationRules
  import opened ConstraintValidation

  /** What the chunk validator computes for one (record, schema entry) pair. */
  type PairEvaluator = (Record, SchemaEntry) -> ValidationResult

  /** The results for one record, one per schema entry, in schema order. */
  function RecordResults(eval: PairEvaluator, record: Record, schema: Schema): (rs: seq<ValidationResult>)
    ensures |rs| == |schema|
    ensures forall j | 0 <= j < |schema| :: rs[j] == eval(record, schema[j])
  {
    if schema == [] then []
    else RecordResults(eval, record, schema[..|schema| - 1]) + [eval(record, schema[|schema| - 1])]
  }

  /** The results of the sequential loop: records in chunk order, each over the schema in order. */
  function PairResults(eval: PairEvaluator, chunk: seq<Record>, schema: Schema): (rs: seq<ValidationResult>)
    ensures chunk == [] ==> rs == []
  {
    if chunk == [] then []
    else PairResults(eval, chunk[..|chunk| - 1], schema) + RecordResults(eval, chunk[|chunk| - 1], schema)
  }

  /** One more schema entry adds its result at the end. */
  lemma RecordResultsStep(eval: PairEvaluator, record: Record, schema: Schema, j: nat)
    requires j < |schema|
    ensures RecordResults(eval, record, schema[..j + 1]) == RecordResults(eval, record, schema[..j]) + [eval(record, schema[j])]
  {
    assert schema[..j + 1][..j] == schema[..j];
  }

  /** One more record adds its results at the end. */
  lemma PairResultsStep(eval: PairEvaluator, chunk: seq<Record>, schema: Schema, i: nat)
    requires i < |chunk|
    ensures PairResults(eval, chunk[..i + 1], schema) == PairResults(eval, chunk[..i], schema) + RecordResults(eval, chunk[i], schema)
  {
    assert chunk[..i + 1][..i] == chunk[..i];
  }

  /** Exactly one result per (record, schema entry) pair. */
  lemma {:induction false} ResultCount(eval: PairEvaluator, chunk: seq<Record>, schema: Schema)
    ensures |PairResults(eval, chunk, schema)| == |chunk| * |schema|
  {
    if chunk != [] {
      ResultCount(eval, chunk[..|chunk| - 1], schema);
      assert (|chunk| - 1) * |schema| + |schema| == |chunk| * |schema|;
    }
  }

  /** Record i's results follow those of the records before it, in schema order. */
  lemma {:induction false} ResultAtOffset(eval: PairEvaluator, chunk: seq<Record>, schema: Schema, i: nat, j: nat)
    requires i < |chunk| && j < |schema|
    ensures |PairResults(eval, chunk[..i], schema)| + j < |PairResults(eval, chunk, schema)|
    ensures PairResults(eval, chunk, schema)[|PairResults(eval, chunk[..i], schema)| + j] == eval(chunk[i], schema[j])
  {
    var last := |chunk| - 1;
    var init := chunk[..last];
    var front := PairResults(eval, init, schema);
    var back := RecordResults(eval, chunk[last], schema);
    assert PairResults(eval, chunk, schema) == front + back;
    if i < last {
      ResultAtOffset(eval, init, schema, i, j);
      assert init[..i] == chunk[..i];
      assert init[i] == chunk[i];
    } else {
      assert chunk[..i] == init;
    }
  }

  /** Position i * |schema| + j of the sequential results holds the result of record i against entry j. */
  lemma ResultAt(eval: PairEvaluator, chunk: seq<Record>, schema: Schema, i: nat, j: nat)
    requires i < |chunk| && j < |schema|
    ensures i * |schema| + j < |PairResults(eval, chunk, schema)|
    ensures PairResults(eval, chunk, schema)[i * |schema| + j] == eval(chunk[i], schema[j])
  {
    var prefix := chunk[..i];
    ResultAtOffset(eval, chunk, schema, i, j);
    ResultCount(eval, prefix, schema);
    ResultCount(eval, chunk, schema);
    assert |prefix| == i;
    var offset := |PairResults(eval, prefix, schema)|;
    assert offset == i * |schema|;
  }

  /** Each position of the sequential results holds the result of some pair. */
  lemma {:induction false} ResultOrigin(eval: PairEvaluator, chunk: seq<Record>, schema: Schema, k: nat)
    requires k < |PairResults(eval, chunk, schema)|
    ensures exists i, j | 0 <= i < |chunk| && 0 <= j < |schema| :: PairResults(eval, chunk, schema)[k] == eval(chunk[i], schema[j])
  {
    var last := |chunk| - 1;
    var init := chunk[..last];
    var front := PairResults(eval, init, schema);
    var back := RecordResults(eval, chunk[last], schema);
    assert PairResults(eval, chunk, schema) == front + back;
    if k < |front| {
      ResultOrigin(eval, init, schema, k);
      var i, j :| 0 <= i < |init| && 0 <= j < |schema| && front[k] == eval(init[i], schema[j]);
      assert init[i] == chunk[i];
    } else {
      assert back[k - |front|] == eval(chunk[last], schema[k - |front|]);
    }
  }

  /** Every result in the bag comes from some pair, and every pair contributes its result. */
  lemma ResultsAreExactlyThePairs(eval: PairEvaluator, chunk: seq<Record>, schema: Schema, r: ValidationResult)
    ensures r in PairResults(eval, chunk, schema) <==>
      exists i, j | 0 <= i < |chunk| && 0 <= j < |schema| :: r == eval(chunk[i], schema[j])
  {
    var rs := PairResults(eval, chunk, schema);
    if r in rs {
      var k :| 0 <= k < |rs| && rs[k] == r;
      ResultOrigin(eval, chunk, schema, k);
    }
    if exists i, j | 0 <= i < |chunk| && 0 <= j < |schema| :: r == eval(chunk[i], schema[j]) {
      var i, j :| 0 <= i < |chunk| && 0 <= j < |schema| && r == eval(chunk[i], schema[j]);
      ResultAtOffset(eval, chunk, schema, i, j);
    }
  }

  /** The result for one schema entry of one record; a missing key is validated as null. */
  function EntryResult(rules: seq<Rule>, record: Record, entry: SchemaEntry): (r: ValidationResult)
    ensures r.field == entry.name && r.WellFormed()
    ensures entry.name !in record ==> r == Evaluate(rules, entry.name, None, entry.field)
  {
    Evaluate(rules, entry.name, Lookup(record, entry.name), entry.field)
  }

  /** The pair evaluation of a chunk validator whose constraint validator holds `rules`. */
  function Evaluator(rules: seq<Rule>): PairEvaluator
  {
    (record: Record, entry: SchemaEntry) => EntryResult(rules, record, entry)
  }

  /**
   * Result fields come from the schema, so record keys that are not in the
   * schema produce no result; every result is well formed.
   */
  lemma ResultFieldsComeFromSchema(rules: seq<Rule>, chunk: seq<Record>, schema: Schema, r: ValidationResult)
    requires r in PairResults(Evaluator(rules), chunk, schema)
    ensures exists j | 0 <= j < |schema| :: r.field == schema[j].name
    ensures r.WellFormed()
  {
    ResultsAreExactlyThePairs(Evaluator(rules), chunk, schema, r);
  }

  /** The test cases: "John Doe" fits {10, mandatory}, "3000" exceeds {3, mandatory}, an empty chunk yields nothing. */
  lemma ValidateChunkExamples(rules: seq<Rule>)
    requires rules == [Mandatory, Length] || rules == [Length, Mandatory]
    ensures PairResults(Evaluator(rules), [map["name" := Some("John Doe")]],
                        [SchemaEntry("name", DefaultSchemaField(10, true))])
         == [Success("name")]
    ensures var rs := PairResults(Evaluator(rules), [map["age" := Some("3000")]],
                                  [SchemaEntry("age", DefaultSchemaField(3, true))]);
      |rs| == 1 && !rs[0].isValid
    ensures PairResults(Evaluator(rules), [], [SchemaEntry("name", DefaultSchemaField(10, true))]) == []
  {
    Text.Utf16LengthOfBmp("John Doe");
    Text.Utf16LengthOfBmp("3000");
    var john: Record := map["name" := Some("John Doe")];
    var nameEntry := SchemaEntry("name", DefaultSchemaField(10, true));
    assert Lookup(john, "name") == Some("John Doe");
    assert !Text.IsNullOrWhiteSpace(Some("John Doe")) by {
      assert !Text.IsWhiteSpace("John Doe"[0]);
    }
    assert MandatoryRule("name", Some("John Doe"), nameEntry.field).isValid;
    assert LengthRule("name", Some("John Doe"), nameEntry.field).isValid;
    EvaluateValidIffAllPass(rules, "name", Some("John Doe"), nameEntry.field);
    assert EntryResult(rules, john, nameEntry) == Success("name");
    var age: Record := map["age" := Some("3000")];
    var ageEntry := SchemaEntry("age", DefaultSchemaField(3, true));
    assert Lookup(age, "age") == Some("3000");
    assert !Text.IsNullOrWhiteSpace(Some("3000")) by {
      assert !Text.IsWhiteSpace("3000"[0]);
    }
    assert !LengthRule("age", Some("3000"), ageEntry.field).isValid;
    EvaluateValidIffAllPass(rules, "age", Some("3000"), ageEntry.field);
    assert !EntryResult(rules, age, ageEntry).isValid;
  }

  /** The chunk validator service. */
  class ChunkValidator {
    const constraints: ConstraintValidator

    constructor (constraints: ConstraintValidator)
      ensures this.constraints == constraints
    {
      this.constraints := constraints;
    }

    /** Validates one record against every schema entry, in schema order. */
    method ValidateRecord(record: Record, schema: Schema) returns (results: multiset<ValidationResult>)
      ensures results == multiset(RecordResults(Evaluator(constraints.rules), record, schema))
    {
      var eval := Evaluator(constraints.rules);
      results := multiset{};
      var j := 0;
      while j < |schema|
        invariant 0 <= j <= |schema|
        invariant results == multiset(RecordResults(eval, record, schema[..j]))
      {
        var entry := schema[j];
        var value := Lookup(record, entry.name);
        var result := constraints.Validate(entry.name, value, entry.field);
        assert result == eval(record, entry);
        RecordResultsStep(eval, record, schema, j);
        results := results + multiset{result};
        j := j + 1;
      }
      assert schema[..j] == schema;
    }

    /**
     * Validates every record of `chunk` against every entry of `schema`:
     * exactly |chunk| * |schema| results, one per pair. Neither argument is
     * changed (both are values).
     */
    method ValidateChunk(chunk: seq<Record>, schema: Schema) returns (results: multiset<ValidationResult>)
      ensures results == multiset(PairResults(Evaluator(constraints.rules), chunk, schema))
      ensures |results| == |chunk| * |schema|
    {
      var eval := Evaluator(constraints.rules);
      results := multiset{};
      var i := 0;
      while i < |chunk|
        invariant 0 <= i <= |chunk|
        invariant results == multiset(PairResults(eval, chunk[..i], schema))
      {
        var recordResults := ValidateRecord(chunk[i], schema);
        PairResultsStep(eval, chunk, schema, i);
        results := results + recordResults;
        i := i + 1;
      }
      assert chunk[..i] == chunk;
      ResultCount(eval, chunk, schema);
    }
  }
}
