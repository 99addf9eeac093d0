# JsonSchemaValidation core, in Dafny

This project models the validation pipeline of JsonSchemaValidation, a C#
service that validates large JSON inputs against a field schema:

- **InputProcessor** (`input_processor.dfy`, module `InputProcessing`) reads
  a JSON stream. The stream is either one top-level array of objects or one
  single object. The processor yields the decoded records in chunks of the
  configured size.
- **ChunkValidator** (`chunk_validator.dfy`, module `ChunkValidation`)
  validates every record of a chunk against every schema entry. It collects
  the results in an unordered bag.
- **ConstraintValidator** (`constraint_validator.dfy`, module
  `ConstraintValidation`) runs the configured rules in order and returns the
  first failure, or success.
- **LengthValidationRule** and **MandatoryValidationRule**
  (`validation_rules.dfy`, module `ValidationRules`) are the two rules.
- **SchemaField** and **ValidationResult** (`models.dfy`, module `Models`)
  are the records these exchange.

Supporting modules:

- `Wrappers` is an `Option` type.
- `Text` holds the .NET string behaviour the rules rely on: `string.Length`
  counted in UTF-16 code units, `char.IsWhiteSpace`,
  `string.IsNullOrEmpty`/`IsNullOrWhiteSpace`, and the decimal rendering of
  an `int` in an interpolated string, together with a parser that inverts it.
- `Chunking` holds the pure sequence splitting that the processor's loop
  performs.

## How the model is built

**Specification functions and methods.** Each source method that works step
by step is a `method` with a loop. Each is proved equal to a specification
function:

- `InputProcessor.ChunkInput` and `ReadArray` are proved equal to
  `ChunkInputOutcome`.
- `ConstraintValidator.Validate` is proved equal to `Evaluate`.
- `ChunkValidator.ValidateChunk` is proved equal to the bag of `PairResults`.

The properties are proved as lemmas about those functions.

**The JSON reader.** The reader is abstracted as the sequence of tokens it
produces:

- `StartArray` and `EndArray`.
- `Object(decoded)`, where `decoded` is what deserializing that object into a
  string dictionary gives: a dictionary, a JSON exception, or null.
- `Other` for any other token.

A null stream is `None`.

**Cancellation.** Cancellation is a moment `cancelAt`. The processor's checks
are numbered in the order they happen:

- check 0 on entry;
- check `i + 1` at the top of the `i`-th loop iteration;
- check 1 before a lone object is decoded.

A request is seen by every check numbered `cancelAt` or later. A cancelled
run ends in `Cancelled(emitted)`, holding the chunks yielded before the
exception.

**Outcomes.** The yielded chunks and the log events (malformed record
skipped, input empty, neither array nor object) are returned together as a
`ChunkOutcome`. The two exceptions are separate outcomes:

- the null-argument exception is `NullStream`;
- the null dereference of a lone object that deserializes to null is
  `NullRecord`.

**Records and schemas.**

- A record is a `map<string, Option<string>>`, because a JSON `null` value
  deserializes to a null string.
- The schema dictionary is a sequence of entries, in its enumeration order.
- Rules form the closed datatype `Rule = Mandatory | Length`.

**Where the model follows the code rather than its documentation:**

- `ChunkInputAsync` takes no chunk-size argument. It reads the configured
  `ChunkSize` (`JsonSchemaValidation/Services/InputProcessor.cs:71`), although
  its doc comment describes a `chunkSize` parameter. The model therefore keeps
  the chunk size as a field of `InputProcessor` set at construction.
- The chunk size is not checked to be positive. With a chunk size of 0 or
  less, the emission test passes after every object. Every object then yields
  a chunk of its own, which is empty for a malformed or null object. The model
  covers this case rather than excluding it (`NonPositiveChunkSize`,
  `ZeroChunkSizeEmitsEmptyChunk`).
- An empty array yields no chunks and logs nothing. Only a lone object that
  is empty or malformed logs "Input JSON is empty."
- `SchemaField.Length` has no lower bound. A negative maximum rejects every
  non-empty value (`NegativeLengthRejectsNonEmpty`).

## Model

| member | source | states |
|---|---|---|
| InputProcessing.InputProcessor.ChunkInput | JsonSchemaValidation/Services/InputProcessor.cs:38-117 | the outcome of a run (the chunks yielded and the log, or which exception ends it) is `ChunkInputOutcome` of the stream, the configured chunk size and the cancellation time |
| InputProcessing.InputProcessor.ReadArray | JsonSchemaValidation/Services/InputProcessor.cs:50-87 | the array loop: invariants give the chunks emitted so far, the pending chunk and the log as functions of the tokens read; the outcome is `ArrayOutcome` |
| InputProcessing.InputProcessor.constructor | JsonSchemaValidation/Services/InputProcessor.cs:18-22 | the processor keeps the configured chunk size |
| InputProcessing.ChunkInputOutcome | JsonSchemaValidation/Services/InputProcessor.cs:41-116 | a null stream, and only a null stream, throws the null-argument exception; a request seen on entry cancels before anything is yielded; only a cancellation request ends a run cancelled; the null-record failure happens exactly for a lone object that deserializes to null |
| InputProcessing.ArrayOutcome | JsonSchemaValidation/Services/InputProcessor.cs:52-86 | reading an array either completes or is cancelled, and it is cancelled exactly when some loop check sees the request |
| InputProcessing.SingleObjectOutcome | JsonSchemaValidation/Services/InputProcessor.cs:88-112 | a lone object yields at most one chunk |
| InputProcessing.EndIndex | JsonSchemaValidation/Services/InputProcessor.cs:77-80 | the loop stops at the first end-of-array token: no token before it is one, and the token at it is one |
| InputProcessing.Iterations | JsonSchemaValidation/Services/InputProcessor.cs:52-54 | the loop runs once per token up to and including the first end of array, or once per token when there is none |
| InputProcessing.ObjectStep | JsonSchemaValidation/Services/InputProcessor.cs:56-75 | an object token adds its record (if it decoded) to the pending chunk; the chunk is emitted as a snapshot and cleared once it holds at least `ChunkSize` records; a malformed object adds one warning |
| InputProcessing.OtherStep | JsonSchemaValidation/Services/InputProcessor.cs:52-81 | a token that is not an object changes neither the emitted chunks, nor the pending chunk, nor the log |
| InputProcessing.ReadTokens | JsonSchemaValidation/Services/InputProcessor.cs:52-80 | the tokens the loop reads are a prefix of the array body and contain no end of array |
| InputProcessing.RecordsAreTheDecodedObjects | JsonSchemaValidation/Services/InputProcessor.cs:56-64 | a record is collected exactly when some object token decodes to it; malformed and null objects contribute nothing |
| InputProcessing.RecordsOfPrefix | JsonSchemaValidation/Services/InputProcessor.cs:63 | the records of a prefix of the tokens are a prefix of the records, so decode order is kept |
| InputProcessing.CompletedArrayChunks | JsonSchemaValidation/Services/InputProcessor.cs:71-86 | for a chunk size k of at least 1, a completed array run yields the records read, in order; with n records it yields ceil(n/k) chunks, each of 1 to k records, all but the last exactly k; the log holds one warning per malformed object |
| InputProcessing.ArrayCompletes | JsonSchemaValidation/Services/InputProcessor.cs:50-86 | without cancellation a top-level array always completes |
| InputProcessing.InLoopChunksOfPrefix | JsonSchemaValidation/Services/InputProcessor.cs:71-75 | the chunks emitted after reading a prefix are a prefix of the chunks emitted after reading more |
| InputProcessing.CancellationYieldsPrefix | JsonSchemaValidation/Services/InputProcessor.cs:52-75 | a run cancelled part-way has yielded a prefix of the uncancelled run's chunks; for a chunk size of at least 1, every chunk it yielded is full |
| InputProcessing.SingleObjectYieldsOneChunk | JsonSchemaValidation/Services/InputProcessor.cs:88-111 | a lone object yields the one chunk `[record]` exactly when it decodes to a non-empty dictionary; for an empty or malformed object nothing is yielded and "input empty" is logged, after the warning when it was malformed |
| InputProcessing.NeitherArrayNorObjectYieldsNothing | JsonSchemaValidation/Services/InputProcessor.cs:113-116 | an empty stream, or one starting with any other token, yields nothing and logs the shape error |
| InputProcessing.IgnoredTokenDropped | JsonSchemaValidation/Services/InputProcessor.cs:56-76 | deleting a token that is not an object changes neither the records, nor the warnings, nor the per-object emissions |
| InputProcessing.SameReadSameOutcome | JsonSchemaValidation/Services/InputProcessor.cs:50-86 | without cancellation, two arrays whose read tokens give the same records, emissions and warnings have the same outcome |
| InputProcessing.EndArrayStopsReading | JsonSchemaValidation/Services/InputProcessor.cs:77-80 | nothing after the first end of array affects the outcome |
| InputProcessing.OtherTokensIgnored | JsonSchemaValidation/Services/InputProcessor.cs:52-81 | inside the array, a nested array start or any other non-object token is skipped without effect |
| InputProcessing.ObjectTokens | JsonSchemaValidation/Services/InputProcessor.cs:56-64 | the token stream of a sequence of well-formed objects has one object token per record, in order |
| InputProcessing.RecordsOfObjectTokens | JsonSchemaValidation/Services/InputProcessor.cs:56-69 | well-formed objects are read back as their records, and no warning is logged |
| InputProcessing.ArrayOfRecords | JsonSchemaValidation/Services/InputProcessor.cs:50-86 | for a chunk size of at least 1, an array of well-formed objects completes with exactly `Chunks(records, k)` and an empty log |
| InputProcessing.ThreeRecordsAtSizeTwo | JsonSchemaValidation.Test/InputProcessorTest.cs:41-58 | three records at chunk size 2 yield a chunk of 2 and then a chunk of 1 |
| InputProcessing.EmptyArrayYieldsNothing | JsonSchemaValidation.Test/InputProcessorTest.cs:77-88 | `[]` yields no chunks and logs nothing, at any chunk size |
| InputProcessing.LargeArrayExample | JsonSchemaValidation.Test/InputProcessorTest.cs:145-163 | 10000 records at the default chunk size of 100 yield 100 chunks of 100 records each |
| InputProcessing.MalformedObjectSkipped | JsonSchemaValidation.Test/InputProcessorTest.cs:91-110 | an array whose only object is malformed yields nothing and logs one warning |
| InputProcessing.NonPositiveChunkSize | JsonSchemaValidation/Services/InputProcessor.cs:71-75 | at a chunk size of 0 or less, the chunks emitted in the loop hold at most one record each, and together they are the records in order |
| InputProcessing.ZeroChunkSizeEmitsEmptyChunk | JsonSchemaValidation/Services/InputProcessor.cs:71-75 | at chunk size 0, a malformed object still causes an emission, of an empty chunk |
| InputProcessing.Added | JsonSchemaValidation/Services/InputProcessor.cs:61-64 | a token adds a record exactly when it is an object that decoded to a dictionary, and at most one |
| InputProcessing.Skipped | JsonSchemaValidation/Services/InputProcessor.cs:66-69 | a token logs a warning exactly when it is a malformed object |
| InputProcessing.Snapshot | JsonSchemaValidation/Services/InputProcessor.cs:71-75 | at a chunk size below 1, a token causes an emission exactly when it is an object |
| Chunking.SplitIsExact | JsonSchemaValidation/Services/InputProcessor.cs:63-75 | the full chunks followed by the pending remainder are exactly the records |
| Chunking.SplitCount | JsonSchemaValidation/Services/InputProcessor.cs:71-75 | k records per full chunk plus the remainder account for every record |
| Chunking.ChunksFlatten | JsonSchemaValidation/Services/InputProcessor.cs:71-86 | concatenating all chunks, the trailing one included, gives back the records in order |
| Chunking.FullChunkSizes | JsonSchemaValidation/Services/InputProcessor.cs:71-75 | every chunk emitted inside the loop holds exactly k records |
| Chunking.ChunkSizes | JsonSchemaValidation/Services/InputProcessor.cs:71-86 | every chunk holds 1 to k records, and all but the last hold exactly k |
| Chunking.ChunkCount | JsonSchemaValidation/Services/InputProcessor.cs:71-86 | n records give n / k full chunks, a remainder of n mod k, and ceil(n/k) chunks in all |
| Chunking.AppendOne | JsonSchemaValidation/Services/InputProcessor.cs:63-75 | one more record either completes the pending chunk, which is emitted and cleared, or extends it |
| Chunking.FullChunksOfPrefix | JsonSchemaValidation/Services/InputProcessor.cs:71-75 | the full chunks of a prefix of the records are a prefix of the full chunks |
| Chunking.FlattenAppend | JsonSchemaValidation/Services/InputProcessor.cs:73-85 | the concatenation of two runs of chunks is the concatenation of their records |
| Chunking.Remainder | JsonSchemaValidation/Services/InputProcessor.cs:71-75 | the pending chunk never reaches k records while the loop runs |
| Chunking.Trailing | JsonSchemaValidation/Services/InputProcessor.cs:83-86 | a trailing chunk is yielded exactly when records are pending, and it holds them |
| ChunkValidation.ChunkValidator.ValidateChunk | JsonSchemaValidation/Services/ChunkValidator.cs:29-51 | the bag of results is exactly one result per (record, schema entry) pair, `|chunk| * |schema|` in all |
| ChunkValidation.ChunkValidator.ValidateRecord | JsonSchemaValidation/Services/ChunkValidator.cs:35-48 | one record gives the bag of its results for the schema entries, in schema order |
| ChunkValidation.ChunkValidator.constructor | JsonSchemaValidation/Services/ChunkValidator.cs:17-21 | the chunk validator keeps the constraint validator it is given |
| ChunkValidation.RecordResults | JsonSchemaValidation/Services/ChunkValidator.cs:35-48 | one result per schema entry, the j-th for the j-th entry |
| ChunkValidation.PairResults | JsonSchemaValidation/Services/ChunkValidator.cs:33-49 | an empty chunk gives no results |
| ChunkValidation.ResultCount | JsonSchemaValidation/Services/ChunkValidator.cs:33-48 | a chunk gives `|chunk| * |schema|` results |
| ChunkValidation.ResultAtOffset | JsonSchemaValidation/Services/ChunkValidator.cs:33-47 | the result for record i and entry j sits right after the results of the records before i |
| ChunkValidation.ResultAt | JsonSchemaValidation/Services/ChunkValidator.cs:33-47 | the result at position `i * |schema| + j` is the one for record i and schema entry j |
| ChunkValidation.ResultOrigin | JsonSchemaValidation/Services/ChunkValidator.cs:33-47 | every result is the evaluation of some (record, schema entry) pair |
| ChunkValidation.ResultsAreExactlyThePairs | JsonSchemaValidation/Services/ChunkValidator.cs:31-51 | a result is among those returned exactly when some (record, schema entry) pair evaluates to it |
| ChunkValidation.EntryResult | JsonSchemaValidation/Services/ChunkValidator.cs:37-40 | the result names the schema field; a key missing from the record is validated as a null value |
| ChunkValidation.ResultFieldsComeFromSchema | JsonSchemaValidation/Services/ChunkValidator.cs:35-40 | every result names a schema field, so record keys outside the schema produce no result, and every result is well formed |
| ChunkValidation.ValidateChunkExamples | JsonSchemaValidation.Test/ChunkValidatorTest.cs:47-94 | with the two rules in either order, "John Doe" against {10, mandatory} is valid, "3000" against {3, mandatory} is invalid, and an empty chunk gives no results |
| ConstraintValidation.Evaluate | JsonSchemaValidation/Services/ConstraintValidator.cs:24-36 | the result names the field and is well formed; a valid result is exactly `Success(fieldName)` |
| ConstraintValidation.ConstraintValidator.Validate | JsonSchemaValidation/Services/ConstraintValidator.cs:24-36 | the loop returns the first-failure result `Evaluate(rules, …)` |
| ConstraintValidation.ConstraintValidator.constructor | JsonSchemaValidation/Services/ConstraintValidator.cs:12-15 | the validator holds the configured rules, in order |
| ConstraintValidation.ConfigureThenOverwrite | JsonSchemaValidation/Services/ConstraintValidator.cs:14 | the rule list is a snapshot: changing the configured collection after construction does not change the validator's rules |
| ConstraintValidation.EvaluateValidIffAllPass | JsonSchemaValidation/Services/ConstraintValidator.cs:26-35 | the result is valid exactly when every rule passes on the same input |
| ConstraintValidation.EvaluateReturnsFirstFailure | JsonSchemaValidation/Services/ConstraintValidator.cs:26-33 | a failing result is the result of some rule i, and every rule before i passes |
| ConstraintValidation.EvaluateIgnoresLaterRules | JsonSchemaValidation/Services/ConstraintValidator.cs:29-32 | once a rule fails, rules appended after the list are never consulted |
| ConstraintValidation.DefaultRulesAcceptEverything | JsonSchemaValidation/ValidationConfiguration.cs:17 | with the default, empty, rule list every field is valid |
| ConstraintValidation.RuleOrderDecidesMessage | JsonSchemaValidation/Services/ConstraintValidator.cs:26-33 | when both rules fail, the rule listed first decides the message |
| ValidationRules.MandatoryRule | JsonSchemaValidation/ValidationRules/MandatoryValidationRule.cs:11-20 | the result names the field and is well formed |
| ValidationRules.MandatoryRuleVerdict | JsonSchemaValidation/ValidationRules/MandatoryValidationRule.cs:11-20 | the rule fails exactly on a mandatory field whose value is null, empty or white space only, with the custom message or the default one |
| ValidationRules.NonMandatoryNeverFails | JsonSchemaValidation/ValidationRules/MandatoryValidationRule.cs:13 | a field that is not mandatory always passes |
| ValidationRules.MandatoryBlankValuesAlike | JsonSchemaValidation/ValidationRules/MandatoryValidationRule.cs:13 | a missing value, an empty one and a white-space-only one get the same result |
| ValidationRules.MandatoryIgnoresLength | JsonSchemaValidation/ValidationRules/MandatoryValidationRule.cs:13-16 | the maximum length and its message do not affect the mandatory rule |
| ValidationRules.LengthRule | JsonSchemaValidation/ValidationRules/LengthValidationRule.cs:11-20 | the result names the field and is well formed |
| ValidationRules.LengthRuleVerdict | JsonSchemaValidation/ValidationRules/LengthValidationRule.cs:11-20 | the rule fails exactly on a non-empty value with more UTF-16 code units than the maximum, with the custom message or the default one |
| ValidationRules.LengthMessageNamesMaximum | JsonSchemaValidation/ValidationRules/LengthValidationRule.cs:15-16 | the default message is the fixed prefix, the maximum in decimal, and a full stop; the maximum parses back from it |
| ValidationRules.LengthBoundary | JsonSchemaValidation/ValidationRules/LengthValidationRule.cs:13 | the comparison is strict: exactly the maximum passes, one code unit more fails |
| ValidationRules.LengthAcceptsNullAndEmpty | JsonSchemaValidation/ValidationRules/LengthValidationRule.cs:13 | null and empty values always pass |
| ValidationRules.NegativeLengthRejectsNonEmpty | JsonSchemaValidation/ValidationRules/LengthValidationRule.cs:13 | a negative maximum rejects every non-empty value |
| ValidationRules.LengthIgnoresMandatory | JsonSchemaValidation/ValidationRules/LengthValidationRule.cs:13-16 | the mandatory flag and its message do not affect the length rule |
| ValidationRules.Apply | JsonSchemaValidation/ValidationRules/IValidationRule.cs:17 | any rule's result names the field it validated and is well formed |
| ValidationRules.RuleExamples | JsonSchemaValidation.Test/ValidationRulesTest.cs:25-62 | "20" fits a maximum of 3; "3000" fails it with "Field exceeds maximum length of 3."; "" fails a mandatory field with the default message and passes an optional one |
| Models.Success | JsonSchemaValidation/Models/ValidationResult.cs:13 | a success is valid, names its field and has no message |
| Models.Failure | JsonSchemaValidation/Models/ValidationResult.cs:21 | a failure is invalid, names its field and carries the message |
| Models.FactoriesAreDistinct | JsonSchemaValidation/Models/ValidationResult.cs:6-21 | a success never equals a failure, and each factory is injective |
| Models.DefaultSchemaField | JsonSchemaValidation/Models/SchemaField.cs:6-10 | the optional messages default to null |
| Models.Lookup | JsonSchemaValidation/Services/ChunkValidator.cs:38 | an absent key reads as null; a present key reads as its value |
| Text.Utf16Length | JsonSchemaValidation/ValidationRules/LengthValidationRule.cs:13 | a string's length lies between its character count and twice that, and is 0 only for the empty string |
| Text.Utf16LengthOfBmp | JsonSchemaValidation/ValidationRules/LengthValidationRule.cs:13 | a string of Basic Multilingual Plane characters has one code unit per character |
| Text.NullOrEmptyIsBlank | JsonSchemaValidation/ValidationRules/MandatoryValidationRule.cs:13 | a null or empty value is also null-or-white-space |
| Text.NatToDecimal | JsonSchemaValidation/ValidationRules/LengthValidationRule.cs:16 | the rendering is a run of decimal digits with no leading zero, and its value is the number |
| Text.IntToDecimal | JsonSchemaValidation/ValidationRules/LengthValidationRule.cs:16 | the rendering is non-empty and starts with '-' exactly for a negative number |
| Text.IntToDecimalRoundTrip | JsonSchemaValidation/ValidationRules/LengthValidationRule.cs:16 | parsing the rendering of an int gives the int back |

## Left out

- JSON parsing itself, at the character level, is not modelled. The reader is its token sequence, and each object is already decoded. An exception from the reader outside deserialization (malformed JSON between objects) is not modelled either; in the source it propagates out of the loop.
- How far the serializer advances the reader inside a malformed object is not derived. Whatever tokens the reader produces after it are simply the next tokens of the stream.
- Lazy, asynchronous yielding is not modelled. The chunks yielded are returned together. Under cancellation, the ones yielded before the exception are returned as `Cancelled(emitted)`.
- The cancellation check inside the reader's asynchronous read is not modelled. Only the processor's own checks are numbered.
- The text of log messages and the serialized record in the chunk validator's log lines are not modelled. The processor's log is kept as the events it records. The chunk validator's per-result logging is left out.
- ChunkValidator.ValidateChunk: the parallel loop and the concurrent bag are modelled as a sequential loop into a multiset. The interleaving of workers is not modelled. The bag states no order, which matches the source's unordered result.
- ChunkValidator.ValidateChunk: a null chunk, a null schema or a null schema entry is not modelled; in the source each throws (for a null schema, only once a record is visited), and both rules dereference the schema entry.
- Rules are the closed set of the two rule classes. Rules supplied from outside, such as the mocks in the unit tests, are not modelled. `ChunkValidation.ValidateChunkExamples` therefore states the chunk validator tests with the real rules.
- Text.IsWhiteSpace: `char.IsWhiteSpace` is a fixed table of the Unicode space separators and the control characters it accepts, not the full Unicode database.
- Text.IntToDecimal: the culture-specific formatting of an `int` is not modelled. The invariant-culture digits are used.
- `ResultWriter`, `SchemaReader`, `PostgreSQLDataProvider`, `JsonValidator`, the dependency-injection extensions and the sample program are not part of this model. `ValidationConfiguration` appears only through its defaults: `DefaultChunkSize` and `DefaultRules`.
