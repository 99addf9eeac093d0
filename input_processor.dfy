/**
 * The input processor: reads a JSON token stream that is either one
 * top-level array of objects or a single object, and yields the decoded
 * records in chunks.
 *
 * The JSON reader is abstracted as the sequence of tokens it produces; an
 * object is one token carrying what deserializing it into a flat
 * string-to-string dictionary gives. Cancellation is a point in time: the
 * checks the processor makes are numbered 0, 1, 2, ... in the order they
 * happen, and a request made at time `c` is seen by every check numbered
 * `c` or later.
 */
module InputProcessing {
  import opened Wrappers
  import opened Text
  import opened Models
  import opened Chunking

  /** The chunk size the configuration starts with. */
  const DefaultChunkSize: Int32 := 100

  /** What deserializing one JSON object gives. */
  datatype Decoded =
    | Ok(record: Record)   // a dictionary
    | Malformed            // the serializer threw a JSON exception
    | Null                 // the serializer returned null

  /** The reader's tokens, as far as the processor distinguishes them. */
  datatype Token =
    | StartArray
    | EndArray
    | Object(decoded: Decoded)
    | Other                // any other token: a scalar, a property name, ...

  /** What the processor logs. */
  datatype LogEvent =
    | MalformedRecordSkipped   // warning: "Malformed record skipped: ..."
    | InputEmpty               // error: "Input JSON is empty."
    | NeitherArrayNorObject    // error: "Input JSON is neither an array nor a valid object."

  /** How a run of the processor ends. */
  datatype ChunkOutcome =
    | Completed(chunks: seq<seq<Record>>, log: seq<LogEvent>)
    | Cancelled(emitted: seq<seq<Record>>)   // the chunks yielded before the cancellation exception
    | NullStream                             // argument-null exception, nothing read
    | NullRecord                             // the lone object deserialized to null: a null dereference

  /** Whether the cancellation check numbered `check` sees a request. */
  predicate Observed(cancelAt: Option<nat>, check: nat)
  {
    cancelAt.Some? && cancelAt.value <= check
  }

  /** The concatenation of what `f` gives for each token, in token order. */
  function Collect<T>(ts: seq<Token>, f: Token -> seq<T>): (r: seq<T>)
    ensures ts == [] ==> r == []
  {
    if ts == [] then [] else Collect(ts[..|ts| - 1], f) + f(ts[|ts| - 1])
  }

  /** Collecting over two stretches of tokens collects over each in turn. */
  lemma {:induction false} CollectAppend<T>(a: seq<Token>, b: seq<Token>, f: Token -> seq<T>)
    ensures Collect(a + b, f) == Collect(a, f) + Collect(b, f)
  {
    if b == [] {
      assert a + b == a;
    } else {
      var last := |b| - 1;
      assert (a + b)[..|a + b| - 1] == a + b[..last];
      CollectAppend(a, b[..last], f);
    }
  }

  /** Reading one more token adds what `f` gives for it. */
  lemma CollectStep<T>(ts: seq<Token>, i: nat, f: Token -> seq<T>)
    requires i < |ts|
    ensures Collect(ts[..i + 1], f) == Collect(ts[..i], f) + f(ts[i])
  {
    assert ts[..i + 1][..i] == ts[..i];
  }

  /** The record an object token adds to the pending chunk: none unless it decoded to a dictionary. */
  function Added(t: Token): (r: seq<Record>)
    ensures |r| <= 1
    ensures r != [] <==> t.Object? && t.decoded.Ok?
  {
    if t.Object? && t.decoded.Ok? then [t.decoded.record] else []
  }

  /** The warning a token causes. */
  function Skipped(t: Token): (r: seq<LogEvent>)
    ensures r != [] <==> t == Object(Malformed)
  {
    if t == Object(Malformed) then [MalformedRecordSkipped] else []
  }

  /** With a chunk size below 1 every object token is followed by an emission of what it added. */
  function Snapshot(t: Token): (r: seq<seq<Record>>)
    ensures r != [] <==> t.Object?
  {
    if t.Object? then [Added(t)] else []
  }

  /** The records decoded from `ts`, in order, malformed and null objects dropped. */
  function Records(ts: seq<Token>): seq<Record>
  {
    Collect(ts, Added)
  }

  /** The warnings logged while reading `ts`. */
  function SkipLog(ts: seq<Token>): seq<LogEvent>
  {
    Collect(ts, Skipped)
  }

  /** The chunks emitted while reading `ts` when the chunk size is below 1. */
  function ObjectSnapshots(ts: seq<Token>): seq<seq<Record>>
  {
    Collect(ts, Snapshot)
  }

  /** The position of the first end-of-array token, or `|ts|` when there is none. */
  function EndIndex(ts: seq<Token>): (e: nat)
    ensures e <= |ts|
    ensures forall i | 0 <= i < e :: ts[i] != EndArray
    ensures e < |ts| ==> ts[e] == EndArray
  {
    if ts == [] || ts[0] == EndArray then 0 else 1 + EndIndex(ts[1..])
  }

  /** How many times the array loop runs: once per token up to and including the first end of array. */
  function Iterations(ts: seq<Token>): (n: nat)
    ensures n <= |ts|
    ensures EndIndex(ts) <= n
    ensures EndIndex(ts) < |ts| ==> n == EndIndex(ts) + 1
    ensures EndIndex(ts) == |ts| ==> n == |ts|
  {
    if EndIndex(ts) < |ts| then EndIndex(ts) + 1 else |ts|
  }

  /** The chunks emitted inside the loop after reading `ts`. */
  function InLoopChunks(ts: seq<Token>, chunkSize: Int32): seq<seq<Record>>
  {
    if chunkSize >= 1 then FullChunks(Records(ts), chunkSize) else ObjectSnapshots(ts)
  }

  /** The records accumulated but not yet emitted after reading `ts`. */
  function Pending(ts: seq<Token>, chunkSize: Int32): seq<Record>
  {
    if chunkSize >= 1 then Remainder(Records(ts), chunkSize) else []
  }

  /** The outcome for a stream whose first token is an object. */
  function SingleObjectOutcome(decoded: Decoded): (r: ChunkOutcome)
    ensures r.Completed? ==> |r.chunks| <= 1
  {
    match decoded
    case Ok(record) => if |record| > 0 then Completed([[record]], []) else Completed([], [InputEmpty])
    case Malformed => Completed([], [MalformedRecordSkipped, InputEmpty])
    case Null => NullRecord
  }

  /**
   * What reading a top-level array yields, `body` being the tokens after
   * its start, when the entry check saw no cancellation. Loop iteration `i`
   * makes check number `i + 1` before looking at `body[i]`.
   */
  function ArrayOutcome(body: seq<Token>, chunkSize: Int32, cancelAt: Option<nat>): (r: ChunkOutcome)
    requires !Observed(cancelAt, 0)
    ensures r.Completed? || r.Cancelled?
    ensures r.Cancelled? <==> Observed(cancelAt, Iterations(body))
  {
    if Observed(cancelAt, Iterations(body)) then
      Cancelled(InLoopChunks(body[..cancelAt.value - 1], chunkSize))
    else
      var read := body[..EndIndex(body)];
      Completed(InLoopChunks(read, chunkSize) + Trailing(Pending(read, chunkSize)), SkipLog(read))
  }

  /**
   * What a run of the processor yields on `stream` (None for a null
   * stream) with the configured `chunkSize`, when cancellation is
   * requested at time `cancelAt` (None: never).
   */
  function ChunkInputOutcome(stream: Option<seq<Token>>, chunkSize: Int32, cancelAt: Option<nat>): (r: ChunkOutcome)
    ensures r == NullStream <==> stream == None
    ensures stream.Some? && Observed(cancelAt, 0) ==> r == Cancelled([])
    ensures r.Cancelled? ==> cancelAt.Some?
    ensures r == NullRecord <==>
      stream.Some? && !Observed(cancelAt, 1) && |stream.value| > 0 && stream.value[0] == Object(Null)
  {
    if stream.None? then NullStream
    else if Observed(cancelAt, 0) then Cancelled([])
    else
      var tokens := stream.value;
      if |tokens| > 0 && tokens[0] == StartArray then
        ArrayOutcome(tokens[1..], chunkSize, cancelAt)
      else if |tokens| > 0 && tokens[0].Object? then
        if Observed(cancelAt, 1) then Cancelled([]) else SingleObjectOutcome(tokens[0].decoded)
      else
        Completed([], [NeitherArrayNorObject])
  }

  /**
   * The loop's step on an object token: its record (if any) joins the
   * pending chunk, which is emitted and cleared once it holds at least
   * `chunkSize` records.
   */
  lemma ObjectStep(ts: seq<Token>, i: nat, chunkSize: Int32)
    requires i < |ts| && ts[i].Object?
    ensures var grown := Pending(ts[..i], chunkSize) + Added(ts[i]);
      if |grown| >= chunkSize then
        InLoopChunks(ts[..i + 1], chunkSize) == InLoopChunks(ts[..i], chunkSize) + [grown] &&
        Pending(ts[..i + 1], chunkSize) == []
      else
        InLoopChunks(ts[..i + 1], chunkSize) == InLoopChunks(ts[..i], chunkSize) &&
        Pending(ts[..i + 1], chunkSize) == grown
    ensures SkipLog(ts[..i + 1]) == SkipLog(ts[..i]) + Skipped(ts[i])
  {
    CollectStep(ts, i, Added);
    CollectStep(ts, i, Skipped);
    var rs := Records(ts[..i]);
    if chunkSize >= 1 {
      if Added(ts[i]) != [] {
        AppendOne(rs, ts[i].decoded.record, chunkSize);
      } else {
        assert Records(ts[..i + 1]) == rs + [] == rs;
      }
    } else {
      CollectStep(ts, i, Snapshot);
      assert Pending(ts[..i], chunkSize) + Added(ts[i]) == Added(ts[i]);
      assert Snapshot(ts[i]) == [Added(ts[i])];
    }
  }

  /** Tokens other than objects change nothing. */
  lemma OtherStep(ts: seq<Token>, i: nat, chunkSize: Int32)
    requires i < |ts| && !ts[i].Object?
    ensures InLoopChunks(ts[..i + 1], chunkSize) == InLoopChunks(ts[..i], chunkSize)
    ensures Pending(ts[..i + 1], chunkSize) == Pending(ts[..i], chunkSize)
    ensures SkipLog(ts[..i + 1]) == SkipLog(ts[..i])
  {
    CollectStep(ts, i, Added);
    CollectStep(ts, i, Skipped);
    CollectStep(ts, i, Snapshot);
    assert Records(ts[..i + 1]) == Records(ts[..i]) + [] == Records(ts[..i]);
    assert ObjectSnapshots(ts[..i + 1]) == ObjectSnapshots(ts[..i]) + [] == ObjectSnapshots(ts[..i]);
  }

  /** The tokens the array loop reads before it stops. */
  function ReadTokens(body: seq<Token>): (r: seq<Token>)
    ensures r <= body
    ensures forall i | 0 <= i < |r| :: r[i] != EndArray
  {
    body[..EndIndex(body)]
  }

  /** The object tokens of `records`, in order. */
  function ObjectTokens(records: seq<Record>): (ts: seq<Token>)
    ensures |ts| == |records|
    ensures forall i | 0 <= i < |ts| :: ts[i] == Object(Ok(records[i]))
  {
    if records == [] then [] else ObjectTokens(records[..|records| - 1]) + [Object(Ok(records[|records| - 1]))]
  }

  /** A record is read exactly when some token is an object that decodes to it. */
  lemma {:induction false} RecordsAreTheDecodedObjects(ts: seq<Token>, r: Record)
    ensures r in Records(ts) <==> exists i | 0 <= i < |ts| :: ts[i] == Object(Ok(r))
  {
    if ts != [] {
      var last := |ts| - 1;
      RecordsAreTheDecodedObjects(ts[..last], r);
      assert Records(ts) == Records(ts[..last]) + Added(ts[last]);
      if exists i | 0 <= i < |ts| :: ts[i] == Object(Ok(r)) {
        var i :| 0 <= i < |ts| && ts[i] == Object(Ok(r));
        if i < last {
          assert ts[..last][i] == ts[i];
        }
      }
      if r in Records(ts[..last]) {
        var i :| 0 <= i < last && ts[..last][i] == Object(Ok(r));
        assert ts[i] == Object(Ok(r));
      }
    }
  }

  /** The records of a prefix of the tokens are a prefix of the records: order is kept. */
  lemma RecordsOfPrefix(ts: seq<Token>, n: nat)
    requires n <= |ts|
    ensures Records(ts[..n]) <= Records(ts)
  {
    CollectAppend(ts[..n], ts[n..], Added);
    assert ts[..n] + ts[n..] == ts;
  }

  /** Objects that decode to dictionaries, with nothing else between the brackets, come back as their records. */
  lemma {:induction false} RecordsOfObjectTokens(records: seq<Record>)
    ensures Records(ObjectTokens(records)) == records
    ensures SkipLog(ObjectTokens(records)) == []
  {
    if records != [] {
      var init := records[..|records| - 1];
      RecordsOfObjectTokens(init);
      var ts := ObjectTokens(records);
      assert ts[..|ts| - 1] == ObjectTokens(init);
    }
  }

  /** No end of array in `a`: the first one in `a + b` is the first one in `b`, shifted. */
  lemma {:induction false} EndIndexAppend(a: seq<Token>, b: seq<Token>)
    requires forall i | 0 <= i < |a| :: a[i] != EndArray
    ensures EndIndex(a + b) == |a| + EndIndex(b)
  {
    if a != [] {
      assert (a + b)[0] == a[0];
      assert (a + b)[1..] == a[1..] + b;
      EndIndexAppend(a[1..], b);
    } else {
      assert a + b == b;
    }
  }

  lemma PrefixOfAppend<T>(x: seq<T>, y: seq<T>, n: nat)
    requires n <= |y|
    ensures (x + y)[..|x| + n] == x + y[..n]
  {
  }

  /** No end of array in `a`: the loop reads all of `a`, then what it would read of `b`. */
  lemma ReadTokensAppend(a: seq<Token>, b: seq<Token>)
    requires forall i | 0 <= i < |a| :: a[i] != EndArray
    ensures ReadTokens(a + b) == a + ReadTokens(b)
  {
    EndIndexAppend(a, b);
    PrefixOfAppend(a, b, EndIndex(b));
  }

  /** A token `f` ignores can be dropped from the collection. */
  lemma CollectIgnores<T>(a: seq<Token>, t: Token, b: seq<Token>, f: Token -> seq<T>)
    requires f(t) == []
    ensures Collect(a + [t] + b, f) == Collect(a + b, f)
  {
    CollectAppend(a + [t], b, f);
    CollectAppend(a, b, f);
    CollectAppend(a, [t], f);
    assert [t][..0] == [];
  }

  /**
   * A completed top-level array yields exactly the records decoded before
   * the first end of array, in order, in chunks of `chunkSize` records but
   * for a shorter last one: ceil(n / chunkSize) chunks for n records. The
   * log holds one warning per malformed object read.
   */
  lemma CompletedArrayChunks(tokens: seq<Token>, chunkSize: Int32, cancelAt: Option<nat>)
    requires |tokens| > 0 && tokens[0] == StartArray && chunkSize >= 1
    requires ChunkInputOutcome(Some(tokens), chunkSize, cancelAt).Completed?
    ensures var out := ChunkInputOutcome(Some(tokens), chunkSize, cancelAt);
      var rs := Records(ReadTokens(tokens[1..]));
      out.chunks == Chunks(rs, chunkSize) &&
      Flatten(out.chunks) == rs &&
      (forall i | 0 <= i < |out.chunks| :: 1 <= |out.chunks[i]| <= chunkSize) &&
      (forall i | 0 <= i < |out.chunks| - 1 :: |out.chunks[i]| == chunkSize) &&
      |out.chunks| == (|rs| + chunkSize - 1) / chunkSize &&
      out.log == SkipLog(ReadTokens(tokens[1..]))
  {
    var rs := Records(ReadTokens(tokens[1..]));
    ChunksFlatten(rs, chunkSize);
    ChunkSizes(rs, chunkSize);
    ChunkCount(rs, chunkSize);
  }

  /** With no cancellation, a top-level array always completes. */
  lemma ArrayCompletes(tokens: seq<Token>, chunkSize: Int32)
    requires |tokens| > 0 && tokens[0] == StartArray
    ensures ChunkInputOutcome(Some(tokens), chunkSize, None).Completed?
  {
  }

  /** The chunks emitted inside the loop after reading a prefix are a prefix of those emitted after reading more. */
  lemma InLoopChunksOfPrefix(ts: seq<Token>, n: nat, chunkSize: Int32)
    requires n <= |ts|
    ensures InLoopChunks(ts[..n], chunkSize) <= InLoopChunks(ts, chunkSize)
  {
    CollectAppend(ts[..n], ts[n..], Added);
    CollectAppend(ts[..n], ts[n..], Snapshot);
    assert ts[..n] + ts[n..] == ts;
    if chunkSize >= 1 {
      var rs := Records(ts);
      var m := |Records(ts[..n])|;
      assert Records(ts[..n]) == rs[..m];
      FullChunksOfPrefix(rs, m, chunkSize);
    }
  }

  /**
   * A run cancelled part-way has yielded a prefix of what the uncancelled
   * run yields; with a positive chunk size every chunk it yielded is full.
   */
  lemma CancellationYieldsPrefix(tokens: seq<Token>, chunkSize: Int32, cancelAt: nat)
    requires ChunkInputOutcome(Some(tokens), chunkSize, Some(cancelAt)).Cancelled?
    requires ChunkInputOutcome(Some(tokens), chunkSize, None).Completed?
    ensures var emitted := ChunkInputOutcome(Some(tokens), chunkSize, Some(cancelAt)).emitted;
      emitted <= ChunkInputOutcome(Some(tokens), chunkSize, None).chunks &&
      (chunkSize >= 1 ==> forall i | 0 <= i < |emitted| :: |emitted[i]| == chunkSize)
  {
    if cancelAt > 0 && |tokens| > 0 && tokens[0] == StartArray {
      var body := tokens[1..];
      var read := ReadTokens(body);
      var n := cancelAt - 1;
      assert n <= |read|;
      assert body[..n] == read[..n];
      InLoopChunksOfPrefix(read, n, chunkSize);
      if chunkSize >= 1 {
        FullChunkSizes(Records(body[..n]), chunkSize);
      }
    }
  }

  /**
   * A lone top-level object yields one chunk, holding just its record,
   * exactly when it decodes to a non-empty dictionary; otherwise nothing
   * is yielded and "Input JSON is empty." is logged (after the warning,
   * for a malformed object).
   */
  lemma SingleObjectYieldsOneChunk(tokens: seq<Token>, chunkSize: Int32, cancelAt: Option<nat>)
    requires |tokens| > 0 && tokens[0].Object? && !Observed(cancelAt, 1)
    ensures var out := ChunkInputOutcome(Some(tokens), chunkSize, cancelAt);
      var d := tokens[0].decoded;
      (out.Completed? && out.chunks != [] <==> d.Ok? && |d.record| > 0) &&
      (d.Ok? && |d.record| > 0 ==> out == Completed([[d.record]], [])) &&
      (d.Ok? && |d.record| == 0 ==> out == Completed([], [InputEmpty])) &&
      (d.Malformed? ==> out == Completed([], [MalformedRecordSkipped, InputEmpty]))
  {
  }

  /** Any other first token, or no token at all, yields nothing and logs the shape error. */
  lemma NeitherArrayNorObjectYieldsNothing(tokens: seq<Token>, chunkSize: Int32, cancelAt: Option<nat>)
    requires tokens == [] || tokens[0] == EndArray || tokens[0] == Other
    requires !Observed(cancelAt, 0)
    ensures ChunkInputOutcome(Some(tokens), chunkSize, cancelAt) == Completed([], [NeitherArrayNorObject])
  {
  }

  /** Dropping a token that is not an object changes none of what the loop collects. */
  lemma IgnoredTokenDropped(a: seq<Token>, t: Token, b: seq<Token>)
    requires !t.Object?
    ensures Records(a + [t] + b) == Records(a + b)
    ensures ObjectSnapshots(a + [t] + b) == ObjectSnapshots(a + b)
    ensures SkipLog(a + [t] + b) == SkipLog(a + b)
  {
    CollectIgnores(a, t, b, Added);
    CollectIgnores(a, t, b, Skipped);
    CollectIgnores(a, t, b, Snapshot);
  }

  /** Without cancellation, the outcome of reading an array depends only on what it collects from the tokens read. */
  lemma SameReadSameOutcome(body1: seq<Token>, body2: seq<Token>, chunkSize: Int32)
    requires Records(ReadTokens(body1)) == Records(ReadTokens(body2))
    requires ObjectSnapshots(ReadTokens(body1)) == ObjectSnapshots(ReadTokens(body2))
    requires SkipLog(ReadTokens(body1)) == SkipLog(ReadTokens(body2))
    ensures ChunkInputOutcome(Some([StartArray] + body1), chunkSize, None)
         == ChunkInputOutcome(Some([StartArray] + body2), chunkSize, None)
  {
    assert ([StartArray] + body1)[1..] == body1;
    assert ([StartArray] + body2)[1..] == body2;
  }

  /** Nothing after the first end of array is read. */
  lemma EndArrayStopsReading(a: seq<Token>, b: seq<Token>, chunkSize: Int32)
    requires forall i | 0 <= i < |a| :: a[i] != EndArray
    ensures ChunkInputOutcome(Some([StartArray] + (a + [EndArray] + b)), chunkSize, None)
         == ChunkInputOutcome(Some([StartArray] + (a + [EndArray])), chunkSize, None)
  {
    ReadTokensAppend(a, [EndArray] + b);
    ReadTokensAppend(a, [EndArray]);
    assert a + ([EndArray] + b) == a + [EndArray] + b;
    assert ReadTokens([EndArray] + b) == [] == ReadTokens([EndArray]);
    SameReadSameOutcome(a + [EndArray] + b, a + [EndArray], chunkSize);
  }

  /** Inside the array, tokens that are neither objects nor an end of array (a nested array's start, a scalar) change nothing. */
  lemma OtherTokensIgnored(a: seq<Token>, t: Token, b: seq<Token>, chunkSize: Int32)
    requires forall i | 0 <= i < |a| :: a[i] != EndArray
    requires t == StartArray || t == Other
    ensures ChunkInputOutcome(Some([StartArray] + (a + [t] + b)), chunkSize, None)
         == ChunkInputOutcome(Some([StartArray] + (a + b)), chunkSize, None)
  {
    assert forall i | 0 <= i < |a + [t]| :: (a + [t])[i] != EndArray;
    ReadTokensAppend(a + [t], b);
    ReadTokensAppend(a, b);
    IgnoredTokenDropped(a, t, ReadTokens(b));
    SameReadSameOutcome(a + [t] + b, a + b, chunkSize);
  }

  /** An array of objects that all decode yields the chunks of their records and logs nothing. */
  lemma ArrayOfRecords(records: seq<Record>, chunkSize: Int32)
    requires chunkSize >= 1
    ensures ChunkInputOutcome(Some([StartArray] + (ObjectTokens(records) + [EndArray])), chunkSize, None)
         == Completed(Chunks(records, chunkSize), [])
  {
    var tokens := ObjectTokens(records);
    var body := tokens + [EndArray];
    assert ([StartArray] + body)[1..] == body;
    EndIndexAppend(tokens, [EndArray]);
    assert body[..|tokens|] == tokens;
    RecordsOfObjectTokens(records);
    assert ArrayOutcome(body, chunkSize, None)
        == Completed(InLoopChunks(tokens, chunkSize) + Trailing(Pending(tokens, chunkSize)), SkipLog(tokens));
  }

  lemma ObjectTokensOfThree(r1: Record, r2: Record, r3: Record)
    ensures [StartArray] + (ObjectTokens([r1, r2, r3]) + [EndArray])
         == [StartArray, Object(Ok(r1)), Object(Ok(r2)), Object(Ok(r3)), EndArray]
  {
    assert [r1, r2, r3][..2] == [r1, r2];
    assert [r1, r2][..1] == [r1] && [r1][..0] == [];
    assert ObjectTokens([r1, r2, r3]) == [Object(Ok(r1)), Object(Ok(r2)), Object(Ok(r3))];
  }

  lemma ChunksOfThree(r1: Record, r2: Record, r3: Record)
    ensures Chunks([r1, r2, r3], 2) == [[r1, r2], [r3]]
  {
    var rs := [r1, r2, r3];
    assert rs[..2] == [r1, r2] && rs[2..] == [r3];
    assert FullChunks([r3], 2) == [] && Remainder([r3], 2) == [r3];
  }

  /** Three records at chunk size 2 give chunks of 2 and 1. */
  lemma ThreeRecordsAtSizeTwo(r1: Record, r2: Record, r3: Record)
    ensures ChunkInputOutcome(Some([StartArray, Object(Ok(r1)), Object(Ok(r2)), Object(Ok(r3)), EndArray]), 2, None)
         == Completed([[r1, r2], [r3]], [])
  {
    var rs := [r1, r2, r3];
    ArrayOfRecords(rs, 2);
    ObjectTokensOfThree(r1, r2, r3);
    ChunksOfThree(r1, r2, r3);
  }

  /** An empty array gives no chunks and logs nothing. */
  lemma EmptyArrayYieldsNothing(chunkSize: Int32)
    ensures ChunkInputOutcome(Some([StartArray, EndArray]), chunkSize, None) == Completed([], [])
  {
    var body := [EndArray];
    assert [StartArray, EndArray][1..] == body;
    assert ReadTokens(body) == [];
  }

  /** 10000 records at the default chunk size of 100 give 100 chunks of 100 records. */
  lemma LargeArrayExample(records: seq<Record>)
    requires |records| == 10000
    ensures var out := ChunkInputOutcome(Some([StartArray] + (ObjectTokens(records) + [EndArray])), DefaultChunkSize, None);
      out.Completed? && |out.chunks| == 100 && forall i | 0 <= i < 100 :: |out.chunks[i]| == 100
  {
    ArrayOfRecords(records, DefaultChunkSize);
    ChunkCount(records, DefaultChunkSize);
    FullChunkSizes(records, DefaultChunkSize);
    var full := FullChunks(records, DefaultChunkSize);
    assert |full| == 100 && Remainder(records, DefaultChunkSize) == [];
    assert Chunks(records, DefaultChunkSize) == full + [] == full;
  }

  /** A truncated array whose only object is malformed yields nothing and logs the warning. */
  lemma MalformedObjectSkipped(chunkSize: Int32)
    requires chunkSize >= 1
    ensures ChunkInputOutcome(Some([StartArray, Object(Malformed)]), chunkSize, None)
         == Completed([], [MalformedRecordSkipped])
  {
    var body := [Object(Malformed)];
    assert [StartArray, Object(Malformed)][1..] == body;
    assert ReadTokens(body) == body;
    assert body[..0] == [];
    assert Records(body) == [];
    assert SkipLog(body) == [MalformedRecordSkipped];
  }

  /**
   * With a chunk size below 1 the emission test passes after every object:
   * each object token yields a chunk of its own, an empty one when it was
   * malformed or null.
   */
  lemma {:induction false} NonPositiveChunkSize(ts: seq<Token>)
    ensures Flatten(ObjectSnapshots(ts)) == Records(ts)
    ensures forall i | 0 <= i < |ObjectSnapshots(ts)| :: |ObjectSnapshots(ts)[i]| <= 1
  {
    if ts != [] {
      var last := |ts| - 1;
      NonPositiveChunkSize(ts[..last]);
      FlattenAppend(ObjectSnapshots(ts[..last]), Snapshot(ts[last]));
      if ts[last].Object? {
        assert Flatten([Added(ts[last])]) == Added(ts[last]) by {
          assert [Added(ts[last])][1..] == [];
        }
      }
    }
  }

  /** At chunk size 0 a malformed object still causes an emission, of an empty chunk. */
  lemma ZeroChunkSizeEmitsEmptyChunk()
    ensures ChunkInputOutcome(Some([StartArray, Object(Malformed), EndArray]), 0, None)
         == Completed([[]], [MalformedRecordSkipped])
  {
    var body := [Object(Malformed), EndArray];
    assert [StartArray, Object(Malformed), EndArray][1..] == body;
    assert EndIndex(body) == 1;
    var read := [Object(Malformed)];
    assert ReadTokens(body) == read;
    assert read[..0] == [];
    assert ObjectSnapshots(read) == [[]];
    assert SkipLog(read) == [MalformedRecordSkipped];
  }

  /** The input processor service, holding the configured chunk size. */
  class InputProcessor {
    const chunkSize: Int32

    constructor (chunkSize: Int32)
      ensures this.chunkSize == chunkSize
    {
      this.chunkSize := chunkSize;
    }

    /**
     * Reads `stream` and yields its records in chunks of `chunkSize`, the
     * last one possibly shorter; the yielded chunks are returned together,
     * with the log, in the outcome.
     */
    method ChunkInput(stream: Option<seq<Token>>, cancelAt: Option<nat>) returns (outcome: ChunkOutcome)
      ensures outcome == ChunkInputOutcome(stream, chunkSize, cancelAt)
    {
      if stream.None? {
        return NullStream;
      }
      if Observed(cancelAt, 0) {
        return Cancelled([]);
      }
      var tokens := stream.value;
      if |tokens| > 0 && tokens[0] == StartArray {
        outcome := ReadArray(tokens[1..], cancelAt);
      } else if |tokens| > 0 && tokens[0].Object? {
        if Observed(cancelAt, 1) {
          return Cancelled([]);
        }
        var record: Option<Record> := Some(map[]);
        var log: seq<LogEvent> := [];
        match tokens[0].decoded {
          case Ok(decoded) => record := Some(decoded);
          case Malformed => log := [MalformedRecordSkipped];
          case Null => record := None;
        }
        if record.None? {
          return NullRecord;
        }
        if |record.value| > 0 {
          return Completed([[record.value]], log);
        }
        outcome := Completed([], log + [InputEmpty]);
      } else {
        outcome := Completed([], [NeitherArrayNorObject]);
      }
    }

    /**
     * The array loop over the tokens after the start of the array:
     * accumulates records, emits a copy of the pending chunk whenever it
     * holds at least `chunkSize` records and then clears it, stops at the
     * first end of array and emits what is left.
     */
    method ReadArray(body: seq<Token>, cancelAt: Option<nat>) returns (outcome: ChunkOutcome)
      requires !Observed(cancelAt, 0)
      ensures outcome == ArrayOutcome(body, chunkSize, cancelAt)
    {
      var emitted: seq<seq<Record>> := [];
      var current: seq<Record> := [];
      var log: seq<LogEvent> := [];
      var i := 0;
      while i < |body|
        invariant i <= EndIndex(body)
        invariant !Observed(cancelAt, i)
        invariant emitted == InLoopChunks(body[..i], chunkSize)
        invariant current == Pending(body[..i], chunkSize)
        invariant log == SkipLog(body[..i])
      {
        if Observed(cancelAt, i + 1) {
          assert cancelAt.value - 1 == i && i < Iterations(body);
          return Cancelled(emitted);
        }
        var token := body[i];
        if token.Object? {
          var decoded := token.decoded;
          if decoded.Ok? {
            current := current + [decoded.record];
          } else if decoded.Malformed? {
            log := log + [MalformedRecordSkipped];
          }
          assert current == Pending(body[..i], chunkSize) + Added(token);
          assert log == SkipLog(body[..i]) + Skipped(token);
          ObjectStep(body, i, chunkSize);
          if |current| >= chunkSize {
            emitted := emitted + [current];
            current := [];
          }
        } else if token == EndArray {
          break;
        } else {
          OtherStep(body, i, chunkSize);
        }
        i := i + 1;
      }
      assert i == EndIndex(body) && !Observed(cancelAt, Iterations(body));
      if |current| > 0 {
        emitted := emitted + [current];
      }
      return Completed(emitted, log);
    }
  }
}
