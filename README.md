# Format guessing and the page container, in Dafny

This project models two pieces of an Embulk-style bulk loader.

The **guess executor** (`GuessExecutor.doGuess`) infers a parser
configuration for an input. It runs the input plugin with its parser forced
to the synthetic `system_guess` parser. That parser (`GuessParserPlugin`)
does three things:

- it collects a byte sample from the files the plugin reads;
- it merges what each guess strategy proposes;
- it ends the transaction by raising `GuessedNoticeError` with the merged
  parser configuration.

The executor merges `{in: {parser: …}}` into an accumulated configuration.
It repeats this until a merge changes nothing, or for at most ten attempts.

The **page** (`PageImpl`) is an in-process container of records. It owns
one buffer and two side tables: string references and JSON value
references. Setters store a table whole, and getters read it back by index.
A deprecated layer converts msgpack values to JSON values, and back,
element by element.

Modules:

- `Configs` (config.dfy): the configuration tree as a value, and its deep
  merge.
- `Outcomes` (outcomes.dfy): the errors, and how a transaction ends.
  `TransactionResult.Signalled` is `GuessedNoticeError` (GuessExecutor.java
  lines 195-209) as a value.
- `Buffers` (buffers.dfy): a byte buffer class with a capacity, a limit and
  a ghost release counter.
- `GuessParser` (guess_parser.dfy): `getSample` and `runBasicParser`, as
  methods with loops. Each is proved against specification functions on
  the list of files.
- `GuessExecutor` (guess_executor.dfy): `doGuess`, as a method with a loop.
  It is proved against the function `Guess`, and the properties of the loop
  are proved as lemmas on `Guess`.
- `Pages` (page.dfy): `PageImpl` as a class with reassigned fields.

Calls into code outside this model (the input plugins, the guess plugins
loaded through `PluginClassLoader`, the msgpack and JSON value classes)
become function parameters:

- the input plugin's transaction, `InputTransaction`;
- the guess strategies, `Strategy`, each of which proposes a configuration
  or fails;
- the msgpack/JSON conversions, `toJson` and `toMsgpack`.

The files the input plugin delivers are a parameter of type
`seq<seq<seq<byte>>>` (files, then chunks, then bytes). Chunk releases are
returned as a log of chunk positions, in order.

The convergence test compares the same logical snapshot before and after
the merge. The copy is taken before `mergeRecursively` mutates the
accumulated configuration, and is compared with the mutated original
(GuessExecutor.java:97-99). In the model, `GuessExecutor.GuessLoop` (the loop `DoGuess`
calls) saves the accumulated value and compares it with the merge result. Both directions
are proved. An early return is a fixed point
(`GuessExecutor.EarlyReturnIsFixedPoint`). The loop also returns at the
first fixed point, after exactly that many attempts
(`GuessExecutor.ReturnsAtFirstFixedPoint`).

## Model

| member | source | states |
|---|---|---|
| Configs.Empty | quickload-core/src/main/java/org/quickload/exec/GuessExecutor.java:68 | a fresh `NextConfig` is the object with no keys |
| Configs.Merge | quickload-core/src/main/java/org/quickload/exec/GuessExecutor.java:96-98 | merging two objects gives an object whose keys are the union of theirs; if either side is not an object, the second value replaces the first |
| Configs.MergeEmptyLeft | quickload-core/src/main/java/org/quickload/exec/GuessExecutor.java:159-162 | merging an object into a fresh configuration yields that object |
| Configs.MergeEmptyRight | quickload-core/src/main/java/org/quickload/exec/GuessExecutor.java:68-71 | merging the empty accumulated configuration into an object changes nothing |
| Configs.MergeSelf | quickload-core/src/main/java/org/quickload/exec/GuessExecutor.java:96-99 | merging a tree into itself changes nothing (idempotence) |
| Configs.MergeAbsorbs | quickload-core/src/main/java/org/quickload/exec/GuessExecutor.java:96-102 | merging the same guess a second time changes nothing, so a repeated guess stops the loop |
| Configs.MergeOverwriteExamples | quickload-core/src/main/java/org/quickload/exec/GuessExecutor.java:96-98 | nested objects combine their sibling keys; scalars at the same key are replaced |
| Buffers.Buffer.Allocate | quickload-core/src/main/java/org/quickload/exec/GuessExecutor.java:170 | a fresh buffer of the given capacity, with its limit at the capacity and no release yet |
| Buffers.Buffer.SetBytes | quickload-core/src/main/java/org/quickload/exec/GuessExecutor.java:179 | succeeds exactly when the bytes fit inside the capacity at the offset; then only that region changes and it holds the source bytes; otherwise nothing changes |
| Buffers.Buffer.SetLimit | quickload-core/src/main/java/org/quickload/exec/GuessExecutor.java:189 | sets the logical length and nothing else |
| Buffers.Buffer.Release | embulk-core/src/main/java/org/embulk/spi/PageImpl.java:113-116 | counts one release and changes nothing else |
| GuessParser.Positions | quickload-core/src/main/java/org/quickload/exec/GuessExecutor.java:173-174 | the positions visited, file after file and chunk after chunk, are as many as the chunks |
| GuessParser.PositionAt | quickload-core/src/main/java/org/quickload/exec/GuessExecutor.java:173-174 | the i-th visited position names an existing chunk, which is the i-th chunk in file-then-chunk order |
| GuessParser.PositionsCoverEveryChunk | quickload-core/src/main/java/org/quickload/exec/GuessExecutor.java:173-184 | every chunk of every file is visited, and so released |
| GuessParser.PositionsDistinct | quickload-core/src/main/java/org/quickload/exec/GuessExecutor.java:173-184 | no chunk is visited twice, so none is released twice |
| GuessParser.CopyStep | quickload-core/src/main/java/org/quickload/exec/GuessExecutor.java:175-181 | one chunk as written: a failed copy stays failed; a copy that has filled the capacity skips the chunk unchanged; below the capacity it fails exactly when the chunk ends past the capacity, keeping the bytes before, and otherwise appends all of it and stays within the capacity |
| GuessParser.CopyWhole | quickload-core/src/main/java/org/quickload/exec/GuessExecutor.java:174-181 | the whole-chunk copy never holds more bytes than the capacity, and a failing copy fails at an existing chunk |
| GuessParser.CopyWholeMeaning | quickload-core/src/main/java/org/quickload/exec/GuessExecutor.java:175-181 | copied bytes are a prefix of the input: all of it, or exactly the capacity; a failure happens only at a chunk that starts below the capacity and ends past it (that such a chunk always fails is `CopyWholeStraddles`) |
| GuessParser.CopyWholeBelow | quickload-core/src/main/java/org/quickload/exec/GuessExecutor.java:175-181 | while the input stays below the capacity, every chunk is copied whole and the copy is the whole input |
| GuessParser.CopyWholeStraddles | quickload-core/src/main/java/org/quickload/exec/GuessExecutor.java:175-181 | a chunk that starts below the capacity and ends past it always makes the whole-chunk copy fail at that chunk, with the bytes before it |
| GuessParser.StraddleSticks | quickload-core/src/main/java/org/quickload/exec/GuessExecutor.java:179 | once a copy has failed, later chunks do not change the outcome |
| GuessParser.CopyWholeNothing | quickload-core/src/main/java/org/quickload/exec/GuessExecutor.java:186-188 | nothing is copied exactly when the capacity is zero or the input has no bytes |
| GuessParser.SampleAsWritten | quickload-core/src/main/java/org/quickload/exec/GuessExecutor.java:168-192 | `getSample` as written never releases more chunks than exist |
| GuessParser.SampleAsWrittenMeaning | quickload-core/src/main/java/org/quickload/exec/GuessExecutor.java:168-192 | a negative size is an allocation error; a sample is a non-empty prefix of the input that is all of it or exactly fills the capacity, and then every chunk was released; the "No input buffer to guess" error arises exactly when the size is zero or the input has no bytes; a bounds error happens at a chunk that starts below the capacity and ends past it, and releases stop before that chunk; otherwise, the "No input buffer" case included, every chunk is released |
| GuessParser.SampleAsWrittenStraddles | quickload-core/src/main/java/org/quickload/exec/GuessExecutor.java:173-187 | `getSample` as written fails with the bounds error whenever some chunk starts below the sample size and ends past it, having released exactly the chunks before that one |
| GuessParser.StraddlingChunkFailsSample | quickload-core/src/main/java/org/quickload/exec/GuessExecutor.java:175-181 | a 4-byte sample over chunks `[1,2,3]` and `[4,5,6]` fails with a bounds error as written; the corrected sample is `[1,2,3,4]` |
| GuessParser.TruncatedStep | quickload-core/src/main/java/org/quickload/exec/GuessExecutor.java:175-181 | one chunk of the corrected copy extends the sample by a prefix of the chunk, to the total length or to the capacity, whichever is smaller |
| GuessParser.CopyTruncating | quickload-core/src/main/java/org/quickload/exec/GuessExecutor.java:173-184 | the corrected copy never holds more bytes than the capacity |
| GuessParser.CopyTruncatingIsPrefix | quickload-core/src/main/java/org/quickload/exec/GuessExecutor.java:175-181 | the corrected copy collects exactly the first `min(capacity, total)` bytes of the input |
| GuessParser.SampleTruncated | quickload-core/src/main/java/org/quickload/exec/GuessExecutor.java:168-192 | the corrected sample is non-empty and at most the requested size; it fails with an allocation error exactly for a negative size, and otherwise with "No input buffer" |
| GuessParser.SampleTruncatedMeaning | quickload-core/src/main/java/org/quickload/exec/GuessExecutor.java:168-192 | the corrected sample is an allocation error for a negative size, "No input buffer" exactly when no byte can be copied, and otherwise the first `min(size, total)` bytes |
| GuessParser.CopyChunk | quickload-core/src/main/java/org/quickload/exec/GuessExecutor.java:175-181 | one step of the inner loop on the buffer: it follows the step function, and it fails exactly when the step straddles the capacity |
| GuessParser.CopyChunkTruncated | quickload-core/src/main/java/org/quickload/exec/GuessExecutor.java:175-181 | one corrected step on the buffer: the bytes before the offset, followed by as much of the chunk as fits, as `TruncatedStep` states |
| GuessParser.DrainFile | quickload-core/src/main/java/org/quickload/exec/GuessExecutor.java:174-183 | the inner loop over one file extends the whole-chunk copy and the release log by that file, or stops at the straddling chunk with the release log a prefix of all positions |
| GuessParser.GetSample | quickload-core/src/main/java/org/quickload/exec/GuessExecutor.java:168-192 | `getSample` as written: a fresh buffer whose contents and capacity follow `SampleAsWritten`, or its error, and chunks released in visiting order up to where it stopped |
| GuessParser.DrainFileTruncated | quickload-core/src/main/java/org/quickload/exec/GuessExecutor.java:174-183 | the corrected inner loop over one file extends the truncating copy and the release log by that file |
| GuessParser.GetSampleTruncated | quickload-core/src/main/java/org/quickload/exec/GuessExecutor.java:168-192 | the corrected `getSample`: it releases every chunk exactly once in order, and returns a buffer holding the corrected sample, or its error |
| GuessParser.MergeAll | quickload-core/src/main/java/org/quickload/exec/GuessExecutor.java:159-163 | folding object outputs in order into a fresh configuration gives an object |
| GuessParser.MergeAllKeys | quickload-core/src/main/java/org/quickload/exec/GuessExecutor.java:159-163 | merging object outputs in order gives an object holding exactly the keys that some output holds |
| GuessParser.LaterStrategyWins | quickload-core/src/main/java/org/quickload/exec/GuessExecutor.java:159-163 | a scalar a strategy proposes at a key survives when no later strategy mentions that key |
| GuessParser.MergeStrategiesDone | quickload-core/src/main/java/org/quickload/exec/GuessExecutor.java:159-163 | the strategy loop succeeds exactly when every strategy succeeds |
| GuessParser.MergeStrategiesValue | quickload-core/src/main/java/org/quickload/exec/GuessExecutor.java:159-163 | when every strategy succeeds, the loop's result is the in-order merge of their outputs (`Outputs`) into a fresh configuration |
| GuessParser.MergeStrategiesFirstFailure | quickload-core/src/main/java/org/quickload/exec/GuessExecutor.java:160-162 | a failing loop fails with the error of a strategy before which every strategy succeeded |
| GuessParser.MergeStrategiesMeaning | quickload-core/src/main/java/org/quickload/exec/GuessExecutor.java:159-163 | the strategy loop succeeds exactly when every strategy succeeds, and then it is the in-order merge of their outputs (`Outputs`); otherwise it fails with the error of the first strategy that fails, all strategies before it having succeeded |
| GuessParser.MergeStrategiesFailSticks | quickload-core/src/main/java/org/quickload/exec/GuessExecutor.java:160-162 | once a strategy has failed, the later strategies do not change the outcome |
| GuessParser.GuessParserResult | quickload-core/src/main/java/org/quickload/exec/GuessExecutor.java:155-165 | the guess parser ends its transaction with the signal or a failure, never normally; a sample failure is its failure; after a sample, it signals exactly when the strategy fold `MergeStrategies` succeeds, carrying its merge, and otherwise fails with the fold's error, which `MergeStrategiesMeaning` identifies as the first failing strategy's |
| GuessParser.RunBasicParser | quickload-core/src/main/java/org/quickload/exec/GuessExecutor.java:138-166 | collects the sample, then folds the strategies' outputs (`Outputs`) in order into a fresh configuration; it ends with the signal carrying that merge, the sample's failure, or the first failing strategy's error (line 162); every chunk is released unless the size is negative; it never returns normally |
| GuessParser.GuessParserResultAsWritten | quickload-core/src/main/java/org/quickload/exec/GuessExecutor.java:155-192 | the guess parser over the as-written sample: it never returns normally; a sample failure, such as the bounds error, is its failure; after a sample it signals exactly when `MergeStrategies` succeeds |
| GuessParser.StraddlingChunkFailsStage | quickload-core/src/main/java/org/quickload/exec/GuessExecutor.java:155-181 | on the 4-byte sample over chunks `[1,2,3]` and `[4,5,6]`, the as-written stage fails with the bounds error, while the corrected stage folds the strategies over `[1,2,3,4]` |
| GuessParser.RunBasicParserAsWritten | quickload-core/src/main/java/org/quickload/exec/GuessExecutor.java:138-192 | `runBasicParser` calling `getSample` as written: it ends as `GuessParserResultAsWritten` states, never normally, and releases the chunks in visiting order up to where the sample stopped |
| GuessParser.FoldStrategies | quickload-core/src/main/java/org/quickload/exec/GuessExecutor.java:159-163 | the strategy loop on the sample equals the fold `MergeStrategies`, so it stops at the first failing strategy |
| GuessExecutor.ForceParserType | quickload-core/src/main/java/org/quickload/exec/GuessExecutor.java:75 | forcing the parser type fails only with a configuration error at `parser`; on success `parser` is an object |
| GuessExecutor.ForceParserTypeMeaning | quickload-core/src/main/java/org/quickload/exec/GuessExecutor.java:75 | forcing the parser type fails only on a non-object `parser`; otherwise `parser.type` is `system_guess` and every other key of `in` and of `parser` is kept |
| GuessExecutor.GuessInputConfig | quickload-core/src/main/java/org/quickload/exec/GuessExecutor.java:71-75 | the attempt's `in` configuration is an object holding an object `parser`, or a configuration error at `in` or `parser` |
| GuessExecutor.GuessInputConfigMeaning | quickload-core/src/main/java/org/quickload/exec/GuessExecutor.java:70-75 | the attempt's `in` configuration exists exactly when the merge of the user configuration with the accumulated one has an object `in` with no non-object `parser`; it is that `in` with only `parser.type` forced, and every other key of the merged `in.parser` is kept with its value |
| GuessExecutor.Wrap | quickload-core/src/main/java/org/quickload/exec/GuessExecutor.java:92-93 | the guessed configuration has the single key `in`, holding the single key `parser`, holding the signalled configuration |
| GuessExecutor.Attempt | quickload-core/src/main/java/org/quickload/exec/GuessExecutor.java:77-94 | a successful attempt yields an object with the single key `in` |
| GuessExecutor.StepFrom | quickload-core/src/main/java/org/quickload/exec/GuessExecutor.java:96-102 | an iteration goes on exactly when the attempt succeeds and merging its guess changes the accumulated configuration, and then goes on with that merge; it stops with the unchanged configuration when the merge changed nothing, and with the attempt's error when the attempt failed |
| GuessExecutor.Loop | quickload-core/src/main/java/org/quickload/exec/GuessExecutor.java:69-104 | the loop makes at least one and at most ten attempts |
| GuessExecutor.Guess | quickload-core/src/main/java/org/quickload/exec/GuessExecutor.java:65-105 | the loop from the empty configuration makes between one and ten attempts |
| GuessExecutor.DoGuess | quickload-core/src/main/java/org/quickload/exec/GuessExecutor.java:65-105 | its result and attempt count are those of `Guess` from the empty configuration, with between one and ten attempts |
| GuessExecutor.GuessLoop | quickload-core/src/main/java/org/quickload/exec/GuessExecutor.java:67-104 | the loop of `doGuess`, run on any iteration that agrees with `StepFrom`, ends with the result and attempt count of the generic loop from the empty configuration |
| GuessExecutor.StopWithConfigMeaning | quickload-core/src/main/java/org/quickload/exec/GuessExecutor.java:96-102 | an iteration stops with a configuration exactly when the attempt succeeds and the merge leaves that configuration unchanged |
| GuessExecutor.EarlyDoneIsStop | quickload-core/src/main/java/org/quickload/exec/GuessExecutor.java:99-102 | a successful end before the tenth attempt comes from an iteration that stopped with that result |
| GuessExecutor.EarlyReturnIsFixedPoint | quickload-core/src/main/java/org/quickload/exec/GuessExecutor.java:96-102 | a configuration returned before the tenth attempt is a fixed point: one more attempt succeeds and merging its guess changes nothing |
| GuessExecutor.AssertionFaultOnlyOnNormalReturn | quickload-core/src/main/java/org/quickload/exec/GuessExecutor.java:80-89 | the assertion fault arises exactly when the guess configuration was built and the transaction returned normally |
| GuessExecutor.LoopAvoidsError | quickload-core/src/main/java/org/quickload/exec/GuessExecutor.java:69-104 | if no iteration stops with a given error, the loop never fails with it |
| GuessExecutor.NoAssertionFaultWithoutNormalReturn | quickload-core/src/main/java/org/quickload/exec/GuessExecutor.java:80-94 | a transaction that never returns normally never makes the loop fail with the assertion fault |
| GuessExecutor.GuessParserNeverReturnsNormally | quickload-core/src/main/java/org/quickload/exec/GuessExecutor.java:89 | with the guess parser stage, as written or corrected, driving every transaction, and the files, sample size and strategies taken from each attempt's `in` configuration, the assertion fault never arises |
| GuessExecutor.StraddlingChunkFailsGuess | quickload-core/src/main/java/org/quickload/exec/GuessExecutor.java:65-94 | with the as-written stage over chunks `[1,2,3]` and `[4,5,6]` and a 4-byte sample, `doGuess` fails on its first attempt with the stage's bounds error |
| GuessExecutor.ContinuingLoopExhausts | quickload-core/src/main/java/org/quickload/exec/GuessExecutor.java:69-104 | when every remaining iteration goes on, the loop runs to the tenth attempt and returns the configuration accumulated by then |
| GuessExecutor.NeverStableExhausts | quickload-core/src/main/java/org/quickload/exec/GuessExecutor.java:67-104 | when every attempt succeeds and changes the accumulated configuration, the loop makes exactly ten attempts and returns the tenth accumulated configuration |
| GuessExecutor.ConvergesAt | quickload-core/src/main/java/org/quickload/exec/GuessExecutor.java:69-104 | for any iteration: when the iterations before the `k`-th go on and the `k`-th stops, the loop ends with the `k`-th iteration's result after exactly `k` attempts; `Accumulated` is the `lastGuessed` after each iteration |
| GuessExecutor.ReturnsAtFirstFixedPoint | quickload-core/src/main/java/org/quickload/exec/GuessExecutor.java:96-102 | when attempts 1 to `k - 1` change the accumulated configuration and attempt `k` succeeds without changing it, `doGuess` returns that configuration after exactly `k` attempts |
| GuessExecutor.FailsAtFirstFailure | quickload-core/src/main/java/org/quickload/exec/GuessExecutor.java:74-94 | when attempts 1 to `k - 1` change the accumulated configuration and attempt `k` fails, `doGuess` fails with that attempt's error after exactly `k` attempts |
| GuessExecutor.MergeWrapHasParserObject | quickload-core/src/main/java/org/quickload/exec/GuessExecutor.java:92-98 | after a merge with the guessed `{in: {parser: p}}` for an object `p`, the accumulated `in.parser` is an object |
| GuessExecutor.ParserObjectMakesGuessInput | quickload-core/src/main/java/org/quickload/exec/GuessExecutor.java:71-75 | once the accumulated configuration holds an object `in.parser`, every later guess configuration can be built |
| GuessExecutor.ConstantGuessConvergesInTwo | quickload-core/src/main/java/org/quickload/exec/GuessExecutor.java:65-105 | a transaction that always signals the same object `p` converges on the second attempt, to `{in: {parser: p}}` |
| Pages.ConvertAll | embulk-core/src/main/java/org/embulk/spi/PageImpl.java:57-60 | the converted list has as many elements as the input |
| Pages.ConvertAllAt | embulk-core/src/main/java/org/embulk/spi/PageImpl.java:57-60 | element `k` of the converted list is the conversion of element `k` |
| Pages.ConvertAllRoundTrip | embulk-core/src/main/java/org/embulk/spi/PageImpl.java:56-62 | converting to JSON and back gives the original list when the two conversions are inverse on its elements |
| Pages.Page.constructor | embulk-core/src/main/java/org/embulk/spi/PageImpl.java:30-32 | the page holds the given buffer and no side table |
| Pages.Page.Allocate | embulk-core/src/main/java/org/embulk/spi/PageImpl.java:34-37 | a page over a fresh, unreleased buffer of the requested capacity; a negative length is a page allocation error |
| Pages.Page.Wrap | embulk-core/src/main/java/org/embulk/spi/PageImpl.java:39-42 | a fresh page over exactly the given buffer, with no side table |
| Pages.Page.SetStringReferences | embulk-core/src/main/java/org/embulk/spi/PageImpl.java:44-48 | stores the list as the string table, returns the same page, and changes no other field |
| Pages.Page.SetJsonValueReferences | embulk-core/src/main/java/org/embulk/spi/PageImpl.java:64-67 | stores the list as the JSON table, returns the same page, and changes no other field |
| Pages.Page.SetValueReferences | embulk-core/src/main/java/org/embulk/spi/PageImpl.java:54-62 | the JSON table becomes the element-wise conversion of the msgpack list, in order; returns the same page |
| Pages.Page.GetValueReferences | embulk-core/src/main/java/org/embulk/spi/PageImpl.java:79-88 | a new list converting the JSON table element-wise in order, without changing the page; it fails when no JSON table is set |
| Pages.Page.GetStringReference | embulk-core/src/main/java/org/embulk/spi/PageImpl.java:94-97 | element `index` of the string table exactly when a table is set and the index is inside it; otherwise a null-reference or out-of-bounds error |
| Pages.Page.GetJsonValueReference | embulk-core/src/main/java/org/embulk/spi/PageImpl.java:108-111 | element `index` of the JSON table by the same rule |
| Pages.Page.GetValueReference | embulk-core/src/main/java/org/embulk/spi/PageImpl.java:102-106 | exists exactly when the JSON element does, fails with the same error otherwise, and agrees with element `index` of the converted table |
| Pages.Page.Release | embulk-core/src/main/java/org/embulk/spi/PageImpl.java:113-116 | releases the owned buffer exactly once and changes nothing else |

## Left out

- `guess` and `PluginExecutors.propagePluginExceptions`: exception translation around `doGuess`. A failure of the loop is its `Fail` value.
- `newInputPlugin`, `exec.newPlugin` and plugin loading: the input plugin and the strategies are function parameters. The plugin's choice by `in.type` happens inside `InputTransaction`. A strategy that throws is a strategy returning `Fail`; the kind of exception is not modelled, only that it ends the stage.
- `runInputTransaction`, `runInput` and the channel join: the transaction is an oracle. It signals a parser configuration, returns normally, or fails with a stage error.
- `getBasicParserTask`, `loadConfig`, `dumpTask`, `loadTask` and the dummy schema: task serialization is not modelled. `RunBasicParser` takes the sample size, the configuration and the strategies directly.
- The defaults `guess_sample_size = 32768` and `guess_plugins = ["gzip","charset","newline","csv"]`: configuration defaults, not modelled.
- `ConfigSource.getObject("in")` on a missing or non-object `in`, and `getObjectOrSetEmpty("parser")` on a non-object `parser`: their behaviour lives in `ConfigSource`, outside this model. They are modelled as a configuration error at that key.
- The order of chunks in the release log is the visiting order. The release calls on the chunk buffers themselves are not modelled; the log stands in for them.
- `GuessParser.RunBasicParser` and `GuessParser.GuessParserResult` use the corrected sample, `GetSampleTruncated`; see Findings. `GuessParser.RunBasicParserAsWritten` and `GuessParser.GuessParserResultAsWritten` use the as-written collector, `GetSample`.
- `Configs.Merge`: `mergeRecursively`, `deepCopy` and `equals` live in `ConfigSource` and `NextConfig` (package `org.quickload.config`), outside this model. The merge rule (objects merge key by key, and any other value, arrays included, replaces the old one wholesale) is assumed of `ConfigSource.mergeRecursively`.
- `InputTransaction` is a function of the attempt's `in` configuration: the same configuration always gives the same outcome. `GuessExecutor.EarlyReturnIsFixedPoint` speaks of "one more attempt" under that assumption; a plugin whose outcome depends on anything else is not modelled.
- `getStringReferences`, `getJsonValueReferences` and `buffer()`: plain reads. They are the fields `stringReferences`, `jsonValueReferences` and the constant `buffer`. Because `buffer` is constant, no setter can change it.
- `JsonValueImpl.of` and `getMsgpackImmutableValue`: the conversions are parameters, and no round trip is assumed. `Pages.ConvertAllRoundTrip` holds only under an explicit inverse hypothesis.
- Java `List` aliasing and `null` arguments to the setters: the tables are values. Passing `null` to reset a table, and later mutation of a list through another reference, are not modelled.
- `BufferImpl.allocate` and off-heap memory: the buffer is an array with a capacity, a limit and a ghost release counter. Only a negative length fails to allocate.
- `PluginClassLoaderFactoryImpl.java` and `PreviewResult.java` are not part of this model. They forward to the class loader, which lives outside this model, or only hold data.
- Integer width: sizes are unbounded integers. `sampleSize += buffer.limit()` is assumed not to overflow in Java. This rests on the assumption that `setBytes`, which lives in `org.quickload.buffer.Buffer` outside this model, checks `sampleSize + buffer.limit()` against an `int` capacity without overflowing itself; the bounds check of `Buffers.Buffer.SetBytes` is that assumption.

## Findings

| source | as written | input that shows it | evidently intended | confidence | as-written member | corrected member |
|---|---|---|---|---|---|---|
| quickload-core/src/main/java/org/quickload/exec/GuessExecutor.java:175-181 | while room remains, the whole chunk is copied at `sampleSize`; a chunk longer than the room left makes `setBytes` fail its bounds check, and `getSample` throws before that chunk and the rest are released | `guess_sample_size = 4`, one file with chunks `[1,2,3]` and `[4,5,6]`: the second chunk needs 6 bytes of a 4-byte buffer | the sample is truncated to its capacity, holding the first `min(size, total)` bytes, and every chunk is still released | medium, not executed | GuessParser.StraddlingChunkFailsSample | GuessParser.CopyTruncatingIsPrefix |

The as-written collector is `GuessParser.GetSample`, specified by
`GuessParser.SampleAsWritten`. The corrected collector is
`GuessParser.GetSampleTruncated`, specified by `GuessParser.SampleTruncated`;
`GuessParser.RunBasicParser` uses it. On the input of the finding, the
as-written stage fails (`GuessParser.StraddlingChunkFailsStage`), and so
does `doGuess`, on its first attempt (`GuessExecutor.StraddlingChunkFailsGuess`).
