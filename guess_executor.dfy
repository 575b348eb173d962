/** The format-guess convergence loop of `GuessExecutor.doGuess`: run the input
    under the synthetic guess parser, merge what it guessed into the
    accumulated configuration, and repeat until a merge changes nothing or
    the attempts run out. */
module GuessExecutor {
  import opened Configs
  import opened Outcomes
  import GuessParser

  /** The iteration bound of the loop. */
  const MaxAttempts: nat := 10

  /** The reserved parser type that selects the guess parser. */
  const GuessParserType: string := "system_guess"

  /** The input plugin's transaction, from the `in` configuration it is
      given. Plugin selection by `in.type` happens inside. */
  type InputTransaction = Config -> TransactionResult

  /** `getObjectOrSetEmpty("parser").setString("type", "system_guess")` on
      the `in` object. */
  function ForceParserType(input: map<string, Config>): (r: Outcome<map<string, Config>, GuessError>)
    ensures r.Fail? ==> r.error == ConfigError("parser")
    ensures r.Done? ==> "parser" in r.value && r.value["parser"].Obj?
  {
    if "parser" !in input then
      Done(input["parser" := Obj(map["type" := Str(GuessParserType)])])
    else if input["parser"].Obj? then
      Done(input["parser" := Obj(input["parser"].fields["type" := Str(GuessParserType)])])
    else
      Fail(ConfigError("parser"))
  }

  /** Forcing the parser type fails only on a non-object `parser`; otherwise
      it sets `parser.type` and leaves every other key of `in` and of
      `parser` as it was. */
  lemma ForceParserTypeMeaning(input: map<string, Config>)
    ensures var r := ForceParserType(input);
      && (r.Done? <==> "parser" !in input || input["parser"].Obj?)
      && (r.Fail? ==> r.error == ConfigError("parser"))
      && (r.Done? ==> r.value.Keys == input.Keys + {"parser"})
      && (r.Done? ==> forall k :: k in input && k != "parser" ==> r.value[k] == input[k])
      && (r.Done? ==> r.value["parser"].Obj? && "type" in r.value["parser"].fields)
      && (r.Done? ==> r.value["parser"].fields["type"] == Str(GuessParserType))
      && (r.Done? ==>
           r.value["parser"].fields.Keys == (if "parser" in input then input["parser"].fields.Keys else {}) + {"type"})
      && (r.Done? && "parser" in input ==>
           forall k :: k in input["parser"].fields && k != "type" ==>
             r.value["parser"].fields[k] == input["parser"].fields[k])
  {
  }

  /** The `in` configuration an attempt hands the input plugin: the user
      configuration merged with the accumulated one, with `in.parser.type`
      forced to the guess parser. A missing or non-object `in` is an error. */
  function GuessInputConfig(config: Config, last: Config): (r: Outcome<Config, GuessError>)
    ensures r.Fail? ==> r.error == ConfigError("in") || r.error == ConfigError("parser")
    ensures r.Done? ==> r.value.Obj? && "parser" in r.value.fields && r.value.fields["parser"].Obj?
  {
    var merged := Merge(config, last);
    if merged.Obj? && "in" in merged.fields && merged.fields["in"].Obj? then
      match ForceParserType(merged.fields["in"].fields)
      case Done(m) => Done(Obj(m))
      case Fail(e) => Fail(e)
    else
      Fail(ConfigError("in"))
  }

  /** The guess configuration is the merge of the user configuration with the
      accumulated one; it exists exactly when that merge has an object `in`
      with no non-object `parser`, and then it is that `in` with
      `parser.type` set to the guess parser and nothing else changed. */
  lemma GuessInputConfigMeaning(config: Config, last: Config)
    ensures var merged, r := Merge(config, last), GuessInputConfig(config, last);
      && (r.Done? <==> merged.Obj? && "in" in merged.fields && merged.fields["in"].Obj? &&
                       ("parser" !in merged.fields["in"].fields || merged.fields["in"].fields["parser"].Obj?))
      && (r.Done? ==> r.value.Obj? && "parser" in r.value.fields && r.value.fields["parser"].Obj?)
      && (r.Done? ==> "type" in r.value.fields["parser"].fields &&
                      r.value.fields["parser"].fields["type"] == Str(GuessParserType))
      && (r.Done? ==> r.value.fields.Keys == merged.fields["in"].fields.Keys + {"parser"})
      && (r.Done? ==> forall k :: k in merged.fields["in"].fields && k != "parser" ==>
                        r.value.fields[k] == merged.fields["in"].fields[k])
      && (r.Done? ==>
           r.value.fields["parser"].fields.Keys ==
             (if "parser" in merged.fields["in"].fields then merged.fields["in"].fields["parser"].fields.Keys else {}) + {"type"})
      && (r.Done? && "parser" in merged.fields["in"].fields ==>
           forall k :: k in merged.fields["in"].fields["parser"].fields && k != "type" ==>
             k in r.value.fields["parser"].fields &&
             r.value.fields["parser"].fields[k] == merged.fields["in"].fields["parser"].fields[k])
  {
    var merged := Merge(config, last);
    if merged.Obj? && "in" in merged.fields && merged.fields["in"].Obj? {
      ForceParserTypeMeaning(merged.fields["in"].fields);
    }
  }

  /** The configuration guessed by one attempt: `{in: {parser: p}}`. */
  function Wrap(parserConfig: Config): (r: Config)
    ensures r.Obj? && r.fields.Keys == {"in"}
    ensures r.fields["in"].Obj? && r.fields["in"].fields.Keys == {"parser"}
    ensures r.fields["in"].fields["parser"] == parserConfig
  {
    Obj(map["in" := Obj(map["parser" := parserConfig])])
  }

  /** One attempt: build the guess configuration, run the transaction and
      read the guess signal. Returning normally is an assertion fault. */
  function Attempt(config: Config, input: InputTransaction, last: Config): (r: Outcome<Config, GuessError>)
    ensures r.Done? ==> r.value.Obj? && r.value.fields.Keys == {"in"}
  {
    match GuessInputConfig(config, last)
    case Fail(e) => Fail(e)
    case Done(inConfig) =>
      match input(inConfig)
      case Signalled(p) => Done(Wrap(p))
      case Completed => Fail(AssertionFault)
      case Failed(e) => Fail(StageFailed(e))
  }

  /** An attempt yields exactly `{in: {parser: p}}` when the transaction
      signals `p`, the assertion fault when it returns normally, and the
      plugin's failure when it fails. */
  lemma AttemptOutcomes(config: Config, input: InputTransaction, last: Config)
    ensures var g, a := GuessInputConfig(config, last), Attempt(config, input, last);
      && (g.Fail? ==> a == Fail(g.error))
      && (g.Done? && input(g.value).Signalled? ==> a == Done(Wrap(input(g.value).parserConfig)))
      && (g.Done? && input(g.value).Completed? ==> a == Fail(AssertionFault))
      && (g.Done? && input(g.value).Failed? ==> a == Fail(StageFailed(input(g.value).error)))
      && (a.Done? ==> a.value.fields.Keys == {"in"} && a.value.fields["in"].fields.Keys == {"parser"})
  {
  }

  /** The result of the loop and how many attempts it made. */
  datatype GuessRun = GuessRun(result: Outcome<Config, GuessError>, attempts: nat)

  /** The end of one iteration: stop with a result, or go on with the new
      accumulated configuration. */
  datatype Step = Stop(result: Outcome<Config, GuessError>) | Continue(next: Config)

  /** One iteration: an attempt, then the merge and the convergence test. */
  function StepFrom(config: Config, input: InputTransaction, last: Config): (r: Step)
    ensures r.Continue? ==> r.next != last && Attempt(config, input, last).Done?
    ensures var a := Attempt(config, input, last);
      r.Continue? <==> (a.Done? && Merge(last, a.value) != last)
    ensures r.Continue? ==> r.next == Merge(last, Attempt(config, input, last).value)
    ensures r.Stop? && r.result.Done? ==> r.result.value == last
    ensures r.Stop? && r.result.Fail? ==> Attempt(config, input, last) == r.result
  {
    match Attempt(config, input, last)
    case Fail(e) => Stop(Fail(e))
    case Done(guessed) =>
      var next := Merge(last, guessed);
      if next == last then Stop(Done(next)) else Continue(next)
  }

  /** The loop from attempt `done` on, with `last` accumulated so far, for
      any iteration `step`. */
  function Loop(step: Config -> Step, last: Config, done: nat): (r: GuessRun)
    requires done <= MaxAttempts
    ensures done <= r.attempts <= MaxAttempts
    ensures done < MaxAttempts ==> done < r.attempts
    decreases MaxAttempts - done
  {
    if done == MaxAttempts then GuessRun(Done(last), done)
    else match step(last)
      case Stop(result) => GuessRun(result, done + 1)
      case Continue(next) => Loop(step, next, done + 1)
  }

  /** The iteration of `doGuess` for a user configuration and a transaction. */
  function Iteration(config: Config, input: InputTransaction): Config -> Step
  {
    last => StepFrom(config, input, last)
  }

  /** The loop as a whole, starting from the empty accumulated configuration. */
  function Guess(config: Config, input: InputTransaction): (r: GuessRun)
    ensures 1 <= r.attempts <= MaxAttempts
  {
    Loop(Iteration(config, input), Empty(), 0)
  }

  /** `doGuess`: at most ten attempts from an empty accumulated configuration;
      each merges `{in: {parser: p}}` for the signalled `p` and stops as soon
      as the merge leaves the accumulated configuration unchanged. */
  method DoGuess(config: Config, input: InputTransaction) returns (r: Outcome<Config, GuessError>, attempts: nat)
    ensures GuessRun(r, attempts) == Guess(config, input)
    ensures 1 <= attempts <= MaxAttempts
  {
    ghost var step := Iteration(config, input);
    forall c
      ensures step(c) == StepFrom(config, input, c)
    {
    }
    r, attempts := GuessLoop(config, input, step);
  }

  /** The loop of `doGuess`, proved against the generic loop for any
      iteration `step` that agrees with `StepFrom`. */
  method GuessLoop(config: Config, input: InputTransaction, ghost step: Config -> Step)
    returns (r: Outcome<Config, GuessError>, attempts: nat)
    requires forall c :: step(c) == StepFrom(config, input, c)
    ensures GuessRun(r, attempts) == Loop(step, Empty(), 0)
  {
    var lastGuessed := Empty();
    attempts := 0;
    for i := 0 to MaxAttempts
      invariant attempts == i
      invariant Loop(step, lastGuessed, i) == Loop(step, Empty(), 0)
    {
      attempts := i + 1;
      var guessInputConfig := GuessInputConfig(config, lastGuessed);
      if guessInputConfig.Fail? {
        return Fail(guessInputConfig.error), attempts;
      }
      var guessed;
      match input(guessInputConfig.value) {
        case Completed =>
          return Fail(AssertionFault), attempts;
        case Failed(e) =>
          return Fail(StageFailed(e)), attempts;
        case Signalled(p) =>
          guessed := Wrap(p);
      }
      var nextGuessed := lastGuessed;
      lastGuessed := Merge(lastGuessed, guessed);
      if lastGuessed == nextGuessed {
        return Done(lastGuessed), attempts;
      }
    }
    r := Done(lastGuessed);
  }

  /** One iteration of the loop run on `last` at attempt `done`. */
  lemma LoopUnfold(config: Config, input: InputTransaction, last: Config, done: nat)
    requires done < MaxAttempts
    ensures var step := StepFrom(config, input, last);
      Loop(Iteration(config, input), last, done) ==
        if step.Stop? then GuessRun(step.result, done + 1)
        else Loop(Iteration(config, input), step.next, done + 1)
  {
    assert Iteration(config, input)(last) == StepFrom(config, input, last);
  }

  /** The accumulated configuration after `n` iterations that all go on. */
  function Accumulated(step: Config -> Step, n: nat): Config
  {
    if n == 0 then Empty()
    else
      var prev := Accumulated(step, n - 1);
      match step(prev)
      case Continue(next) => next
      case Stop(_) => prev
  }

  /** An iteration stops with a configuration exactly when the attempt
      succeeds and merging its guess leaves that configuration unchanged. */
  lemma StopWithConfigMeaning(config: Config, input: InputTransaction, last: Config, c: Config)
    ensures StepFrom(config, input, last) == Stop(Done(c)) <==>
      var a := Attempt(config, input, last); a.Done? && Merge(last, a.value) == last && c == last
  {
  }

  /** A loop that ends with a configuration before its last attempt ended at
      an iteration, run on some accumulated configuration `at`, that stopped
      with that result. */
  lemma {:induction false} EarlyDoneIsStop(step: Config -> Step, last: Config, done: nat) returns (at: Config)
    requires done <= MaxAttempts
    requires Loop(step, last, done).result.Done?
    requires Loop(step, last, done).attempts < MaxAttempts
    ensures step(at) == Stop(Loop(step, last, done).result)
    decreases MaxAttempts - done
  {
    if step(last).Continue? {
      at := EarlyDoneIsStop(step, step(last).next, done + 1);
    } else {
      at := last;
    }
  }

  /** An early return happens only at a fixed point: the configuration
      returned is unchanged by merging one more guess into it. */
  lemma EarlyReturnIsFixedPoint(config: Config, input: InputTransaction)
    requires Guess(config, input).result.Done?
    requires Guess(config, input).attempts < MaxAttempts
    ensures var c := Guess(config, input).result.value;
      Attempt(config, input, c).Done? && Merge(c, Attempt(config, input, c).value) == c
  {
    var step := Iteration(config, input);
    var at := EarlyDoneIsStop(step, Empty(), 0);
    var c := Guess(config, input).result.value;
    StopWithConfigMeaning(config, input, at, c);
  }

  /** The assertion fault arises exactly when the guess configuration could
      be built and the transaction then returned normally. */
  lemma AssertionFaultOnlyOnNormalReturn(config: Config, input: InputTransaction, last: Config)
    ensures Attempt(config, input, last) == Fail(AssertionFault) <==>
      GuessInputConfig(config, last).Done? && input(GuessInputConfig(config, last).value).Completed?
  {
    var merged := Merge(config, last);
    if merged.Obj? && "in" in merged.fields && merged.fields["in"].Obj? {
      ForceParserTypeMeaning(merged.fields["in"].fields);
    }
  }

  /** A loop whose every iteration avoids stopping with error `e` never
      fails with `e`. */
  lemma {:induction false} LoopAvoidsError(step: Config -> Step, last: Config, done: nat, e: GuessError)
    requires done <= MaxAttempts
    requires forall c :: step(c) != Stop(Fail(e))
    ensures Loop(step, last, done).result != Fail(e)
    decreases MaxAttempts - done
  {
    if done < MaxAttempts && step(last).Continue? {
      LoopAvoidsError(step, step(last).next, done + 1, e);
    }
  }

  /** A transaction that never returns normally never makes the loop fail
      with the assertion fault. */
  lemma NoAssertionFaultWithoutNormalReturn(config: Config, input: InputTransaction)
    requires forall c :: !input(c).Completed?
    ensures Guess(config, input).result != Fail(AssertionFault)
  {
    var step := Iteration(config, input);
    forall c
      ensures step(c) != Stop(Fail(AssertionFault))
    {
      AssertionFaultOnlyOnNormalReturn(config, input, c);
    }
    LoopAvoidsError(step, Empty(), 0, AssertionFault);
  }

  /** The guess parser stage as the transaction of one attempt, as written
      (`asWritten`) or corrected: the files the input plugin reads, the
      sample size and the strategies all come from that attempt's `in`
      configuration. The strategies receive that whole `in` configuration
      as their `config`, where the source hands them the parser's
      configuration (`task.getConfigSource()`); since `strategies(c)` is
      arbitrary, a strategy that reads only `c.fields["parser"]` is one
      instance. */
  function GuessStage(asWritten: bool, files: Config -> GuessParser.Files, sampleSize: Config -> int,
                      strategies: Config -> seq<GuessParser.Strategy>): InputTransaction
  {
    c => if asWritten then GuessParser.GuessParserResultAsWritten(files(c), sampleSize(c), c, strategies(c))
         else GuessParser.GuessParserResult(files(c), sampleSize(c), c, strategies(c))
  }

  /** Driving the loop with the guess parser stage, as written or corrected,
      never hits the assertion fault, whatever files, sample sizes and
      strategies each attempt's configuration selects. */
  lemma GuessParserNeverReturnsNormally(config: Config, asWritten: bool, files: Config -> GuessParser.Files,
                                        sampleSize: Config -> int, strategies: Config -> seq<GuessParser.Strategy>)
    ensures Guess(config, GuessStage(asWritten, files, sampleSize, strategies)).result != Fail(AssertionFault)
  {
    var input := GuessStage(asWritten, files, sampleSize, strategies);
    forall c
      ensures !input(c).Completed?
    {
      var r := if asWritten then GuessParser.GuessParserResultAsWritten(files(c), sampleSize(c), c, strategies(c))
               else GuessParser.GuessParserResult(files(c), sampleSize(c), c, strategies(c));
      assert input(c) == r;
    }
    NoAssertionFaultWithoutNormalReturn(config, input);
  }

  /** On the input of the sampling finding (one file of chunks `[1,2,3]` and
      `[4,5,6]`, a sample size of 4), the stage as written makes the first
      attempt fail with the bounds error, so `doGuess` fails after one
      attempt, whatever the strategies. */
  lemma StraddlingChunkFailsGuess(config: Config, strategies: Config -> seq<GuessParser.Strategy>)
    requires GuessInputConfig(config, Empty()).Done?
    ensures Guess(config, GuessStage(true, c => [[[1, 2, 3], [4, 5, 6]]], c => 4, strategies)) ==
      GuessRun(Fail(StageFailed(BoundsError)), 1)
  {
    var input := GuessStage(true, c => [[[1, 2, 3], [4, 5, 6]]], c => 4, strategies);
    var g := GuessInputConfig(config, Empty()).value;
    GuessParser.StraddlingChunkFailsStage(g, strategies(g));
    assert input(g) == Failed(BoundsError);
    LoopUnfold(config, input, Empty(), 0);
  }

  /** When iterations `done + 1` through ten all go on, the loop from the
      configuration accumulated by the first `done` makes all ten attempts
      and returns the tenth accumulated configuration. */
  lemma {:induction false} ContinuingLoopExhausts(step: Config -> Step, done: nat)
    requires done <= MaxAttempts
    requires forall n: nat :: done <= n < MaxAttempts ==> step(Accumulated(step, n)).Continue?
    ensures Loop(step, Accumulated(step, done), done) == GuessRun(Done(Accumulated(step, MaxAttempts)), MaxAttempts)
    decreases MaxAttempts - done
  {
    if done < MaxAttempts {
      assert step(Accumulated(step, done)).Continue?;
      assert Accumulated(step, done + 1) == step(Accumulated(step, done)).next;
      ContinuingLoopExhausts(step, done + 1);
    }
  }

  /** When every attempt succeeds and changes the accumulated configuration,
      the loop makes exactly ten attempts and returns the tenth accumulated
      configuration without error. */
  lemma NeverStableExhausts(config: Config, input: InputTransaction)
    requires forall n: nat :: n < MaxAttempts ==>
      var last := Accumulated(Iteration(config, input), n);
      var a := Attempt(config, input, last);
      a.Done? && Merge(last, a.value) != last
    ensures Guess(config, input) == GuessRun(Done(Accumulated(Iteration(config, input), MaxAttempts)), MaxAttempts)
  {
    var step := Iteration(config, input);
    forall n: nat | n < MaxAttempts
      ensures step(Accumulated(step, n)).Continue?
    {
      var last := Accumulated(step, n);
      assert step(last) == StepFrom(config, input, last);
    }
    ContinuingLoopExhausts(step, 0);
  }

  /** When iterations `done + 1` to `k - 1` go on and iteration `k` stops,
      the loop from the configuration accumulated by the first `done` ends
      with that iteration's result after exactly `k` attempts. */
  lemma {:induction false} ConvergesAt(step: Config -> Step, done: nat, k: nat)
    requires done < k <= MaxAttempts
    requires forall n: nat :: done <= n < k - 1 ==> step(Accumulated(step, n)).Continue?
    requires step(Accumulated(step, k - 1)).Stop?
    ensures Loop(step, Accumulated(step, done), done) == GuessRun(step(Accumulated(step, k - 1)).result, k)
    decreases k - done
  {
    if done < k - 1 {
      assert step(Accumulated(step, done)).Continue?;
      assert Accumulated(step, done + 1) == step(Accumulated(step, done)).next;
      ConvergesAt(step, done + 1, k);
    }
  }

  /** If attempts 1 to `k - 1` succeed and each changes the accumulated
      configuration, and attempt `k` succeeds without changing it, the loop
      returns that configuration after exactly `k` attempts: it stops at the
      first fixed point. */
  lemma ReturnsAtFirstFixedPoint(config: Config, input: InputTransaction, k: nat)
    requires 1 <= k <= MaxAttempts
    requires forall n: nat :: n < k - 1 ==>
      var last := Accumulated(Iteration(config, input), n);
      var a := Attempt(config, input, last);
      a.Done? && Merge(last, a.value) != last
    requires var last := Accumulated(Iteration(config, input), k - 1);
      var a := Attempt(config, input, last);
      a.Done? && Merge(last, a.value) == last
    ensures Guess(config, input) == GuessRun(Done(Accumulated(Iteration(config, input), k - 1)), k)
  {
    var step := Iteration(config, input);
    forall n: nat | n < k - 1
      ensures step(Accumulated(step, n)).Continue?
    {
      var last := Accumulated(step, n);
      assert step(last) == StepFrom(config, input, last);
    }
    var last := Accumulated(step, k - 1);
    assert step(last) == StepFrom(config, input, last);
    ConvergesAt(step, 0, k);
  }

  /** If attempts 1 to `k - 1` succeed and each changes the accumulated
      configuration, and attempt `k` fails, the loop fails with that error
      after exactly `k` attempts. */
  lemma FailsAtFirstFailure(config: Config, input: InputTransaction, k: nat)
    requires 1 <= k <= MaxAttempts
    requires forall n: nat :: n < k - 1 ==>
      var last := Accumulated(Iteration(config, input), n);
      var a := Attempt(config, input, last);
      a.Done? && Merge(last, a.value) != last
    requires Attempt(config, input, Accumulated(Iteration(config, input), k - 1)).Fail?
    ensures Guess(config, input) == GuessRun(Attempt(config, input, Accumulated(Iteration(config, input), k - 1)), k)
  {
    var step := Iteration(config, input);
    forall n: nat | n < k - 1
      ensures step(Accumulated(step, n)).Continue?
    {
      var last := Accumulated(step, n);
      assert step(last) == StepFrom(config, input, last);
    }
    var last := Accumulated(step, k - 1);
    assert step(last) == StepFrom(config, input, last);
    ConvergesAt(step, 0, k);
  }

  /** The configuration has an object `in` whose `parser` is an object. */
  ghost predicate HasParserObject(c: Config)
  {
    c.Obj? && "in" in c.fields && c.fields["in"].Obj? &&
    "parser" in c.fields["in"].fields && c.fields["in"].fields["parser"].Obj?
  }

  /** Merging `{in: {parser: p}}` for an object `p` leaves an object parser. */
  lemma MergeWrapHasParserObject(last: Config, p: Config)
    requires last.Obj? && p.Obj?
    ensures HasParserObject(Merge(last, Wrap(p)))
  {
    var w := Wrap(p);
    MergeFieldRules(last, w, "in");
    if "in" in last.fields && last.fields["in"].Obj? {
      MergeFieldRules(last.fields["in"], w.fields["in"], "parser");
    }
  }

  /** Once the accumulated configuration holds an object parser, every later
      guess configuration can be built. */
  lemma ParserObjectMakesGuessInput(config: Config, last: Config)
    requires HasParserObject(last)
    ensures GuessInputConfig(config, last).Done?
  {
    var merged := Merge(config, last);
    if config.Obj? {
      MergeFieldRules(config, last, "in");
      var lin := last.fields["in"];
      if "in" in config.fields && config.fields["in"].Obj? {
        MergeFieldRules(config.fields["in"], lin, "parser");
      }
      assert merged.fields["in"].Obj?;
      assert merged.fields["in"].fields["parser"].Obj?;
    }
    ForceParserTypeMeaning(merged.fields["in"].fields);
  }

  /** A transaction that always signals the same object `p` converges on the
      second attempt, to `{in: {parser: p}}`, for a user configuration whose
      first guess configuration can be built. */
  lemma ConstantGuessConvergesInTwo(config: Config, input: InputTransaction, p: Config)
    requires p.Obj?
    requires forall c :: input(c) == Signalled(p)
    requires GuessInputConfig(config, Empty()).Done?
    ensures Guess(config, input) == GuessRun(Done(Wrap(p)), 2)
  {
    var w := Wrap(p);
    assert input(GuessInputConfig(config, Empty()).value) == Signalled(p);
    assert Attempt(config, input, Empty()) == Done(w);
    MergeEmptyLeft(w);
    assert w != Empty() by {
      assert "in" in w.fields;
    }
    assert Guess(config, input) == Loop(Iteration(config, input), w, 1);
    MergeWrapHasParserObject(Empty(), p);
    ParserObjectMakesGuessInput(config, w);
    assert input(GuessInputConfig(config, w).value) == Signalled(p);
    assert Attempt(config, input, w) == Done(w);
    MergeSelf(w);
    assert Loop(Iteration(config, input), w, 1) == GuessRun(Done(w), 2);
  }
}
