/** Outcomes of one guess attempt and of the input transaction it drives.
    The exceptions of the guess executor become values here. */
module Outcomes {
  import Configs

  /** Failures raised inside the input transaction: by the guess parser
      stage while sampling, or by a plugin. */
  datatype StageError =
    | NoInputBuffer                // the sample collected zero bytes
    | AllocationError              // the sample buffer was given a negative size
    | BoundsError                  // a chunk was copied past the sample's capacity
    | PluginError(message: string) // raised by the input plugin or a guess strategy

  /** What can end the guess loop without a configuration. */
  datatype GuessError =
    | AssertionFault               // the transaction returned without the guess signal
    | ConfigError(key: string)     // `key` of the guess configuration is not an object
    | StageFailed(cause: StageError)

  datatype Outcome<T, E> = Done(value: T) | Fail(error: E)

  /** How the input plugin's `runInputTransaction` ends: by the guess signal
      (`GuessedNoticeError`) carrying a parser configuration, by returning
      normally, or by a failure of its own. */
  datatype TransactionResult =
    | Signalled(parserConfig: Configs.Config)
    | Completed
    | Failed(error: StageError)
}
