/** Shared vocabulary of the driver model: optional values, results, Go's
    fixed-width integers and the panics that end the process. */
module Base {

  datatype Option<+T> = None | Some(value: T)

  /** A failure-compatible result, so that `:-` propagates a panic. */
  datatype Result<+T, +E> = Success(value: T) | Failure(error: E) {
    predicate IsFailure() { Failure? }

    function PropagateFailure<U>(): Result<U, E>
      requires Failure?
    {
      Failure(error)
    }

    function Extract(): T
      requires Success?
    {
      value
    }
  }

  type byte = bv8

  const U64Limit: int := 0x1_0000_0000_0000_0000

  /** Go's `uint64`. */
  type u64 = x: int | 0 <= x < U64Limit

  /** The largest length a Go slice can have (`math.MaxInt` on a 64-bit platform). */
  const MaxSliceLength: nat := 0x7fff_ffff_ffff_ffff

  /** Which analysis pass of the library reported an error. */
  datatype AnalysisError = ReachingAnalysisError | ExpressionBuildError

  /** The ways the driver terminates the process. */
  datatype Panic =
    | IndexOutOfRange(index: u64, length: nat)      // Go runtime error on `s[i]`
    | NoCodeEntryPoint                              // "no code entrypoint found in ctor"
    | EntryPointOutsideCode(entry: u64, length: nat) // "code entrypoint outside of currently available code"
    | AnalysisFailed(cause: AnalysisError)          // "Error performing reaching analysis" / "Error building expressions"
}
