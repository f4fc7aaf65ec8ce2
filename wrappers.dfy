/** Optional values, construction errors and a failure-compatible result type.
    Every exception the spline constructors throw is one named `Error` variant. */
module Wrappers {

  datatype Option<+T> = None | Some(value: T)

  /** The construction failures of the spline engine, one per `runtime_error` or
      `invalid_argument` the constructors throw. */
  datatype Error =
    | TooFewVertices            // fewer than two vertices (Hermite, Kochanek-Bartels, composer)
    | TangentCountMismatch      // Hermite: not exactly two tangents per segment
    | GridSizeMismatch          // Hermite: grid and vertex counts differ
    | GridNotAscending          // Hermite: grid not strictly ascending
    | TcbCountMismatch          // Kochanek-Bartels: TCB count is not vertex count minus 2
    | RepeatedVertices          // Kochanek-Bartels: zero centripetal grid step
    | TooFewValues              // shape-preserving: fewer than two values
    | GridCountMismatch         // shape-preserving: grid and value counts differ
    | SlopeCountMismatch        // shape-preserving: slope and value counts differ
    | SlopeTooSteep             // shape-preserving: explicit slope violates the clamp
    | ValuesNotIncreasing       // monotone: values not sorted
    | ClosedNotLast             // composer: CLOSED on a vertex other than the last
    | LastTimeMissing           // composer: last vertex without a time
    | SpeedWithoutTime          // composer: speed given on a vertex without a time
    | TcbNotAllowed             // composer: non-zero TCB on an open end vertex or a closed curve's last record
    | DuplicateVertexWithoutTime // composer: missing time cannot be solved uniquely

  datatype Result<+T> = Success(value: T) | Failure(error: Error)
}
