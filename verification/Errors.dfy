/** Go error values as trees, and the two walks the repository relies on: errors.Is and errors.As. */
module Errors {
  import opened Prelude

  /** A node is a package-level sentinel, a leaf error, an error wrapping one or several others
      (fmt.Errorf with %w, errors.Join), or retry's marker stored by pointer or by value. */
  datatype Error =
    | Sentinel(kind: Kind)
    | Plain(text: string)
    | Wrapped(text: string, inner: Error)
    | Joined(errs: seq<Error>)
    | RetryableMark(byPointer: bool, marked: Option<Error>)

  datatype Kind =
    | AlreadyExists
    | NotFound
    | Unauthenticated
    | Unauthorized
    | InvalidArgument
    | Unavailable
    | RetryLimitReached
    | GracefullyShutdown
    | DeadlineExceeded
    | Canceled

  /** errors.Is(e, sentinel k): the node itself, or anything below it. */
  predicate Is(e: Error, k: Kind) {
    match e
    case Sentinel(kind) => kind == k
    case Plain(_) => false
    case Wrapped(_, inner) => Is(inner, k)
    case Joined(errs) => exists i :: 0 <= i < |errs| && Is(errs[i], k)
    case RetryableMark(_, marked) => marked.Some? && Is(marked.value, k)
  }

  /** errors.As(e, &pointer) || errors.As(e, &value) for retry's RetryableError. */
  predicate Retryable(e: Error) {
    AsMark(e, true) || AsMark(e, false)
  }

  /** errors.As for one of the two forms of the marker. */
  predicate AsMark(e: Error, byPointer: bool) {
    match e
    case Sentinel(_) => false
    case Plain(_) => false
    case Wrapped(_, inner) => AsMark(inner, byPointer)
    case Joined(errs) => exists i :: 0 <= i < |errs| && AsMark(errs[i], byPointer)
    case RetryableMark(p, marked) => p == byPointer || (marked.Some? && AsMark(marked.value, byPointer))
  }
}
