/** Go's `error` values as this model sees them: an optional error, carrying its message. */
module Errors {

  /** Some(e) is a non-nil Go error, None is nil. */
  datatype Option<+T> = None | Some(value: T)

  /** A Go `error`: the only thing the package observes of one is its `Error()` message. */
  datatype Error = Error(message: string)
}
