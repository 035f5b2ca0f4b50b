/** Go's `error` values as they flow through the service, and the
    `(bool, error)` pair both repository lookups and the service return. */
module Errors {
  import opened Wrappers
  import opened Validation

  /** An error is either a rejected input or a failure of a code source
      (a file that cannot be opened or read, an error a mock was given). */
  datatype Error = Invalid(reason: ValidationError) | Source(description: string)

  /** A `(bool, error)` result; `err == None` is Go's nil error. */
  datatype Answer = Answer(value: bool, err: Option<Error>)

  /** A lookup that failed reports `false` alongside its error. */
  ghost predicate Settled(a: Answer) {
    a.err.Some? ==> !a.value
  }
}
