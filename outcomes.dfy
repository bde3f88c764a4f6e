/** Optional values and pass/fail outcomes used by the packager model. */
module Outcomes {

  datatype Option<T> = None | Some(value: T)

  /** The result of a build step: it passes, or it fails with an error that the
      program would raise as an exception. */
  datatype Outcome<E> = Pass | Fail(error: E)
}
