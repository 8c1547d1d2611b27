/** Optional values, results, and the exceptions the gateway can raise. */
module Outcomes {

  /** A value that may be absent: a missing header, a missing dictionary key. */
  datatype Option<+T> = None | Some(value: T)

  /** Either the value a handler returns or the exception it raises. */
  datatype Result<+R, +E> = Success(value: R) | Failure(error: E)

  /** The exceptions the modelled code raises.
      Unauthenticated stands for every `raise UnauthenticatedError(...)`: the class's
      constructor accepts no message, so every such call site actually fails with a
      constructor error, and the model keeps them as one abstract rejection without a
      status code. KeyMissing is the error raised when a dictionary lookup finds no such
      key. ValueError is raised by the callback's userinfo guard and by decoding a body
      that is not JSON. */
  datatype Failure = Unauthenticated | KeyMissing(key: string) | ValueError
}
