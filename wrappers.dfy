/** Optional values and failures, standing in for `None` results and raised exceptions. */
module Wrappers {
  datatype Option<T> = None | Some(value: T)

  /** The exceptions the modelled code can raise. `QueueFull` and `QueueEmpty`
      stand for the plain `Exception`s the queue raises with those messages. */
  datatype Error = IndexError | AttributeError | ValueError | AssertionError | QueueFull | QueueEmpty

  datatype Result<T> = Success(value: T) | Failure(error: Error)
}
