/** Optional values and success/failure values, standing in for Python's
    `None` and for a call that may raise. */
module Results {

  datatype Option<+T> = None | Some(value: T)

  datatype Result<+T, +E> = Success(value: T) | Failure(error: E)
}
