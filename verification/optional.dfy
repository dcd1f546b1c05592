/** Option and Result: a value that may be absent (the source's `null`)
    and a value-or-error (the source's thrown errors). */
module Optional {

  datatype Option<+T> = None | Some(value: T)

  datatype Result<+R, +E> = Success(value: R) | Failure(error: E)
}
