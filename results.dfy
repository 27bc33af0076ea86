/** Option and Result values, used where the pipeline either yields a value or reports why not. */
module Results {

  datatype Option<+T> = None | Some(value: T)

  datatype Result<+T, +E> = Success(value: T) | Failure(error: E)
}
