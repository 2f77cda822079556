/**
 * Failure-carrying shapes shared by every module of the model. Java's
 * nullable references become `Option`, and thrown exceptions become the
 * `Failure` side of a `Result`.
 */
module Common {

  datatype Option<+T> = None | Some(value: T)

  datatype Result<+T, +E> = Success(value: T) | Failure(error: E)
}
