/** The optional value and the write outcome shared by the model. */
module Wrappers {

  /** A nullable column or optional argument: `None` stands for SQL NULL / Python `None`. */
  datatype Option<+T> = None | Some(value: T)

  /** The outcome of a database write: the stored row, or the error the database raises. */
  datatype Result<+T, +E> = Success(value: T) | Failure(error: E)
}
