/** Option and Result, the two failure-carrying datatypes the model uses for
    Swift's optionals and for `Result<Data, Error>`. */
module Wrappers {

  datatype Option<+T> = None | Some(value: T)

  datatype Result<+R, +E> = Success(value: R) | Failure(error: E)
}
