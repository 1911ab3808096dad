/** Failure-carrying results shared by the modules of this model.
    A Go function that returns `(value, error)`, or that ends the process
    through `log.Fatal`, is modelled as returning a `Result`. */
module Outcomes {

  datatype Result<+T, +E> = Ok(value: T) | Err(error: E)

  datatype Option<+T> = None | Some(value: T)
}
