/** Small result types shared by the model. */
module Outcomes {

  /** An optional value: a lookup that may find nothing, or an external call
      that may not have been issued. */
  datatype Option<T> = None | Some(value: T)

  /** The abstract result of a call into an external service: the value it
      produced, or a failure whose detail the application never shows. */
  datatype Outcome<T> = Ok(value: T) | Err
}
