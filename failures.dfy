/** The two exceptions the frame walk can raise on its own input. */
module Failures {

  /** `ValueError` from unpacking a manifest line into three names, with the
      number of fields found; `IndexError` from taking component 7 of a
      key-frame path, with the number of components found. */
  datatype Error = UnpackError(fields: nat) | IndexError(components: nat)

  datatype Result<T> = Ok(value: T) | Err(error: Error)

  datatype Option<T> = None | Some(value: T)
}
