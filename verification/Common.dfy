/** Result types shared by the other modules: the source's pointers that may be nil and its error returns. */
module Common {
  datatype Option<+T> = None | Some(value: T)

  /** An error as far as callers tell errors apart: OCI "not found", "not cached", or anything else.
      `NilDereference` stands for the panic where the source follows a nil pointer. */
  datatype Error = NotFound | NotCached | NilDereference | Failure(message: string)

  datatype Result<+T> = Ok(value: T) | Err(error: Error)
}
