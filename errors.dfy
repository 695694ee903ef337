/** The error values the rotator raises, and the wrappers the model returns
    them in. Both of the source's failures are a `ValueError`; the model keeps
    the input that caused each one. */
module Errors {

  datatype Error =
    /** No `SIG<name>` attribute exists in the platform's signal table. */
    | NoSuchSignal(name: string)
    /** The size string does not match the size grammar. */
    | SizeMismatch(input: string)

  datatype Result<T> = Success(value: T) | Failure(error: Error)

  datatype Option<T> = None | Some(value: T)
}
