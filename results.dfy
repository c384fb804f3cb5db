/** Failure-carrying values for the converter: Python's None and raised exceptions. */
module Results {

  /** A value that may be absent (Python's `None`). */
  datatype Option<+T> = None | Some(value: T)

  /** Either a value or the exception the operation raises. */
  datatype Result<+R> = Success(value: R) | Failure(error: Error)

  /** The exceptions the converter core can raise. */
  datatype Error =
    | ConfigurationError      // `ValueError("Set _output_extension value")`
    | FileNotFound(path: string)  // `FileNotFoundError` from `read_input_file`
    | NotImplemented          // `NotImplementedError` from the base `convert`
    | UnknownFormat(selector: string)  // `KeyError` on the dispatch table
}
