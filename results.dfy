/** Outcome types shared by every part of the pipeline.

    The library returns Go's `(string, error)` pair. On every error path of the
    core the string half is `""`, so the pair is modelled as a `Result` whose
    failure carries only the error. Errors are tagged variants rather than
    formatted messages; each variant names the place that produces it.
 */
module Results {

  datatype Option<+T> = None | Some(value: T)

  datatype Result<+T> = Ok(value: T) | Err(error: Error)

  datatype Error =
      /** A map-backed property source lacks the name ("property not available"). */
    | PropertyNotAvailable
      /** Interpolation failed on `text` (the template as it stood when the failing
          declaration was reached) because the property source answered `cause`. */
    | Interpolating(text: string, cause: Error)
      /** The key path was used up while still at a branch of the tree. */
    | IncompletePath
      /** A path segment is missing, or the path goes on past a leaf. */
    | NotFound
      /** Translating `key` failed because of `cause`. */
    | Translating(key: string, cause: Error)
      /** An error produced by a caller-supplied function component. */
    | Custom(message: string)
}
