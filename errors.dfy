/** Failure values and the Option/Result wrappers shared by every module. */
module Errors {

  datatype Option<+T> = None | Some(value: T)

  /** Every way the core can abort, one variant per kind of abort; the message text
      itself is not modelled. */
  datatype Error =
    // Source and Input parsing
    | UnknownScheme(scheme: string)
    | MissingFilename
    | UrlWithoutFilename
    | EmptyFilename
    // the pin list
    | NoPinsConfigured
    | FileSourceInPins
    | UrlSourceInPins
    // resolving one pin against its repository
    | RepoDoesNotExist(path: string)
    | OpenFailed
    | NoTagConfigured
    | TagNotFound(refName: string)
    | NotAnObjectId(refName: string)
    | TagNotPeeled(refName: string)
    // rewriting the manifest
    | CommitWithoutPins
    | TagWithoutPins

  /** The program's `Result<T>`: a value or the error that stopped it. */
  datatype Result<+T> = Ok(value: T) | Err(error: Error) {
    predicate IsFailure() { Err? }

    function PropagateFailure<U>(): Result<U>
      requires Err?
    {
      Err(error)
    }

    function Extract(): T
      requires Ok?
    {
      value
    }
  }
}
