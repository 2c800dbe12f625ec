/** Optional values and error results shared by every module of the model.
    `None` stands for Python's `None` (or a pandas null), `Err` for a raised exception. */
module Wrappers {

  datatype Option<+T> = None | Some(value: T) {
    function GetOr(default: T): T {
      match this
      case Some(v) => v
      case None => default
    }
  }

  /** The exceptions the modelled code raises (or lets escape). */
  datatype Error = IndexError | ValueError | KeyError | TypeError | NameError

  datatype Result<+T> = Ok(value: T) | Err(error: Error)
}
