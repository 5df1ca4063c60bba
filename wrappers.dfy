// Small generic wrappers shared by every module: an optional value and a
// value-or-error result (the model's stand-in for a raised exception).
module Wrappers {
  datatype Option<T> = None | Some(value: T)
  {
    function GetOr(dflt: T): T
    {
      match this
      case None => dflt
      case Some(v) => v
    }
  }

  datatype Result<T, E> = Ok(value: T) | Err(error: E)
}
