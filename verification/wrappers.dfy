/**
 * Optional values, used wherever the Rust code returns an `Option`, and
 * outcomes, wherever it returns an `anyhow::Result` whose error is only
 * passed on.
 */
module Wrappers {
  datatype Option<T> = None | Some(value: T)
  {
    function UnwrapOr(default: T): T
    {
      match this
      case None => default
      case Some(v) => v
    }
  }

  datatype Result<T> = Ok(value: T) | Err
}
