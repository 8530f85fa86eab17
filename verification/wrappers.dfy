/** Option and Result: the null pointer and the Arrow Status/Result of the modelled code. */
module Wrappers {

  /** An Arrow `shared_ptr` that may be null: None stands for `nullptr`. */
  datatype Option<+T> = None | Some(value: T) {

    /** The value, or `default` when null (std::optional::value_or). */
    function GetOr(default: T): T {
      match this
      case Some(v) => v
      case None => default
    }
  }

  /** An Arrow `Result<T>`: a value, or an error status with a message. */
  datatype Result<+T> = Ok(value: T) | Err(msg: string)
}
