/** Option and Result types shared by the whole model.
    `Option` stands for the nullable columns and JavaScript `null`/`undefined`;
    `Result` for a backend answer that carries a value or an error message. */
module Wrappers {

  datatype Option<+T> = None | Some(value: T) {

    /** The value, or `default` when absent. */
    function GetOr(default: T): T {
      match this
      case Some(v) => v
      case None => default
    }
  }

  datatype Result<+T> = Ok(value: T) | Err(message: string)

  /** The backend's answer to a write (update, insert without a returned row, delete, upload). */
  datatype Reply = Accepted | Refused(message: string)
}
