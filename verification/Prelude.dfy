/** Shapes shared by every module of the model. */
module Prelude {
  datatype Option<+T> = None | Some(value: T) {
    function GetOr(default: T): T {
      match this
      case Some(v) => v
      case None => default
    }
  }

  /** The structured error codes the modelled code branches on (pkg/errors). */
  datatype Code = NotFound | Internal | Unavailable | InvalidRequest

  /** A Go `error` result: nil, or an error carrying a code. */
  datatype Verdict = Pass | Fail(code: Code)
}
