/** Helpers shared by the model. */
module Wrappers {
  datatype Option<+T> = None | Some(value: T) {
    function GetOr(default: T): T {
      match this
      case Some(v) => v
      case None => default
    }
  }

  function Min(x: nat, y: nat): nat {
    if x < y then x else y
  }
}
