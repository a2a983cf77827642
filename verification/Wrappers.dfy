// What stands for tally-cpp's optional members, lookups that can miss and operations that
// can throw.
module Wrappers {

  datatype Option<+T> = None | Some(value: T) {

    function GetOr(default: T): T {
      match this
      case Some(v) => v
      case None => default
    }
  }
}
