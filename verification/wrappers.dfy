/** The optional value used for cells that may fail to parse. */
module Wrappers {

  /** `None` stands for a value pandas could not parse (NaT for a time, NaN for a number). */
  datatype Option<+T> = None | Some(value: T) {

    /** The value, or `default` when there is none (pandas' `fillna(default)`). */
    function GetOr(default: T): T {
      match this
      case Some(v) => v
      case None => default
    }
  }
}
