/** Optional values: TypeScript's `T | undefined` and `T | null`. */
module Wrappers {

  datatype Option<+T> = None | Some(value: T) {

    /**
     * The value held, or `default` when there is none. The gallery reads
     * `x || 0`, which also maps a stored 0 to the default; with the default 0
     * on a `nat` the two readings agree.
     */
    function GetOr(default: T): T
    {
      match this
      case Some(v) => v
      case None => default
    }
  }
}
