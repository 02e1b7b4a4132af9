/** Optional values: TypeScript's `T | undefined` (and `T | null`) as used by the forms. */
module Wrappers {

  datatype Option<+T> = None | Some(value: T) {

    /** The `??` operator: the held value, or `default` when there is none. */
    function GetOr(default: T): T {
      match this
      case Some(v) => v
      case None => default
    }
  }
}
