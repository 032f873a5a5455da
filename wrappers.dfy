/** Optional values: `undefined`/`null` in the source become `None`. */
module Wrappers {

  datatype Option<+T> = None | Some(value: T) {

    /** The value, or `default` when absent (the source's `x || default` on objects that are always truthy). */
    function GetOr(default: T): T {
      match this
      case Some(v) => v
      case None => default
    }
  }

  /** JavaScript truthiness of a nullable number: present and not zero. */
  predicate TruthyNumber(o: Option<int>) {
    o.Some? && o.value != 0
  }

  /** JavaScript truthiness of an optional string: present and not empty. */
  predicate TruthyString(o: Option<string>) {
    o.Some? && o.value != ""
  }
}
