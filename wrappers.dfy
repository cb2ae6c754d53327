/** Optional values: JavaScript's `undefined`/`null` and the NaN of a failed
    number parse are both modelled as `None`. */
module Wrappers {

  datatype Option<+T> = None | Some(value: T) {

    /** The `??` operator: this value unless it is absent. */
    function OrElse(other: Option<T>): Option<T> {
      if Some? then this else other
    }
  }
}
