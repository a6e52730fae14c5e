/** Small building blocks every other module uses: an optional value, for
    JavaScript's `undefined` and the `??` operator, and integer minimum and
    maximum, for `Math.min` and `Math.max`. */
module Basics {
  datatype Option<+T> = None | Some(value: T) {
    /** The `??` operator: the carried value, or the default when absent. */
    function GetOr(default: T): T {
      match this
      case Some(v) => v
      case None => default
    }
  }

  function Min(a: int, b: int): int { if a < b then a else b }
  function Max(a: int, b: int): int { if a > b then a else b }
}
