/**
 The handful of JavaScript value behaviours the model relies on:
 - `Option<T>` stands for a nullable column (`T | null`),
 - `Patch<T>` stands for one key of a `Partial<...>` object (absent or present),
 - `Num` is the coercion JavaScript applies to `null` in `+` and `<`.
 */
module JsValues {

  /** A nullable value: `None` is JavaScript's `null`. */
  datatype Option<+T> = None | Some(value: T) {

    /** The wrapped value, or `default` when null. */
    function GetOr(default: T): T {
      match this
      case Some(v) => v
      case None => default
    }
  }

  /** One key of a partial object: `Keep` when the key is absent, `Set(v)` when present. */
  datatype Patch<+T> = Keep | Set(value: T) {

    /** The value of the key after `{ ...prev, ...patch }`. */
    function Apply(prev: T): T {
      match this
      case Set(v) => v
      case Keep => prev
    }

    /** The single patch equivalent to applying `this` and then `later`. */
    function Then(later: Patch<T>): Patch<T> {
      if later.Set? then later else this
    }
  }

  /** `null` read as a number (`null + 1 == 1`, `x < null` is `x < 0`). */
  function Num(n: Option<int>): int {
    n.GetOr(0)
  }

  /** A nullable counter after `counter + 1` is written back. */
  function Incremented(n: Option<int>): (r: Option<int>)
    ensures r.Some? && Num(r) == Num(n) + 1
  {
    Some(Num(n) + 1)
  }
}
