/** Optional values, used both for TypeScript's optional fields (`x?: T`) and
    for the fields of a `Partial<T>` update. */
module Wrappers {

  datatype Option<+T> = None | Some(value: T) {

    /** The wrapped value, or `default` when there is none (JavaScript's `x || default`
        for values that are either absent or meaningful). */
    function GetOr(default: T): T {
      match this
      case Some(v) => v
      case None => default
    }
  }

  /** One field of the shallow object spread `{ ...current, ...patch }`:
      a field present in the patch wins, an absent one keeps the current value. */
  function Pick<T>(patch: Option<T>, current: T): (r: T)
    ensures patch.Some? ==> r == patch.value
    ensures patch.None? ==> r == current
  {
    patch.GetOr(current)
  }

  /** Sequential composition of two patches of one field: applying `first` and then
      `second` is the same as applying `Then(first, second)`. */
  function Then<T>(first: Option<T>, second: Option<T>): Option<T> {
    if second.Some? then second else first
  }

  lemma ThenPick<T>(first: Option<T>, second: Option<T>, current: T)
    ensures Pick(Then(first, second), current) == Pick(second, Pick(first, current))
  {
  }
}
