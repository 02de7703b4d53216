/** Nullable columns and the clock. */
module Options {
  /** A nullable column: NULL or a value. */
  datatype Option<+T> = None | Some(value: T)

  /** An instant or a duration, in nanoseconds. */
  type Time = int

  const SECOND: int := 1_000_000_000

  /** SQL `COALESCE(first, second)`. */
  function Coalesce<T>(first: Option<T>, second: Option<T>): Option<T> {
    if first.Some? then first else second
  }
}
