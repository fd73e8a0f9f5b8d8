/** Shared vocabulary: identifiers and optional values. */
module Base {

  /**
   Configuration items, events, results and idempotency digests are compared for
   equality only, so a number stands for each identifier.
   */
  type Id = nat

  datatype Option<+T> = None | Some(value: T)

  /** A value that is NULL in the source falls back to a default. */
  function Coalesce<T>(first: Option<T>, second: Option<T>): Option<T>
  {
    if first.Some? then first else second
  }
}
