/**
 * The arguments of the generated `copy(...)` helpers. A `CopiableProp`
 * argument is either `.copy` (`None`: keep the field) or a new value; a
 * `NullableCopiableProp` argument of an optional field may also set it to
 * `nil` (`Some(None)`). Swift's `??` between the argument and the current
 * field is `GetOr`.
 */
module Codegen {
  import opened Wrappers

  type CopiableProp<T> = Option<T>

  type NullableCopiableProp<T> = Option<Option<T>>

  /** The argument that supplies whichever of two arguments is supplied, `later` first. */
  function Override<T>(earlier: Option<T>, later: Option<T>): (r: Option<T>)
    ensures r.Some? <==> earlier.Some? || later.Some?
    ensures later.Some? ==> r == later
    ensures later.None? ==> r == earlier
  {
    if later.Some? then later else earlier
  }

  /** Copying with `earlier` and then with `later` takes the field from `Override(earlier, later)`. */
  lemma OverrideGetOr<T>(earlier: Option<T>, later: Option<T>, field: T)
    ensures later.GetOr(earlier.GetOr(field)) == Override(earlier, later).GetOr(field)
  {
  }
}
