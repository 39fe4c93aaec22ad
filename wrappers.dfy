/** The optional value used for JavaScript's `null`/`undefined` fields. */
module Wrappers {

  datatype Option<+T> = None | Some(value: T)

  /** A JavaScript string field read with `||`: absent and empty both count as missing. */
  predicate Present(o: Option<string>) {
    o.Some? && o.value != ""
  }

  /** `o || d` for a string-valued field. */
  function OrElse(o: Option<string>, d: string): string {
    if Present(o) then o.value else d
  }
}
