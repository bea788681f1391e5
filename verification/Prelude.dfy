/** Definitions shared by the models of the Darkhan services. */
module Prelude {

  /** A JavaScript or SQL value that may be null. */
  datatype Option<+T> = None | Some(value: T)

  /** JavaScript's `v || d` on a nullable string: null and the empty string are falsy. */
  function OrElse(v: Option<string>, d: string): string {
    if v.Some? && v.value != "" then v.value else d
  }

  predicate StartsWith(s: string, prefix: string) {
    |prefix| <= |s| && s[..|prefix|] == prefix
  }

  function Max(a: int, b: int): int {
    if a < b then b else a
  }
}
