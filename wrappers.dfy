/** Optional values: JavaScript's `undefined` / `null` results. */
module Wrappers {
  datatype Option<+T> = None | Some(value: T) {
    /** The value, or `default` when absent (JavaScript's `x ?? default`). */
    function GetOr(default: T): T {
      match this
      case Some(v) => v
      case None => default
    }
  }

  /** `text || fallback`: an empty or missing text takes the fallback. */
  function TextOr(text: Option<string>, fallback: string): (r: string)
    ensures text.Some? && text.value != "" ==> r == text.value
    ensures text.None? || text.value == "" ==> r == fallback
  {
    if text.Some? && text.value != "" then text.value else fallback
  }
}
