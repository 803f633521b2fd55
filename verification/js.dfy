/** Nullable column values and the JavaScript `||` / truthiness rules the pages apply to them. */
module Js {

  /** A column or property that may be `null`/`undefined`. */
  datatype Option<T> = None | Some(value: T)

  /** A string is truthy when it is present and not empty. */
  predicate StrTruthy(o: Option<string>)
  {
    o.Some? && o.value != ""
  }

  /** `o || fallback` for a nullable string. */
  function StrOr(o: Option<string>, fallback: string): (r: string)
    ensures StrTruthy(o) ==> r == o.value
    ensures !StrTruthy(o) ==> r == fallback
  {
    if StrTruthy(o) then o.value else fallback
  }

  /** `n || fallback` for a nullable number: `null` and `0` both give the fallback. */
  function IntOr(o: Option<int>, fallback: int): (r: int)
    ensures o.Some? && o.value != 0 ==> r == o.value
    ensures o.None? || o.value == 0 ==> r == fallback
  {
    if o.Some? && o.value != 0 then o.value else fallback
  }

  /** A nullable boolean is truthy only when it is `true`. */
  predicate BoolTruthy(o: Option<bool>)
  {
    o == Some(true)
  }

  /** `s || null`: the empty string is stored as `null`. */
  function EmptyToNull(s: string): (r: Option<string>)
    ensures r.None? <==> s == ""
    ensures r.Some? ==> r.value == s
  {
    if s == "" then None else Some(s)
  }

  /** `xs?.[0] || fallback` for a nullable list of strings. */
  function FirstOr(o: Option<seq<string>>, fallback: string): (r: string)
    ensures o.Some? && o.value != [] && o.value[0] != "" ==> r == o.value[0]
    ensures o.None? || o.value == [] || o.value[0] == "" ==> r == fallback
  {
    if o.Some? && o.value != [] && o.value[0] != "" then o.value[0] else fallback
  }

  /** `Number(n)` for a nullable integer column: `null` converts to 0. */
  function NumberOf(o: Option<int>): (r: int)
    ensures o.Some? ==> r == o.value
    ensures o.None? ==> r == 0
  {
    if o.Some? then o.value else 0
  }
}
