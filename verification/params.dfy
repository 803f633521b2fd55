/** The URL query string of the browse pages as a map from parameter name to value, and the
    `updateSearchParams` rule that the marketplace and jobs pages share. */
module SearchParams {

  type Params = map<string, string>

  /** `searchParams.get(key) || fallback`: an absent or empty parameter reads as the fallback. */
  function Get(p: Params, key: string, fallback: string): (r: string)
    ensures key in p && p[key] != "" ==> r == p[key]
    ensures key !in p || p[key] == "" ==> r == fallback
  {
    if key in p && p[key] != "" then p[key] else fallback
  }

  /** Whether `updateSearchParams` keeps a value: non-empty and not the "all" placeholder. */
  predicate KeepsValue(value: string)
  {
    value != "" && value != "all"
  }

  /** The parameters after `updateSearchParams(key, value)`: `set` for a kept value,
      `delete` otherwise; every other key is left exactly as it was. */
  function WithParam(p: Params, key: string, value: string): (r: Params)
    ensures KeepsValue(value) ==> key in r && r[key] == value
    ensures !KeepsValue(value) ==> key !in r
    ensures forall k :: k != key ==> (k in r <==> k in p)
    ensures forall k :: k != key && k in p ==> r[k] == p[k]
  {
    if KeepsValue(value) then p[key := value] else p - {key}
  }

  /** Reading a parameter back after updating it gives the value set, or the fallback
      when the update removed it. */
  lemma GetAfterWithParam(p: Params, key: string, value: string, fallback: string)
    ensures Get(WithParam(p, key, value), key, fallback) == if KeepsValue(value) then value else fallback
  {
  }

  /** Setting a parameter to "all" or to "" reads back as the page default "all". */
  lemma ResetReadsAsAll(p: Params, key: string, value: string)
    requires value == "" || value == "all"
    ensures Get(WithParam(p, key, value), key, "all") == "all"
  {
  }
}
