/** Parsed JSON values, for the fields the source reads without a declared
    type (post content, report references). */
module Json {
  import opened Wrappers

  /** A JSON value. Numbers are integers; objects map member names to values. */
  datatype Json =
    | Null
    | Bool(b: bool)
    | Num(n: int)
    | Str(s: string)
    | Arr(items: seq<Json>)
    | Obj(fields: map<string, Json>)

  /** JavaScript falsiness of a JSON value: `null`, `false`, `0` and `''`. */
  predicate Falsy(j: Json) {
    j == Null || j == Bool(false) || j == Num(0) || j == Str("")
  }

  /** `j?.key`: the member of an object, `undefined` (None) for anything else. */
  function Member(j: Json, key: string): (r: Option<Json>)
    ensures r.Some? <==> j.Obj? && key in j.fields
    ensures r.Some? ==> r.value == j.fields[key]
  {
    if j.Obj? && key in j.fields then Some(j.fields[key]) else None
  }

  /** `j?.[0]` on an array: its first element, `undefined` (None) otherwise. */
  function First(j: Option<Json>): (r: Option<Json>)
    ensures r.Some? <==> j.Some? && j.value.Arr? && |j.value.items| > 0
    ensures r.Some? ==> r.value == j.value.items[0]
  {
    if j.Some? && j.value.Arr? && |j.value.items| > 0 then Some(j.value.items[0]) else None
  }

  /** `j?.key` read as a string: present only when the member is a JSON string. */
  function StringMember(j: Option<Json>, key: string): (r: Option<string>)
    ensures r.Some? <==> j.Some? && Member(j.value, key).Some? && Member(j.value, key).value.Str?
    ensures r.Some? ==> Member(j.value, key) == Some(Str(r.value))
  {
    if j.Some? && Member(j.value, key).Some? && Member(j.value, key).value.Str?
    then Some(Member(j.value, key).value.s)
    else None
  }
}
