/** The value `response.json()` hands to the validator: a decoded JSON
    document. JSON numbers are JavaScript doubles; they are modelled as
    reals, so a fractional number stays fractional. */
module Json {

  datatype Value =
    | JNull
    | JBool(b: bool)
    | JNumber(n: real)
    | JString(s: string)
    | JArray(items: seq<Value>)
    | JObject(fields: map<string, Value>)

  /** JavaScript's `typeof v === "object"`, which holds of null and of
      arrays as well as of objects. */
  predicate IsTypeofObject(v: Value): (r: bool)
    ensures v.JNull? ==> r
    ensures v.JArray? ==> r
    ensures v.JObject? ==> r
    ensures v.JBool? || v.JNumber? || v.JString? ==> !r
  {
    v.JNull? || v.JArray? || v.JObject?
  }

  /** The named properties JavaScript's `k in v` can find on an object or an
      array. An array's own keys are its indices and `length`, which are
      never the names the validator asks for, so none are listed. */
  function Properties(v: Value): (r: map<string, Value>)
    requires IsTypeofObject(v) && !v.JNull?
    ensures v.JObject? ==> r == v.fields
    ensures v.JArray? ==> r == map[]
  {
    if v.JObject? then v.fields else map[]
  }
}
