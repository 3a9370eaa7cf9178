/**
 * JSON values as org.json, Jackson and JSONSerialization hand them to the modules,
 * and the two ways the source reads a string member out of an object.
 */
module Json {
  import opened Wrappers
  import opened Text

  /** A JSON value. Numbers are integers here. */
  datatype Value =
    | JString(str: string)
    | JNumber(num: int)
    | JBool(flag: bool)
    | JNull
    | JArray(items: seq<Value>)
    | JObject(fields: map<string, Value>)

  /** Swift's `dictionary[key] as? String`: present only for a member holding a string. */
  function StringMember(fields: map<string, Value>, key: string): (r: Option<string>)
    ensures r.Some? <==> key in fields && fields[key].JString?
    ensures r.Some? ==> fields[key] == JString(r.value)
  {
    if key in fields && fields[key].JString? then Some(fields[key].str) else None
  }

  /**
   * org.json's `JSONObject.getString(key)`: throws (here: none) when the key is
   * missing, and otherwise coerces the member to text; `compact` is the text
   * org.json prints for a nested array or object.
   */
  function CoercedStringMember(fields: map<string, Value>, key: string, compact: Value -> string): (r: Option<string>)
    ensures r.Some? <==> key in fields
    ensures key in fields && fields[key].JString? ==> r == Some(fields[key].str)
  {
    if key !in fields then None
    else
      match fields[key]
      case JString(s) => Some(s)
      case JNumber(n) => Some(IntToString(n))
      case JBool(b) => Some(if b then "true" else "false")
      case JNull => Some("null")
      case JArray(_) => Some(compact(fields[key]))
      case JObject(_) => Some(compact(fields[key]))
  }

  /** Where Swift's cast refuses a member, org.json may still read it: the string readings agree whenever Swift's succeeds. */
  lemma StrictReadingImpliesLenient(fields: map<string, Value>, key: string, compact: Value -> string)
    ensures StringMember(fields, key).Some? ==> CoercedStringMember(fields, key, compact) == StringMember(fields, key)
    ensures key in fields && fields[key] == JNumber(0) ==>
      StringMember(fields, key).None? && CoercedStringMember(fields, key, compact) == Some("0")
  {
  }

  /** A list of names as a JSON array's items, in order. */
  function Strings(names: seq<string>): (r: seq<Value>)
    ensures |r| == |names| && forall i :: 0 <= i < |r| ==> r[i] == JString(names[i])
  {
    if |names| == 0 then [] else [JString(names[0])] + Strings(names[1..])
  }
}
