/**
  The JSON tree used by every component (Qt's QJsonValue / QJsonObject /
  QJsonArray), with numbers restricted to integers, and the lenient
  conversions of QJsonValue: each returns the caller's default when the
  value has another type.
 */
module JsonValue {

  datatype Json =
    | JObj(fields: map<string, Json>)
    | JArr(items: seq<Json>)
    | JStr(str: string)
    | JInt(num: int)
    | JBool(b: bool)
    | JNull

  /** QJsonObject */
  type Object = map<string, Json>

  /** QJsonObject::value(key) and the const operator[]: a missing key reads
      as an undefined value, which every conversion below treats like null. */
  function Lookup(obj: Object, key: string): Json {
    if key in obj then obj[key] else JNull
  }

  /** QJsonValue::toString(default) */
  function ToStringOr(v: Json, default: string): string {
    if v.JStr? then v.str else default
  }

  /** QJsonValue::toInt(default) */
  function ToIntOr(v: Json, default: int): int {
    if v.JInt? then v.num else default
  }

  /** QJsonValue::toBool(default) */
  function ToBoolOr(v: Json, default: bool): bool {
    if v.JBool? then v.b else default
  }

  /** QJsonValue::toObject(): an empty object for anything but an object. */
  function ToObject(v: Json): Object {
    if v.JObj? then v.fields else map[]
  }

  /** QJsonValue::toArray(): an empty array for anything but an array. */
  function ToArray(v: Json): seq<Json> {
    if v.JArr? then v.items else []
  }

  /** The JSON array holding the given strings, in order. */
  function StringArray(xs: seq<string>): (r: seq<Json>)
    ensures |r| == |xs| && forall i :: 0 <= i < |xs| ==> r[i] == JStr(xs[i])
  {
    seq(|xs|, i requires 0 <= i < |xs| => JStr(xs[i]))
  }
}
