/** QJsonObject as used by the hardware, container and audio tabs: a map from
    keys to string or integer values. */
module Json {

  datatype Value = Str(s: string) | Int(i: int)

  type Object = map<string, Value>

  /** `obj[key].toString()`: the string stored under `key`, or the empty
      string when the key is absent or holds a number. */
  function GetString(obj: Object, key: string): string
  {
    if key in obj && obj[key].Str? then obj[key].s else ""
  }
}
