/** Flat JSON values, as exchanged between the backend and the device. */
module Json {

  datatype JsonValue =
    | JNull
    | JBool(b: bool)
    | JNum(n: real)
    | JStr(s: string)

  /** A JSON object: a key maps to its value; a key that is not in the map is absent. */
  type JsonObject = map<string, JsonValue>
}
