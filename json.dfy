/** JSON values as `serde_json::Value` holds them, at the value level: no text,
    no key order (a `serde_json::Map` is a map from keys to values). */
module JsonValues {

  /** Rust's `i32`. */
  newtype I32 = x: int | -0x8000_0000 <= x < 0x8000_0000

  /** A floating-point number, kept as an opaque token: the model never computes with
      floats, it only carries them from where they are made to where they are rendered. */
  datatype Float = Float(token: string)

  datatype Json =
    | JNull
    | JBool(b: bool)
    | JInt(i: int)
    | JFloat(f: Float)
    | JString(s: string)
    | JArray(items: seq<Json>)
    | JObject(fields: map<string, Json>)
}
