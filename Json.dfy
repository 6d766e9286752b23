/**
  The JSON substrate the codec sits on: values, string-keyed dictionaries
  (Swift's `[String: Any]`), byte payloads (`Data`), and Foundation's
  `JSONSerialization` as far as Data+JSON.swift uses it.
 */
module Json {
  import opened Wrappers

  newtype byte = x: int | 0 <= x < 256

  /** A serialised JSON payload (Swift's `Data`). */
  type Bytes = seq<byte>

  /** A JSON value, standing for the `Any` in `[String: Any]`. */
  datatype Json =
    | JNull
    | JBool(b: bool)
    | JNumber(n: real)
    | JString(s: string)
    | JArray(items: seq<Json>)
    | JObject(fields: map<string, Json>)

  /** A JSON object: what Firestore stores as a document's data. */
  type Dict = map<string, Json>

  /**
    `JSONSerialization`, treated as a black box:
    `jsonObject` is `Data.JSONDictonary` (parse, then `as? [String: Any]`;
    `None` on a parse error and on a payload that is not an object), and
    `data` is `Dictionary.JSONData` (`None` when the dictionary cannot be
    serialised).
   */
  datatype Serialization = Serialization(
    jsonObject: Bytes -> Option<Dict>,
    data: Dict -> Option<Bytes>)
}
