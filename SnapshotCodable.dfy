/**
  The key-splicing codec of a `SnapshotCodable` record type `T`.

  A record carries its Firestore document key in a `key` property, but the
  document stores only the other fields: `JSONDictionary` strips the `"key"`
  entry from the encoded record, and `CreateFromDictionary` writes the
  document ID back under `"key"` before decoding.
 */
module SnapshotCodable {
  import opened Wrappers
  import opened Json

  /** The entry that holds the record's key. */
  const KeyField: string := "key"

  /**
    The `Codable` conformance of one record type, treated as a black box:
    `encode` is `JSONData` (`try? JSONEncoder().encode(self)`), `decode` is
    `createFromJSONData` (`try? JSONDecoder().decode(Self.self, from:)`),
    and `key` reads the record's `key` property.
   */
  datatype Codec<!T> = Codec(
    encode: T -> Option<Bytes>,
    decode: Bytes -> Option<T>,
    key: T -> string)

  /** The record encoded to bytes and parsed back as an object; `None` when either step fails. */
  function EncodedObject<T>(s: Serialization, c: Codec<T>, item: T): (encoded: Option<Dict>)
  {
    match c.encode(item)
    case None => None
    case Some(bytes) => s.jsonObject(bytes)
  }

  /** `dict` serialises, and the bytes decode to `item`. */
  ghost predicate DecodesTo<T>(s: Serialization, c: Codec<T>, dict: Dict, item: T)
  {
    s.data(dict).Some? && c.decode(s.data(dict).value) == Some(item)
  }

  /** `dict` serialises, and the bytes decode to some record. */
  ghost predicate Decodable<T>(s: Serialization, c: Codec<T>, dict: Dict)
  {
    s.data(dict).Some? && c.decode(s.data(dict).value).Some?
  }

  /**
    `JSONDictionary`: the encoded record without its `"key"` entry. The
    result is never nil; when encoding or parsing fails it is the empty
    dictionary rather than an error.
   */
  function JSONDictionary<T>(s: Serialization, c: Codec<T>, item: T): (r: Option<Dict>)
    ensures r.Some?
    ensures KeyField !in r.value
    ensures EncodedObject(s, c, item).None? ==> r.value == map[]
    ensures EncodedObject(s, c, item).Some? ==>
      var encoded := EncodedObject(s, c, item).value;
      && r.value.Keys == encoded.Keys - {KeyField}
      && forall k :: k in r.value ==> r.value[k] == encoded[k]
  {
    var dict := match EncodedObject(s, c, item) case None => map[] case Some(d) => d;
    Some(dict - {KeyField})
  }

  /** `dictWithFIRKey`: `dict` with `"key"` set to the document ID, whatever it held before. */
  function WithKey(dict: Dict, key: string): (r: Dict)
    ensures KeyField in r && r[KeyField] == JString(key)
    ensures r.Keys == dict.Keys + {KeyField}
    ensures forall k :: k in dict && k != KeyField ==> r[k] == dict[k]
  {
    dict[KeyField := JString(key)]
  }

  /**
    `createFromDictionary`: nil when the dictionary or the key is missing;
    otherwise the record decoded from the dictionary with the key spliced
    in, or nil when serialising or decoding that dictionary fails. A missing
    document and a decode failure give the same nil.
   */
  function CreateFromDictionary<T>(s: Serialization, c: Codec<T>, dict: Option<Dict>, key: Option<string>): (r: Option<T>)
    ensures dict.None? || key.None? ==> r.None?
    ensures dict.Some? && key.Some? ==> (r.Some? <==> Decodable(s, c, WithKey(dict.value, key.value)))
    ensures r.Some? ==> dict.Some? && key.Some? && DecodesTo(s, c, WithKey(dict.value, key.value), r.value)
  {
    match (dict, key)
    case (Some(d), Some(k)) =>
      (match s.data(WithKey(d, k))
       case None => None
       case Some(jsonData) => c.decode(jsonData))
    case _ => None
  }

  /**
    Round trip: if the encoded record is an object whose `"key"` entry is the
    record's key, and that object decodes back to the record, then decoding
    the stored dictionary under the record's key gives the record.
   */
  lemma RoundTrip<T>(s: Serialization, c: Codec<T>, item: T)
    requires EncodedObject(s, c, item).Some?
    requires KeyField in EncodedObject(s, c, item).value
    requires EncodedObject(s, c, item).value[KeyField] == JString(c.key(item))
    requires DecodesTo(s, c, EncodedObject(s, c, item).value, item)
    ensures CreateFromDictionary(s, c, JSONDictionary(s, c, item), Some(c.key(item))) == Some(item)
  {
    var encoded := EncodedObject(s, c, item).value;
    var stored := JSONDictionary(s, c, item).value;
    assert WithKey(stored, c.key(item)) == encoded;
  }

  /** A `"key"` entry stored in the document is overridden: decoding ignores it. */
  lemma StoredKeyIgnored<T>(s: Serialization, c: Codec<T>, dict: Dict, key: string)
    ensures CreateFromDictionary(s, c, Some(dict), Some(key))
         == CreateFromDictionary(s, c, Some(dict - {KeyField}), Some(key))
  {
    assert WithKey(dict, key) == WithKey(dict - {KeyField}, key);
  }
}
