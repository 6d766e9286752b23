# RxFirestore core, modelled in Dafny

RxFirestore is a thin Swift adapter. It exposes Firestore reads, listeners and
writes as RxSwift `Single`s and `Observable`s, and it converts `Codable`
records to and from Firestore's schemaless dictionaries. This project models
the three parts of it that hold real logic, all as pure functions:

- **The key-splicing codec** (`SnapshotCodable` module, from
  `RxFirestore/SnapshotCodable.swift`). A record's `key` property is the
  Firestore document ID and is not stored as data. `JSONDictionary` encodes
  the record and removes the `"key"` entry. `CreateFromDictionary` writes the
  document ID back under `"key"` and decodes. Swift dictionaries are values,
  so the local `var dict` copies become map removal and map update.
- **Path composition** (`FirestoreOperators` module). `document(key:)` and
  `subcollection(_:)` build the child path as `path + "/" + segment`, with no
  validation. A reference is modelled by its path string. `Split` and `Join`
  give a segment view of a path, so the effect of composition on segments
  can be stated.
- **Result mapping in the Rx adapter** (`RxFirestore` module). Each Firestore
  callback receives an optional snapshot and an optional error. The adapter
  turns that pair into a success, an error or no event. Collection results
  are decoded member by member with `compactMap`, so members that fail to
  decode are dropped. `update` and `set` prepare the dictionary to write, and
  their completion maps a nil error to success.

The JSON substrate is abstract. `Json.Serialization` stands for Foundation's
`JSONSerialization` as used by `Data+JSON.swift`: parse bytes to an object,
and serialise an object to bytes. `SnapshotCodable.Codec` stands for one record
type's `Codable` conformance: `encode` is `JSONData`, `decode` is
`createFromJSONData`, and `key` reads the record's `key` property. Each of these
is a record of total functions that every operation takes as a parameter, so
every result holds for any encoder and decoder. Firestore's own calls
(`getDocuments`, `getDocument`, `addSnapshotListener`, `updateData`,
`setData`) are not modelled. Their callback arguments are the inputs of the
functions here.

Four behaviours of the code are easy to misread; the model follows the code:

- An encode failure does not raise an error. `JSONDictionary` yields the empty
  dictionary (`?? [:]`), so `update` and `set` would write `{}`.
- A decode failure is not told apart from a missing document. Both give nil,
  and a document read reports either one as success with nil.
- Path segments are not validated. A key holding `"/"` is appended verbatim
  and adds several segments.
- Paths have no leading `"/"`: the document path is the collection path,
  `"/"`, and the key.

## Model

| member | source | states |
|---|---|---|
| `SnapshotCodable.JSONDictionary` | RxFirestore/SnapshotCodable.swift:23-27 | Never nil. Never holds `"key"`. It is the empty dictionary when encoding fails or the payload is not an object. Otherwise its keys are exactly the encoded keys other than `"key"`, each with its encoded value. |
| `SnapshotCodable.WithKey` | RxFirestore/SnapshotCodable.swift:35-36 | `"key"` maps to the supplied key, overriding any stored value. Every other entry is unchanged, and no other key is added. |
| `SnapshotCodable.CreateFromDictionary` | RxFirestore/SnapshotCodable.swift:33-39 | Nil when the dictionary or the key is nil. Otherwise non-nil exactly when the spliced dictionary serialises and its bytes decode. A non-nil result is the record those bytes decode to. There is no separate error. |
| `SnapshotCodable.RoundTrip` | RxFirestore/SnapshotCodable.swift:22-39 | Assume the encoded record is an object whose `"key"` is the record's key, and that this object decodes back to the record. Then decoding the stored dictionary under the record's key returns the record. |
| `SnapshotCodable.StoredKeyIgnored` | RxFirestore/SnapshotCodable.swift:34-38 | A `"key"` entry stored in the document has no effect on decoding: the supplied key always wins. |
| `FirestoreOperators.CollectionReference.Document` | RxFirestore/FirestoreOperators.swift:13-16 | The document path is the collection path, then `/`, then the key verbatim. Its length grows by exactly the key's length plus one. |
| `FirestoreOperators.DocumentReference.Subcollection` | RxFirestore/FirestoreOperators.swift:20-23 | The subcollection path is the document path, then `/`, then the collection name verbatim. Its length grows by exactly the name's length plus one. |
| `FirestoreOperators.ChainedPath` | RxFirestore/FirestoreOperators.swift:13-23 | A document followed by a subcollection gives `c.path + "/" + key + "/" + collectionName`. |
| `FirestoreOperators.DocumentSegments` | RxFirestore/FirestoreOperators.swift:14 | The segments of a document path are the collection's segments followed by the segments of the key. For a key without `/`, that is the collection's segments followed by the key. |
| `FirestoreOperators.SubcollectionSegments` | RxFirestore/FirestoreOperators.swift:21 | The segments of a subcollection path are the document's segments followed by the segments of the name. For a name without `/`, that is the document's segments followed by the name. |
| `FirestoreOperators.KeyNotValidated` | RxFirestore/FirestoreOperators.swift:14 | A key containing `/` is accepted and adds more than one segment to the path. |
| `FirestoreOperators.SplitAppend` | RxFirestore/FirestoreOperators.swift:14 | Splitting `p + "/" + k` gives the segments of `p` followed by the segments of `k`, for every `k`. |
| `FirestoreOperators.JoinSplit` | RxFirestore/FirestoreOperators.swift:14 | The segment view loses nothing: joining the segments of a path with `/` restores the path. |
| `FirestoreOperators.SplitJoin` | RxFirestore/FirestoreOperators.swift:21 | Joining segments that contain no `/` and splitting again gives back the same segments. |
| `RxFirestore.CompactMap` | RxFirestore/Rx+Firestore.swift:27 | The result is never longer than the input, and is empty when no element maps to a value. |
| `RxFirestore.CompactMapSurvivors` | RxFirestore/Rx+Firestore.swift:27 | The result holds exactly the mapped values of the elements that map to a value, in their original order. This is shown by returning their strictly increasing positions; a position is listed if and only if its element maps to a value. |
| `RxFirestore.CompactMapAppend` | RxFirestore/Rx+Firestore.swift:69 | `compactMap` of a concatenation is the concatenation of the `compactMap`s, so relative order is kept. |
| `RxFirestore.CompactMapAllPresent` | RxFirestore/Rx+Firestore.swift:69 | When every element maps to a value, nothing is dropped. |
| `RxFirestore.DecodeDocument` | RxFirestore/Rx+Firestore.swift:45 | A snapshot whose `data()` is nil decodes to nil. Otherwise the result is non-nil exactly when the data with the document ID spliced in under `"key"` decodes, and a non-nil result is that decoded record. |
| `RxFirestore.DecodeDocuments` | RxFirestore/Rx+Firestore.swift:27 | A collection result is never longer than the snapshot's document list. |
| `RxFirestore.DecodeDocumentsExactly` | RxFirestore/Rx+Firestore.swift:68-70 | A collection result holds exactly the documents whose decode succeeds, in snapshot order. A document is dropped if and only if its decode fails. |
| `RxFirestore.GetCollectionEvent` | RxFirestore/Rx+Firestore.swift:20-27 | A present snapshot gives success with the decoded documents, even when an error is also present. Without a snapshot, the outcome is an error exactly when there is an error, and it carries that error. No event is emitted exactly when both are absent. |
| `RxFirestore.GetDocumentEvent` | RxFirestore/Rx+Firestore.swift:38-45 | The same three outcomes as the collection read. Success carries the single document's decode result. |
| `RxFirestore.MissingDocumentIsSuccessNil` | RxFirestore/Rx+Firestore.swift:45 | A snapshot of a document that does not exist gives success with nil, not an error, whatever the error argument is. |
| `RxFirestore.ListenerEvent` | RxFirestore/Rx+Firestore.swift:56-64 | Inside a listener, a present snapshot gives `onNext`. Otherwise a present error gives `onError`. Otherwise nothing happens. |
| `RxFirestore.MapEvent` | RxFirestore/Rx+Firestore.swift:68-70 | The stream's `map` transforms only a success value. An error passes through unchanged, and no event stays no event. |
| `RxFirestore.ObserveAgreesWithGet` | RxFirestore/Rx+Firestore.swift:54-91 | Each listener callback of `observe` (guard, then `map`) gives the same result as the matching `get` callback (guard with decoding inline), for both collections and documents. |
| `RxFirestore.Deliver` | RxFirestore/Rx+Firestore.swift:54-71 | The stream seen by an observer never has more elements than there were callbacks. An error that ends the stream is one the listener reported. |
| `RxFirestore.DeliverStopsAtError` | RxFirestore/Rx+Firestore.swift:57-61 | After the first reported error nothing more is delivered: the stream is the earlier successes, ended by that error. |
| `RxFirestore.DeliverWithoutError` | RxFirestore/Rx+Firestore.swift:63 | Without an error, the stream carries every success in order and does not end. |
| `RxFirestore.Update` | RxFirestore/Rx+Firestore.swift:96-99 | Never nil. It is a merge write (`updateData`) to the record's key of the record's `JSONDictionary`, which has no `"key"` entry. |
| `RxFirestore.Set` | RxFirestore/Rx+Firestore.swift:113-116 | Never nil. It is a replacing write (`setData`) to the record's key of the record's `JSONDictionary`, which has no `"key"` entry. |
| `RxFirestore.WriteCompletion` | RxFirestore/Rx+Firestore.swift:100-104 | There is always exactly one signal. It is success exactly when the error is nil; otherwise it is that error. |
| `RxFirestore.WriteThenRead` | RxFirestore/Rx+Firestore.swift:113-116 | Assume the same codec conditions as the round trip, and that the backend returns the written data with the written key as its document ID. Then reading it back gives success with the record. That premise is realistic only for a key without `/`: for a key containing `/`, Firestore reports the last path segment as the document ID. |

## Left out

- `Data+JSON.swift` (`JSONSerialization` plus error logging with `print`) is foreign code. It appears only as the two abstract functions of `Json.Serialization`, and the logging is not modelled.
- Swift `Codable` reflection and `[String: Any]` dynamic typing are not modelled. JSON values are the `Json.Json` datatype, and the encoder and decoder are the abstract functions of `SnapshotCodable.Codec`. Firestore values that are not JSON, such as `Timestamp` or `GeoPoint`, are outside `Json.Json`, so what `JSONSerialization` does with them is not captured. It may raise an Objective-C exception that the `catch` in `Data+JSON.swift` does not handle.
- The Firestore client calls (`getDocuments(source: .cache)`, `getDocument`, `addSnapshotListener`, `updateData`, `setData`) and the `Firestore.firestore()` singleton are not modelled. They are network and cache I/O, and their callback arguments are inputs here. Firestore's own path parsing in `Firestore.firestore().document(_:)` and `.collection(_:)`, which may reject a path, is not modelled either. A reference is its path string.
- The `FirestoreCollection` protocol, with `collectionName` and the static `T.document(key:)`, is not part of this model. `collectionName` is a parameter. `RxFirestore.Update` and `RxFirestore.Set` record only the key handed to `T.document(key:)`, not the path it builds.
- `Single.create`, `Observable.create` and `Disposables.create` are not modelled. Neither is listener removal on dispose (`handler.remove()`), nor callback threading. These concern the subscription lifecycle and concurrency, and their guarantees, such as idempotent dispose, live in RxSwift and Firestore code that is not part of this model.
- Strings are sequences of Unicode scalars. The length statements of `FirestoreOperators.CollectionReference.Document` and `FirestoreOperators.DocumentReference.Subcollection` count scalars, not the grapheme clusters that Swift's `String.count` counts.
- RxFirestore.Deliver: the rule that an error ends a stream belongs to RxSwift and is not shown in this repository. It is modelled as that library documents it and is not proved from code.
- RxFirestore.ObserveCollectionEvent and RxFirestore.ObserveDocumentEvent carry no contract of their own. What they compute is stated by `RxFirestore.ObserveAgreesWithGet`.
