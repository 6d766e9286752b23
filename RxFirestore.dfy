/**
  The result mapping inside the Rx adapter over Firestore: how each backend
  callback (an optional snapshot and an optional error) becomes a success,
  an error or no event, how snapshots are decoded with the codec, and how
  writes are prepared and completed. The Firestore calls themselves are
  left out; their results are the inputs here.
 */
module RxFirestore {
  import opened Wrappers
  import opened Json
  import opened SnapshotCodable

  /** An error reported by the Firestore client, passed through opaquely. */
  datatype FirestoreError = FirestoreError(code: int, message: string)

  /** A document snapshot: `data()` is nil for a document that does not exist. */
  datatype DocumentSnapshot = DocumentSnapshot(data: Option<Dict>, documentID: string)

  /** A query snapshot and its documents, in the order the backend delivers them. */
  datatype QuerySnapshot = QuerySnapshot(documents: seq<DocumentSnapshot>)

  /** What one callback makes the adapter do: emit a value, emit an error, or nothing. */
  datatype Event<+V> = Success(value: V) | Failure(error: FirestoreError) | NoEvent

  // ---------------------------------------------------------------------------
  // compactMap

  /** Swift's `compactMap`: the non-nil results of `f`, in order. */
  function CompactMap<A, B>(f: A -> Option<B>, xs: seq<A>): (ys: seq<B>)
    ensures |ys| <= |xs|
    ensures (forall i :: 0 <= i < |xs| ==> f(xs[i]).None?) ==> ys == []
  {
    if xs == [] then []
    else
      var head := match f(xs[0]) case Some(y) => [y] case None => [];
      head + CompactMap(f, xs[1..])
  }

  /**
    `idx` lists, in strictly increasing order, exactly the positions of the
    elements of `xs` that `f` maps to a value, and `ys` holds those values.
   */
  ghost predicate Survivors<A, B>(f: A -> Option<B>, xs: seq<A>, ys: seq<B>, idx: seq<nat>)
  {
    && |idx| == |ys|
    && (forall j :: 0 <= j < |idx| ==> idx[j] < |xs| && f(xs[idx[j]]) == Some(ys[j]))
    && (forall j, j' :: 0 <= j < j' < |idx| ==> idx[j] < idx[j'])
    && (forall i :: 0 <= i < |xs| ==> (f(xs[i]).Some? <==> i in idx))
  }

  /** Every position moved one place on. */
  function Shift(idx: seq<nat>): (r: seq<nat>)
    ensures |r| == |idx|
    ensures forall j :: 0 <= j < |idx| ==> r[j] == idx[j] + 1
  {
    seq(|idx|, j requires 0 <= j < |idx| => idx[j] + 1)
  }

  /** Survivors of a tail, shifted, are the survivors of the whole sequence after its head. */
  lemma SurvivorsShift<A, B>(f: A -> Option<B>, xs: seq<A>, ys: seq<B>, idx: seq<nat>)
    requires xs != []
    requires Survivors(f, xs[1..], ys, idx)
    ensures forall i :: 1 <= i < |xs| ==> (f(xs[i]).Some? <==> i in Shift(idx))
    ensures forall j :: 0 <= j < |idx| ==> Shift(idx)[j] < |xs| && f(xs[Shift(idx)[j]]) == Some(ys[j])
    ensures 0 !in Shift(idx)
  {
    var shifted := Shift(idx);
    forall i | 1 <= i < |xs|
      ensures f(xs[i]).Some? <==> i in shifted
    {
      assert xs[i] == xs[1..][i - 1];
      if i - 1 in idx {
        var j :| 0 <= j < |idx| && idx[j] == i - 1;
        assert shifted[j] == i;
      }
    }
    forall j | 0 <= j < |idx|
      ensures shifted[j] < |xs| && f(xs[shifted[j]]) == Some(ys[j])
    {
      assert xs[shifted[j]] == xs[1..][idx[j]];
    }
  }

  /** Survivors extend by one element at the front. */
  lemma SurvivorsCons<A, B>(f: A -> Option<B>, xs: seq<A>, ys: seq<B>, idx: seq<nat>)
    requires xs != []
    requires Survivors(f, xs[1..], ys, idx)
    ensures f(xs[0]).Some? ==> Survivors(f, xs, [f(xs[0]).value] + ys, [0] + Shift(idx))
    ensures f(xs[0]).None? ==> Survivors(f, xs, ys, Shift(idx))
  {
    SurvivorsShift(f, xs, ys, idx);
  }

  /**
    `compactMap` keeps exactly the elements that map to a value, in their
    original order: it returns `idx`, the strictly increasing positions
    of those elements.
   */
  lemma {:induction false} CompactMapSurvivors<A, B>(f: A -> Option<B>, xs: seq<A>) returns (idx: seq<nat>)
    ensures |idx| == |CompactMap(f, xs)|
    ensures forall j :: 0 <= j < |idx| ==> idx[j] < |xs| && f(xs[idx[j]]) == Some(CompactMap(f, xs)[j])
    ensures forall j, j' :: 0 <= j < j' < |idx| ==> idx[j] < idx[j']
    ensures forall i :: 0 <= i < |xs| ==> (f(xs[i]).Some? <==> i in idx)
  {
    if xs == [] {
      idx := [];
    } else {
      var rest := CompactMapSurvivors(f, xs[1..]);
      SurvivorsCons(f, xs, CompactMap(f, xs[1..]), rest);
      idx := if f(xs[0]).Some? then [0] + Shift(rest) else Shift(rest);
      assert Survivors(f, xs, CompactMap(f, xs), idx);
    }
  }

  /** `compactMap` distributes over concatenation, so it keeps the relative order. */
  lemma {:induction false} CompactMapAppend<A, B>(f: A -> Option<B>, xs: seq<A>, ys: seq<A>)
    ensures CompactMap(f, xs + ys) == CompactMap(f, xs) + CompactMap(f, ys)
  {
    if xs != [] {
      assert (xs + ys)[1..] == xs[1..] + ys;
      CompactMapAppend(f, xs[1..], ys);
    } else {
      assert xs + ys == ys;
    }
  }

  /** When every element maps to a value, nothing is dropped. */
  lemma {:induction false} CompactMapAllPresent<A, B>(f: A -> Option<B>, xs: seq<A>)
    requires forall i :: 0 <= i < |xs| ==> f(xs[i]).Some?
    ensures |CompactMap(f, xs)| == |xs|
  {
    if xs != [] {
      assert forall i :: 0 <= i < |xs| - 1 ==> xs[1..][i] == xs[i + 1];
      CompactMapAllPresent(f, xs[1..]);
    }
  }

  // ---------------------------------------------------------------------------
  // Decoding snapshots

  /** One document decoded by the codec, with its document ID as the record's key. */
  function DecodeDocument<T>(s: Serialization, c: Codec<T>, doc: DocumentSnapshot): (r: Option<T>)
    ensures doc.data.None? ==> r.None?
    ensures doc.data.Some? ==> (r.Some? <==> Decodable(s, c, WithKey(doc.data.value, doc.documentID)))
    ensures r.Some? ==> doc.data.Some? && DecodesTo(s, c, WithKey(doc.data.value, doc.documentID), r.value)
  {
    CreateFromDictionary(s, c, doc.data, Some(doc.documentID))
  }

  /** The decoded members of a collection; members that fail to decode are dropped. */
  function DecodeDocuments<T>(s: Serialization, c: Codec<T>, docs: seq<DocumentSnapshot>): (rs: seq<T>)
    ensures |rs| <= |docs|
  {
    CompactMap(doc => DecodeDocument(s, c, doc), docs)
  }

  /**
    A collection result holds exactly the documents that decode, in their
    original order: `idx` lists their strictly increasing positions.
   */
  lemma DecodeDocumentsExactly<T>(s: Serialization, c: Codec<T>, docs: seq<DocumentSnapshot>) returns (idx: seq<nat>)
    ensures |idx| == |DecodeDocuments(s, c, docs)|
    ensures forall j :: 0 <= j < |idx| ==>
      idx[j] < |docs| && DecodeDocument(s, c, docs[idx[j]]) == Some(DecodeDocuments(s, c, docs)[j])
    ensures forall j, j' :: 0 <= j < j' < |idx| ==> idx[j] < idx[j']
    ensures forall i :: 0 <= i < |docs| ==> (DecodeDocument(s, c, docs[i]).Some? <==> i in idx)
  {
    idx := CompactMapSurvivors(doc => DecodeDocument(s, c, doc), docs);
  }

  // ---------------------------------------------------------------------------
  // One-shot reads

  /**
    The `getDocuments` callback of `get` on a collection: a present snapshot
    is a success (even when an error is also present); otherwise the error,
    if there is one; otherwise no event.
   */
  function GetCollectionEvent<T>(s: Serialization, c: Codec<T>, snapshot: Option<QuerySnapshot>, error: Option<FirestoreError>): (e: Event<seq<T>>)
    ensures snapshot.Some? ==> e == Success(DecodeDocuments(s, c, snapshot.value.documents))
    ensures snapshot.None? ==> (e.Failure? <==> error.Some?)
    ensures e.Failure? ==> error.Some? && e.error == error.value
    ensures e.NoEvent? <==> snapshot.None? && error.None?
  {
    match snapshot
    case Some(q) => Success(DecodeDocuments(s, c, q.documents))
    case None =>
      match error
      case Some(err) => Failure(err)
      case None => NoEvent
  }

  /** The `getDocument` callback of `get` on a document: the same guard, then one decode. */
  function GetDocumentEvent<T>(s: Serialization, c: Codec<T>, snapshot: Option<DocumentSnapshot>, error: Option<FirestoreError>): (e: Event<Option<T>>)
    ensures snapshot.Some? ==> e == Success(DecodeDocument(s, c, snapshot.value))
    ensures snapshot.None? ==> (e.Failure? <==> error.Some?)
    ensures e.Failure? ==> error.Some? && e.error == error.value
    ensures e.NoEvent? <==> snapshot.None? && error.None?
  {
    match snapshot
    case Some(doc) => Success(DecodeDocument(s, c, doc))
    case None =>
      match error
      case Some(err) => Failure(err)
      case None => NoEvent
  }

  /** A snapshot of a document that does not exist is a success carrying nil, not an error. */
  lemma MissingDocumentIsSuccessNil<T>(s: Serialization, c: Codec<T>, documentID: string, error: Option<FirestoreError>)
    ensures GetDocumentEvent(s, c, Some(DocumentSnapshot(None, documentID)), error) == Success(None)
  {
  }

  // ---------------------------------------------------------------------------
  // Continuous observation

  /** The guard inside `addSnapshotListener`: `onNext` the snapshot, `onError` the error, or nothing. */
  function ListenerEvent<S>(snapshot: Option<S>, error: Option<FirestoreError>): (e: Event<S>)
    ensures snapshot.Some? ==> e == Success(snapshot.value)
    ensures snapshot.None? && error.Some? ==> e == Failure(error.value)
    ensures snapshot.None? && error.None? ==> e == NoEvent
  {
    match snapshot
    case Some(v) => Success(v)
    case None =>
      match error
      case Some(err) => Failure(err)
      case None => NoEvent
  }

  /** Rx's `map` on one event: only the value of a success is transformed. */
  function MapEvent<V, W>(e: Event<V>, f: V -> W): (r: Event<W>)
    ensures r.Success? <==> e.Success?
    ensures r.Success? ==> r.value == f(e.value)
    ensures r.Failure? <==> e.Failure?
    ensures r.Failure? ==> r.error == e.error
  {
    match e
    case Success(v) => Success(f(v))
    case Failure(err) => Failure(err)
    case NoEvent => NoEvent
  }

  /** The documents of a query snapshot, or `None` when there is no snapshot. */
  function Documents(snapshot: Option<QuerySnapshot>): (docs: Option<seq<DocumentSnapshot>>)
  {
    match snapshot
    case Some(q) => Some(q.documents)
    case None => None
  }

  /** One listener callback of `observe` on a collection, after the `compactMap` stage. */
  function ObserveCollectionEvent<T>(s: Serialization, c: Codec<T>, snapshot: Option<QuerySnapshot>, error: Option<FirestoreError>): (e: Event<seq<T>>)
  {
    MapEvent(ListenerEvent(Documents(snapshot), error), docs => DecodeDocuments(s, c, docs))
  }

  /** One listener callback of `observe` on a document, after the decoding `map`. */
  function ObserveDocumentEvent<T>(s: Serialization, c: Codec<T>, snapshot: Option<DocumentSnapshot>, error: Option<FirestoreError>): (e: Event<Option<T>>)
  {
    MapEvent(ListenerEvent(snapshot, error), doc => DecodeDocument(s, c, doc))
  }

  /** Each `observe` callback is mapped exactly as the corresponding `get` callback. */
  lemma ObserveAgreesWithGet<T>(s: Serialization, c: Codec<T>,
                                query: Option<QuerySnapshot>, doc: Option<DocumentSnapshot>,
                                error: Option<FirestoreError>)
    ensures ObserveCollectionEvent(s, c, query, error) == GetCollectionEvent(s, c, query, error)
    ensures ObserveDocumentEvent(s, c, doc, error) == GetDocumentEvent(s, c, doc, error)
  {
  }

  /** What an observer of the stream sees: the elements, and the error that ended it, if any. */
  datatype Stream<V> = Stream(elements: seq<V>, terminatedBy: Option<FirestoreError>)

  /**
    The stream an observable delivers for a sequence of listener events,
    under Rx's rule that an error ends the stream: successes up to the first
    error become elements, callbacks with no event are skipped.
   */
  function Deliver<V>(events: seq<Event<V>>): (st: Stream<V>)
    ensures |st.elements| <= |events|
    ensures st.terminatedBy.Some? ==> exists i :: 0 <= i < |events| && events[i] == Failure(st.terminatedBy.value)
  {
    if events == [] then Stream([], None)
    else
      match events[0]
      case Failure(err) => Stream([], Some(err))
      case NoEvent => Deliver(events[1..])
      case Success(v) =>
        var rest := Deliver(events[1..]);
        Stream([v] + rest.elements, rest.terminatedBy)
  }

  /** The value of a success event. */
  function SuccessValue<V>(e: Event<V>): (v: Option<V>)
  {
    match e
    case Success(v) => Some(v)
    case _ => None
  }

  /** Nothing after the first error reaches the observer. */
  lemma {:induction false} DeliverStopsAtError<V>(pre: seq<Event<V>>, err: FirestoreError, post: seq<Event<V>>)
    requires forall i :: 0 <= i < |pre| ==> !pre[i].Failure?
    ensures Deliver(pre + [Failure(err)] + post) == Stream(Deliver(pre).elements, Some(err))
  {
    if pre == [] {
      assert pre + [Failure(err)] + post == [Failure(err)] + post;
    } else {
      assert (pre + [Failure(err)] + post)[1..] == pre[1..] + [Failure(err)] + post;
      DeliverStopsAtError(pre[1..], err, post);
    }
  }

  /** Without an error, the stream carries every success, in order, and does not end. */
  lemma {:induction false} DeliverWithoutError<V>(events: seq<Event<V>>)
    requires forall i :: 0 <= i < |events| ==> !events[i].Failure?
    ensures Deliver(events) == Stream(CompactMap(SuccessValue, events), None)
  {
    if events != [] {
      DeliverWithoutError(events[1..]);
    }
  }

  // ---------------------------------------------------------------------------
  // Writes

  /** `updateData` or `setData`. */
  datatype WriteMode = UpdateData | SetData

  /** One write: its mode, the key handed to `T.document(key:)`, and the dictionary written. */
  datatype WriteRequest = WriteRequest(mode: WriteMode, documentKey: string, data: Dict)

  /** `update`: a merge write of the record's dictionary to the record's key. Never nil. */
  function Update<T>(s: Serialization, c: Codec<T>, item: T): (w: Option<WriteRequest>)
    ensures w.Some?
    ensures w.value.mode == UpdateData && w.value.documentKey == c.key(item)
    ensures KeyField !in w.value.data
    ensures Some(w.value.data) == JSONDictionary(s, c, item)
  {
    match JSONDictionary(s, c, item)
    case None => None
    case Some(dic) => Some(WriteRequest(UpdateData, c.key(item), dic))
  }

  /** `set`: a replacing write of the record's dictionary to the record's key. Never nil. */
  function Set<T>(s: Serialization, c: Codec<T>, item: T): (w: Option<WriteRequest>)
    ensures w.Some?
    ensures w.value.mode == SetData && w.value.documentKey == c.key(item)
    ensures KeyField !in w.value.data
    ensures Some(w.value.data) == JSONDictionary(s, c, item)
  {
    match JSONDictionary(s, c, item)
    case None => None
    case Some(dic) => Some(WriteRequest(SetData, c.key(item), dic))
  }

  /** The write completion: exactly one signal, success for a nil error, else that error. */
  function WriteCompletion(error: Option<FirestoreError>): (e: Event<()>)
    ensures !e.NoEvent?
    ensures e.Success? <==> error.None?
    ensures e.Failure? ==> error.Some? && e.error == error.value
  {
    match error
    case Some(err) => Failure(err)
    case None => Success(())
  }

  /**
    Write, then read back: when the backend returns what `set` wrote, under
    the key it wrote to, a document read yields the record again (given the
    same codec assumptions as the codec's round trip).
   */
  lemma WriteThenRead<T>(s: Serialization, c: Codec<T>, item: T, error: Option<FirestoreError>)
    requires EncodedObject(s, c, item).Some?
    requires KeyField in EncodedObject(s, c, item).value
    requires EncodedObject(s, c, item).value[KeyField] == JString(c.key(item))
    requires DecodesTo(s, c, EncodedObject(s, c, item).value, item)
    ensures var w := Set(s, c, item).value;
      GetDocumentEvent(s, c, Some(DocumentSnapshot(Some(w.data), w.documentKey)), error) == Success(Some(item))
  {
    RoundTrip(s, c, item);
  }
}
