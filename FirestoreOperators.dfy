/**
  Path composition for Firestore references. A reference is modelled by its
  path string; building a child reference appends `"/"` and the new segment,
  with no validation of the segment.
 */
module FirestoreOperators {

  const Separator: char := '/'

  datatype CollectionReference = CollectionReference(path: string) {

    /** `document(key:)`: the document `key` inside this collection. The key is appended verbatim. */
    function Document(key: string): (d: DocumentReference)
      ensures |d.path| == |path| + 1 + |key|
      ensures d.path[..|path|] == path
      ensures d.path[|path|] == Separator
      ensures d.path[|path| + 1..] == key
    {
      DocumentReference(path + [Separator] + key)
    }
  }

  datatype DocumentReference = DocumentReference(path: string) {

    /** `subcollection(_:)`: the collection named `collectionName` inside this document. */
    function Subcollection(collectionName: string): (c: CollectionReference)
      ensures |c.path| == |path| + 1 + |collectionName|
      ensures c.path[..|path|] == path
      ensures c.path[|path|] == Separator
      ensures c.path[|path| + 1..] == collectionName
    {
      CollectionReference(path + [Separator] + collectionName)
    }
  }

  /** The segments of a path: the pieces between separators, empty pieces included. */
  function Split(p: string): (segments: seq<string>)
    ensures |segments| >= 1
    ensures Separator !in p ==> segments == [p]
    decreases |p|
  {
    if p == [] then [[]]
    else
      var init := p[..|p| - 1];
      assert p == init + [p[|p| - 1]];
      Push(Split(init), p[|p| - 1])
  }

  /** One more character read by `Split`: a separator opens a new segment, anything else extends the last one. */
  function Push(segments: seq<string>, ch: char): (r: seq<string>)
    requires |segments| >= 1
    ensures |r| >= 1
  {
    if ch == Separator then segments + [[]]
    else segments[..|segments| - 1] + [segments[|segments| - 1] + [ch]]
  }

  /** The path with the given segments, separated by `"/"`. */
  function Join(segments: seq<string>): (p: string)
    requires |segments| >= 1
  {
    if |segments| == 1 then segments[0]
    else Join(segments[..|segments| - 1]) + [Separator] + segments[|segments| - 1]
  }

  /** `Split` reads a path one character at a time. */
  lemma SplitPush(p: string, ch: char)
    ensures Split(p + [ch]) == Push(Split(p), ch)
  {
    assert (p + [ch])[..|p|] == p;
  }

  /** Pushing onto a concatenation with a non-empty right part touches only the right part. */
  lemma PushAppend(xs: seq<string>, ys: seq<string>, ch: char)
    requires |xs| >= 1 && |ys| >= 1
    ensures Push(xs + ys, ch) == xs + Push(ys, ch)
  {
    if ch != Separator {
      assert (xs + ys)[..|xs + ys| - 1] == xs + ys[..|ys| - 1];
    }
  }

  /** Appending `"/"` and `k` appends the segments of `k`. */
  lemma {:induction false} SplitAppend(p: string, k: string)
    ensures Split(p + [Separator] + k) == Split(p) + Split(k)
    decreases |k|
  {
    if k == [] {
      assert p + [Separator] + k == p + [Separator];
      SplitPush(p, Separator);
    } else {
      var k' := k[..|k| - 1];
      var ch := k[|k| - 1];
      assert k == k' + [ch];
      assert p + [Separator] + k == (p + [Separator] + k') + [ch];
      SplitPush(p + [Separator] + k', ch);
      SplitPush(k', ch);
      SplitAppend(p, k');
      PushAppend(Split(p), Split(k'), ch);
    }
  }

  /** Joining after a push: a separator adds an empty segment, any other character extends the text. */
  lemma JoinPush(segments: seq<string>, ch: char)
    requires |segments| >= 1
    ensures Join(Push(segments, ch)) == Join(segments) + [ch]
  {
    var last := |segments| - 1;
    if ch == Separator {
      assert (segments + [[]])[..|segments|] == segments;
    } else if last > 0 {
      var extended := Push(segments, ch);
      assert extended[..last] == segments[..last];
    }
  }

  /** Splitting and joining again restores the path. */
  lemma {:induction false} JoinSplit(p: string)
    ensures Join(Split(p)) == p
    decreases |p|
  {
    if p != [] {
      var init := p[..|p| - 1];
      var ch := p[|p| - 1];
      assert p == init + [ch];
      JoinSplit(init);
      SplitPush(init, ch);
      JoinPush(Split(init), ch);
    }
  }

  /** Joining segments that hold no separator and splitting again gives back the segments. */
  lemma {:induction false} SplitJoin(segments: seq<string>)
    requires |segments| >= 1
    requires forall i :: 0 <= i < |segments| ==> Separator !in segments[i]
    ensures Split(Join(segments)) == segments
    decreases |segments|
  {
    if |segments| > 1 {
      var init := segments[..|segments| - 1];
      SplitJoin(init);
      SplitAppend(Join(init), segments[|segments| - 1]);
      assert init + [segments[|segments| - 1]] == segments;
    }
  }

  /** A document path has the collection's segments followed by the segments of the key. */
  lemma DocumentSegments(c: CollectionReference, key: string)
    ensures Split(c.Document(key).path) == Split(c.path) + Split(key)
    ensures Separator !in key ==> Split(c.Document(key).path) == Split(c.path) + [key]
  {
    SplitAppend(c.path, key);
  }

  /** A subcollection path has the document's segments followed by the segments of the name. */
  lemma SubcollectionSegments(d: DocumentReference, collectionName: string)
    ensures Split(d.Subcollection(collectionName).path) == Split(d.path) + Split(collectionName)
    ensures Separator !in collectionName ==>
      Split(d.Subcollection(collectionName).path) == Split(d.path) + [collectionName]
  {
    SplitAppend(d.path, collectionName);
  }

  /** A key holding separators is not rejected: it adds more than one segment. */
  lemma KeyNotValidated(c: CollectionReference, key: string)
    requires Separator in key
    ensures |Split(c.Document(key).path)| > |Split(c.path)| + 1
  {
    DocumentSegments(c, key);
    SplitCountsSeparators(key);
  }

  /** A string holding a separator splits into at least two segments. */
  lemma {:induction false} SplitCountsSeparators(p: string)
    requires Separator in p
    ensures |Split(p)| >= 2
    decreases |p|
  {
    var init := p[..|p| - 1];
    if p[|p| - 1] != Separator {
      assert p == init + [p[|p| - 1]];
      SplitCountsSeparators(init);
    }
  }

  /** Document then subcollection: two segments appended in turn. */
  lemma ChainedPath(c: CollectionReference, key: string, collectionName: string)
    ensures c.Document(key).Subcollection(collectionName).path
         == c.path + "/" + key + "/" + collectionName
  {
  }
}
