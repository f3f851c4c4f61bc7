// The key/value store as the graph layer uses it: a map from keys to
// documents plus the vertex counter. The pure operations say what each call
// does to the map; the Bucket class performs them in place.

module Store {
  import opened Wrappers
  import opened Documents

  type Docs = map<string, Doc>

  /** get(key) of a JSON document; a missing key or a binary document cannot be read as JSON. */
  function Fetch(docs: Docs, key: string): (r: Result<Doc>)
    ensures r.Ok? <==> key in docs && !docs[key].BDoc?
    ensures r.Ok? ==> r.value == docs[key]
    ensures r.Err? ==> r.failure == DocNotFound(key)
  {
    if key in docs && !docs[key].BDoc? then Ok(docs[key]) else Err(DocNotFound(key))
  }

  /** replace(key, d): only an existing document is replaced. */
  function ReplaceDoc(docs: Docs, key: string, d: Doc): (r: (Outcome, Docs))
    ensures r.0 == Pass <==> key in docs
    ensures r.0.Fail? ==> r.0.failure == DocumentDoesNotExist(key) && r.1 == docs
    ensures r.0 == Pass ==> r.1 == docs[key := d] && r.1.Keys == docs.Keys
  {
    if key in docs then (Pass, docs[key := d]) else (Fail(DocumentDoesNotExist(key)), docs)
  }

  /** remove(key): only an existing document is removed. */
  function RemoveDoc(docs: Docs, key: string): (r: (Outcome, Docs))
    ensures r.0 == Pass <==> key in docs
    ensures r.0.Fail? ==> r.0.failure == DocumentDoesNotExist(key) && r.1 == docs
    ensures r.0 == Pass ==> r.1.Keys == docs.Keys - {key} && forall k :: k in r.1 ==> r.1[k] == docs[k]
  {
    if key in docs then (Pass, docs - {key}) else (Fail(DocumentDoesNotExist(key)), docs)
  }

  /** The older client's add(key, d): stores `d` only when the key is free; its answer is never looked at. */
  function AddDoc(docs: Docs, key: string, d: Doc): (r: Docs)
    ensures key in r && r.Keys == docs.Keys + {key}
    ensures key !in docs ==> r[key] == d
    ensures key in docs ==> r == docs
  {
    if key in docs then docs else docs[key := d]
  }

  /** counter(VERTEX_COUNTER_KEY, 1): increments and returns the new value; an absent counter fails. */
  function Increment(counter: Option<int>): (r: (Result<int>, Option<int>))
    ensures counter.None? ==> r == (Err(IdGen), None)
    ensures counter.Some? ==> r.0 == Ok(counter.value + 1) && r.1 == Some(counter.value + 1)
  {
    match counter
    case None => (Err(IdGen), None)
    case Some(n) => (Ok(n + 1), Some(n + 1))
  }

  /** Two increments hand out consecutive values. */
  lemma ConsecutiveIds(counter: Option<int>)
    requires counter.Some?
    ensures var (a, c1) := Increment(counter);
      var (b, _) := Increment(c1);
      a.Ok? && b.Ok? && b.value == a.value + 1
  {
  }

  /** The store in place. */
  class Bucket {
    var docs: Docs
    var counter: Option<int>

    constructor(docs: Docs, counter: Option<int>)
      ensures this.docs == docs && this.counter == counter
    {
      this.docs := docs;
      this.counter := counter;
    }

    /** get(key) of a JSON document. */
    method Get(key: string) returns (r: Result<Doc>)
      ensures r == Fetch(docs, key)
    {
      if key in docs && !docs[key].BDoc? {
        r := Ok(docs[key]);
      } else {
        r := Err(DocNotFound(key));
      }
    }

    method Replace(key: string, d: Doc) returns (r: Outcome)
      modifies this
      ensures (r, docs) == ReplaceDoc(old(docs), key, d) && counter == old(counter)
    {
      if key in docs {
        docs := docs[key := d];
        r := Pass;
      } else {
        r := Fail(DocumentDoesNotExist(key));
      }
    }

    method Remove(key: string) returns (r: Outcome)
      modifies this
      ensures (r, docs) == RemoveDoc(old(docs), key) && counter == old(counter)
    {
      if key in docs {
        docs := docs - {key};
        r := Pass;
      } else {
        r := Fail(DocumentDoesNotExist(key));
      }
    }

    method Upsert(key: string, d: Doc)
      modifies this
      ensures docs == old(docs)[key := d] && counter == old(counter)
    {
      docs := docs[key := d];
    }

    method Add(key: string, d: Doc)
      modifies this
      ensures docs == AddDoc(old(docs), key, d) && counter == old(counter)
    {
      if key !in docs {
        docs := docs[key := d];
      }
    }

    method Counter() returns (r: Result<int>)
      modifies this
      ensures (r, counter) == Increment(old(counter)) && docs == old(docs)
    {
      if counter.None? {
        r := Err(IdGen);
      } else {
        counter := Some(counter.value + 1);
        r := Ok(counter.value);
      }
    }
  }
}
