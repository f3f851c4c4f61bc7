// CBElement: the cache of one vertex or edge document and the property
// operations built on it. Every operation first calls the element's
// refresh (which a vertex and an edge extend); the functions here take the
// outcome of that refresh and the cache it left, and say what the operation
// does from there.

module Element {
  import opened Wrappers
  import opened Documents
  import opened Store

  /** The graph configuration an element reads when it is built. */
  datatype Config = Config(refreshEnabled: bool, mode: Compression, codec: Codec)

  /**
   * CBElement.refresh: the document is fetched exactly when nothing is
   * cached or refresh mode is on; a failed fetch is a DocNotFoundException
   * for this key and leaves the cache as it was.
   */
  function Refresh(cached: Option<Doc>, refreshEnabled: bool, key: string, docs: Docs): (r: (Result<bool>, Option<Doc>))
    ensures r.0 == Ok(true) <==> (cached.None? || refreshEnabled) && key in docs && !docs[key].BDoc?
    ensures r.0 == Ok(true) ==> r.1 == Some(docs[key])
    ensures r.0 == Ok(false) <==> cached.Some? && !refreshEnabled
    ensures r.0.Err? ==> r.0.failure == DocNotFound(key)
    ensures r.0 != Ok(true) ==> r.1 == cached
  {
    if cached.None? || refreshEnabled then
      match Fetch(docs, key)
      case Err(f) => (Err(f), cached)
      case Ok(d) => (Ok(true), Some(d))
    else (Ok(false), cached)
  }

  /** innerProps: the props object of the cached document, null when there is none. */
  function Props(obj: Option<Doc>): Option<PropMap>
  {
    if obj.None? then None else PropsOf(obj.value)
  }

  /** A DocNotFoundException from the refresh is logged and swallowed; anything else escapes. */
  predicate Swallowed(r: Result<bool>)
  {
    r.Err? && r.failure.DocNotFound?
  }

  /** getProperty after the refresh outcome `r`: null when the key is absent or the refresh found nothing. */
  function GetProperty(r: Result<bool>, obj: Option<Doc>, k: string): (v: Result<Option<Value>>)
    ensures Swallowed(r) ==> v == Ok(None)
    ensures r.Ok? && Props(obj).None? ==> v == Err(NullPointer)
    ensures r.Ok? && Props(obj).Some? ==> v.Ok? && (v.value.Some? <==> k in Props(obj).value)
  {
    if r.Err? then (if Swallowed(r) then Ok(None) else Err(r.failure))
    else match Props(obj)
      case None => Err(NullPointer)
      case Some(p) => if k in p then Ok(Some(ToValue(p[k]))) else Ok(None)
  }

  /** getPropertyKeys after the refresh outcome `r`: empty when the refresh found nothing. */
  function GetPropertyKeys(r: Result<bool>, obj: Option<Doc>): (ks: Result<set<string>>)
    ensures Swallowed(r) ==> ks == Ok({})
    ensures r.Ok? && Props(obj).Some? ==> ks == Ok(Props(obj).value.Keys)
  {
    if r.Err? then (if Swallowed(r) then Ok({}) else Err(r.failure))
    else match Props(obj)
      case None => Err(NullPointer)
      case Some(p) => Ok(p.Keys)
  }

  /**
   * setProperty after the refresh outcome `r`: the cached props take the
   * value (a list as an array) and the whole cached document replaces the
   * stored one under the element's key.
   */
  function SetProperty(r: Result<bool>, obj: Option<Doc>, key: string, k: string, v: Value, docs: Docs): (Outcome, Option<Doc>, Docs)
  {
    if r.Err? then (if Swallowed(r) then Pass else Fail(r.failure), obj, docs)
    else match Props(obj)
      case None => (Fail(NullPointer), obj, docs)
      case Some(p) =>
        var d := WithProps(obj.value, p[k := ToJson(v)]);
        var (o, docs') := ReplaceDoc(docs, key, d);
        (o, Some(d), docs')
  }

  /**
   * removeProperty after the refresh outcome `r`: the key leaves the cached
   * props, the cached document replaces the stored one (whether or not the
   * key was there), and the previous value is returned as it was stored:
   * a list property comes back as its JSON array, not converted to a list
   * the way getProperty converts it.
   */
  function RemoveProperty(r: Result<bool>, obj: Option<Doc>, key: string, k: string, docs: Docs): (Result<Option<Json>>, Option<Doc>, Docs)
  {
    if r.Err? then (if Swallowed(r) then Ok(None) else Err(r.failure), obj, docs)
    else match Props(obj)
      case None => (Err(NullPointer), obj, docs)
      case Some(p) =>
        var prev := if k in p then Some(p[k]) else None;
        var d := WithProps(obj.value, p - {k});
        var (o, docs') := ReplaceDoc(docs, key, d);
        (if o.Fail? then Err(o.failure) else Ok(prev), Some(d), docs')
  }

  /** CBElement.remove: the document at the element's key is deleted, and nothing else. */
  function RemoveElement(key: string, docs: Docs): (r: (Outcome, Docs))
    ensures r.0 == Pass ==> key !in r.1 && forall k :: k in docs && k != key ==> k in r.1 && r.1[k] == docs[k]
    ensures r.0.Fail? ==> r.1 == docs
  {
    RemoveDoc(docs, key)
  }

  /**
   * After setProperty(k, v) the cache reads back v for k, every other
   * property is unchanged, and when the replace went through the store
   * holds exactly the cached document.
   */
  lemma SetThenGet(r: Result<bool>, obj: Option<Doc>, key: string, k: string, v: Value, docs: Docs)
    requires r.Ok? && Props(obj).Some?
    ensures var (o, obj', docs') := SetProperty(r, obj, key, k, v, docs);
      GetProperty(Ok(false), obj', k) == Ok(Some(v))
      && (forall k' :: k' != k ==> GetProperty(Ok(false), obj', k') == GetProperty(r, obj, k'))
      && (o == Pass <==> key in docs)
      && (o == Pass ==> docs' == docs[key := obj'.value] && Refresh(obj', true, key, docs') == (Ok(true), obj'))
  {
    ValueRoundTrip(v);
  }

  /**
   * removeProperty(k) hands back the stored value of k (null when absent):
   * the scalar getProperty(k) read before, or for a list the JSON array
   * that getProperty had converted to a list; afterwards the key is absent from the cache and the
   * store holds the cached document.
   */
  lemma RemoveThenGet(r: Result<bool>, obj: Option<Doc>, key: string, k: string, docs: Docs)
    requires r.Ok? && Props(obj).Some? && key in docs
    ensures var (rv, obj', docs') := RemoveProperty(r, obj, key, k, docs);
      var p := Props(obj).value;
      rv.Ok? && (k in p <==> rv.value.Some?)
      && (k in p ==> rv.value.value == p[k])
      && (k in p ==> GetProperty(r, obj, k) == Ok(Some(ToValue(rv.value.value))))
      && (k in p ==> (rv.value.value.JArray? <==> GetProperty(r, obj, k).value.value.ListOf?))
      && GetProperty(Ok(false), obj', k) == Ok(None)
      && GetPropertyKeys(Ok(false), obj') == Ok(p.Keys - {k})
      && docs' == docs[key := obj'.value]
  {
  }
}
