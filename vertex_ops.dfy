// CBVertex as functions of the handle's cache and the store: the refresh
// that also decodes the adjacency lists, opening a handle (the two
// constructors), and the adjacency-list updates with their write-back.

module VertexOps {
  import opened Wrappers
  import opened Documents
  import opened Store
  import opened Keys
  import Element

  /**
   * The cache of a vertex handle: the fetched document (innerObj) and the
   * decoded adjacency lists (innerEdges, whose `in` and `out` parts are
   * innerIncomingEdges and innerOutgoingEdges).
   */
  datatype VState = VState(obj: Option<Doc>, edges: Option<Adjacency>)

  /** A vertex handle: its key, its id and its cache. */
  datatype VHandle = VHandle(key: string, id: JavaId, st: VState)

  /**
   * The cache is usable for an adjacency update: a vertex document and its
   * decoded lists, and without compression the lists are the document's own.
   */
  predicate Coherent(mode: Compression, st: VState)
  {
    st.obj.Some? && st.obj.value.VDoc? && st.edges.Some?
    && (mode == Uncompressed ==> st.obj.value.edges == Inline(st.edges.value))
  }

  /**
   * The store changes at most at the vertex's own key and at its side
   * document: nothing is deleted and no other document is written.
   */
  predicate WritesOnly(docs: Docs, docs': Docs, key: string, id: JavaId)
  {
    docs.Keys <= docs'.Keys
    && (forall k :: k in docs' ==> k in docs || k == GenAdjacencyListKey(id))
    && (forall k :: k in docs && k != key && k != GenAdjacencyListKey(id) ==> docs'[k] == docs[k])
  }

  /**
   * CBVertex.refresh: the element refresh, then, when it fetched, the
   * adjacency lists decoded from the new document. A caught decompression
   * failure reports false and keeps the old lists; any other failure of the
   * decoding escapes, with the new document already cached.
   */
  function VRefresh(cfg: Element.Config, key: string, st: VState, docs: Docs): (r: (Result<bool>, VState))
    ensures r.0.Ok? ==> r.1.obj.Some?
    ensures r.0 == Ok(true) ==> r.1.edges.Some?
    ensures r.1.edges != st.edges ==> r.0 == Ok(true)
    ensures !(st.obj.None? || cfg.refreshEnabled) ==> r == (Ok(false), st)
    ensures r.0 == Ok(true) <==> (st.obj.None? || cfg.refreshEnabled) && key in docs && !docs[key].BDoc?
                                 && DecompressEdges(cfg.mode, cfg.codec, docs[key], docs).Ok?
                                 && DecompressEdges(cfg.mode, cfg.codec, docs[key], docs).value.Decoded?
    ensures r.0 == Ok(true) ==> key in docs && r.1.obj == Some(docs[key])
                                && DecompressEdges(cfg.mode, cfg.codec, docs[key], docs) == Ok(Decoded(r.1.edges.value))
    ensures r.0 == Ok(true) ==> Coherent(cfg.mode, r.1)
    ensures Coherent(cfg.mode, st) && r.0.Ok? ==> Coherent(cfg.mode, r.1)
  {
    var (r, obj) := Element.Refresh(st.obj, cfg.refreshEnabled, key, docs);
    if r != Ok(true) then (r, VState(obj, st.edges))
    else
      match DecompressEdges(cfg.mode, cfg.codec, obj.value, docs)
      case Err(f) => (Err(f), VState(obj, st.edges))
      case Ok(Undecodable) => (Ok(false), VState(obj, st.edges))
      case Ok(Decoded(a)) => (Ok(true), VState(obj, Some(a)))
  }

  /** The refresh a constructor runs on an empty handle; its failure is the constructor's. */
  function Open(cfg: Element.Config, key: string, docs: Docs): (r: Result<VState>)
    ensures r.Ok? <==> key in docs && !docs[key].BDoc? && DecompressEdges(cfg.mode, cfg.codec, docs[key], docs).Ok?
    ensures r.Ok? ==> r.value.obj == Some(docs[key])
    ensures r.Ok? ==> (var dec := DecompressEdges(cfg.mode, cfg.codec, docs[key], docs).value;
                       r.value.edges == (if dec.Decoded? then Some(dec.adj) else None))
    ensures key !in docs ==> r == Err(DocNotFound(key))
  {
    var (res, st) := VRefresh(cfg, key, VState(None, None), docs);
    if res.Err? then Err(res.failure) else Ok(st)
  }

  /** new CBVertex(id): the key is generated from the id. */
  function OpenById(cfg: Element.Config, id: JavaId, docs: Docs): (r: Result<VHandle>)
    ensures r.Ok? ==> r.value.key == GenVertexKey(id) && r.value.id == id
  {
    var key := GenVertexKey(id);
    match Open(cfg, key, docs)
    case Err(f) => Err(f)
    case Ok(st) => Ok(VHandle(key, id, st))
  }

  /** new CBVertex(key): the id is parsed from the key, always as a String. */
  function OpenByKey(cfg: Element.Config, key: string, docs: Docs): (r: Result<VHandle>)
    ensures |key| < 2 ==> r == Err(IndexOutOfBounds)
    ensures r.Ok? ==> r.value.key == key && r.value.id == StrId(key[2..])
  {
    match ParseVertexKey(key)
    case Err(f) => Err(f)
    case Ok(id) =>
      match Open(cfg, key, docs)
      case Err(f) => Err(f)
      case Ok(st) => Ok(VHandle(key, id, st))
  }

  /**
   * The cache after the adjacency lists were changed in place. Without
   * compression the lists are the cached document's own edges object, so the
   * document changes with them.
   */
  function SetEdges(mode: Compression, st: VState, a: Adjacency): (r: VState)
    ensures r.edges == Some(a)
    ensures mode != Uncompressed ==> r.obj == st.obj
    ensures Coherent(mode, st) ==> Coherent(mode, r) && r.obj.value.props == st.obj.value.props
  {
    if mode == Uncompressed && st.obj.Some? && st.obj.value.VDoc? then
      VState(Some(WithEdges(st.obj.value, Inline(a))), Some(a))
    else VState(st.obj, Some(a))
  }

  /**
   * compressEdges followed by replace: in binary mode the side document is
   * upserted first; the (possibly rewritten) cached document then replaces
   * the stored one.
   */
  function Persist(cfg: Element.Config, key: string, id: JavaId, st: VState, docs: Docs): (r: (Outcome, VState, Docs))
    requires st.obj.Some? && st.edges.Some?
    ensures key in docs ==> r.0 == Pass
    ensures r.0.Fail? ==> r.0 == Fail(DocumentDoesNotExist(key))
    ensures r.0 == Pass ==> key in r.2 && r.1.obj.Some? && r.2[key] == r.1.obj.value
    ensures r.1.edges == st.edges && WritesOnly(docs, r.2, key, id)
    ensures cfg.mode != Binary ==> r.2.Keys == docs.Keys
  {
    var (d, up) := CompressEdges(cfg.mode, cfg.codec, id, st.obj.value, st.edges.value);
    var (o, docs') := ReplaceDoc(Upserted(docs, up), key, d);
    (o, VState(Some(d), st.edges), docs')
  }

  /**
   * addEdgeToAdjacencyList: refresh, append the edge key to the label's
   * list in the chosen directions, write back. A DocNotFoundException from
   * the refresh is swallowed and nothing is written.
   */
  function AddEdgeRef(cfg: Element.Config, key: string, id: JavaId, st: VState, lbl: string, ekey: string, dir: Direction, docs: Docs): (r: (Outcome, VState, Docs))
    ensures WritesOnly(docs, r.2, key, id)
  {
    var (r, s1) := VRefresh(cfg, key, st, docs);
    if r.Err? then (if Element.Swallowed(r) then Pass else Fail(r.failure), s1, docs)
    else if s1.edges.None? then (Fail(NullPointer), s1, docs)
    else Persist(cfg, key, id, SetEdges(cfg.mode, s1, AdjAdd(s1.edges.value, lbl, ekey, dir)), docs)
  }

  /**
   * removeEdgeFromAdjacencyList: refresh, remove the first occurrence of the
   * edge key from the label's list in the chosen directions (dropping an
   * emptied label), write back. A missing label raises before the write.
   */
  function RemoveEdgeRef(cfg: Element.Config, key: string, id: JavaId, st: VState, lbl: string, ekey: string, dir: Direction, docs: Docs): (r: (Outcome, VState, Docs))
    ensures WritesOnly(docs, r.2, key, id)
  {
    var (r, s1) := VRefresh(cfg, key, st, docs);
    if r.Err? then (if Element.Swallowed(r) then Pass else Fail(r.failure), s1, docs)
    else if s1.edges.None? then (Fail(NullPointer), s1, docs)
    else
      var (o, a) := AdjRemove(s1.edges.value, lbl, ekey, dir);
      var s2 := SetEdges(cfg.mode, s1, a);
      if o.Fail? then (o, s2, docs) else Persist(cfg, key, id, s2, docs)
  }

  /** getProperty on a vertex: the vertex refresh, then the element's read. */
  function GetProperty(cfg: Element.Config, key: string, st: VState, k: string, docs: Docs): (Result<Option<Value>>, VState)
  {
    var (r, s) := VRefresh(cfg, key, st, docs);
    (Element.GetProperty(r, s.obj, k), s)
  }

  /** setProperty on a vertex. */
  function SetProperty(cfg: Element.Config, key: string, st: VState, k: string, v: Value, docs: Docs): (Outcome, VState, Docs)
  {
    var (r, s) := VRefresh(cfg, key, st, docs);
    var (o, obj, docs') := Element.SetProperty(r, s.obj, key, k, v, docs);
    (o, VState(obj, s.edges), docs')
  }

  /** removeProperty on a vertex. */
  function RemoveProperty(cfg: Element.Config, key: string, st: VState, k: string, docs: Docs): (Result<Option<Json>>, VState, Docs)
  {
    var (r, s) := VRefresh(cfg, key, st, docs);
    var (rv, obj, docs') := Element.RemoveProperty(r, s.obj, key, k, docs);
    (rv, VState(obj, s.edges), docs')
  }

  /** getPropertyKeys on a vertex. */
  function GetPropertyKeys(cfg: Element.Config, key: string, st: VState, docs: Docs): (Result<set<string>>, VState)
  {
    var (r, s) := VRefresh(cfg, key, st, docs);
    (Element.GetPropertyKeys(r, s.obj), s)
  }
  /**
   * After addEdgeToAdjacencyList on a handle whose refresh leaves a coherent
   * cache, the stored document decodes, in every mode, to the refreshed
   * lists with the edge key appended, provided the codec round-trips them
   * and the vertex key is not its own side document's key.
   */
  lemma AddEdgeRefStored(cfg: Element.Config, key: string, id: JavaId, st: VState, lbl: string, ekey: string, dir: Direction, docs: Docs)
    requires key in docs && key != GenAdjacencyListKey(id)
    requires VRefresh(cfg, key, st, docs).0.Ok? && Coherent(cfg.mode, VRefresh(cfg, key, st, docs).1)
    requires RoundTrips(cfg.codec, AdjAdd(VRefresh(cfg, key, st, docs).1.edges.value, lbl, ekey, dir))
    ensures var a := AdjAdd(VRefresh(cfg, key, st, docs).1.edges.value, lbl, ekey, dir);
      var (o, s, docs') := AddEdgeRef(cfg, key, id, st, lbl, ekey, dir, docs);
      o == Pass && key in docs' && Coherent(cfg.mode, s) && s.edges == Some(a)
      && DecompressEdges(cfg.mode, cfg.codec, docs'[key], docs') == Ok(Decoded(a))
  {
    var (_, s1) := VRefresh(cfg, key, st, docs);
    var a := AdjAdd(s1.edges.value, lbl, ekey, dir);
    StoredLists(cfg, key, id, SetEdges(cfg.mode, s1, a), docs);
  }

  /**
   * After removeEdgeFromAdjacencyList on a handle whose refresh leaves a
   * coherent cache holding the label in the chosen directions, the stored
   * document decodes to the refreshed lists with the edge key removed.
   */
  lemma RemoveEdgeRefStored(cfg: Element.Config, key: string, id: JavaId, st: VState, lbl: string, ekey: string, dir: Direction, docs: Docs)
    requires key in docs && key != GenAdjacencyListKey(id)
    requires VRefresh(cfg, key, st, docs).0.Ok? && Coherent(cfg.mode, VRefresh(cfg, key, st, docs).1)
    requires AdjRemove(VRefresh(cfg, key, st, docs).1.edges.value, lbl, ekey, dir).0 == Pass
    requires RoundTrips(cfg.codec, AdjRemove(VRefresh(cfg, key, st, docs).1.edges.value, lbl, ekey, dir).1)
    ensures var a := AdjRemove(VRefresh(cfg, key, st, docs).1.edges.value, lbl, ekey, dir).1;
      var (o, s, docs') := RemoveEdgeRef(cfg, key, id, st, lbl, ekey, dir, docs);
      o == Pass && key in docs' && Coherent(cfg.mode, s) && s.edges == Some(a)
      && DecompressEdges(cfg.mode, cfg.codec, docs'[key], docs') == Ok(Decoded(a))
  {
    var (_, s1) := VRefresh(cfg, key, st, docs);
    var a := AdjRemove(s1.edges.value, lbl, ekey, dir).1;
    StoredLists(cfg, key, id, SetEdges(cfg.mode, s1, a), docs);
  }

  /** The write-back of a coherent cache stores a document that decodes to its lists. */
  lemma StoredLists(cfg: Element.Config, key: string, id: JavaId, st: VState, docs: Docs)
    requires key in docs && key != GenAdjacencyListKey(id)
    requires Coherent(cfg.mode, st) && RoundTrips(cfg.codec, st.edges.value)
    ensures var (o, s, docs') := Persist(cfg, key, id, st, docs);
      o == Pass && key in docs' && Coherent(cfg.mode, s) && s.edges == st.edges
      && DecompressEdges(cfg.mode, cfg.codec, docs'[key], docs') == Ok(Decoded(st.edges.value))
  {
    var (d, up) := CompressEdges(cfg.mode, cfg.codec, id, st.obj.value, st.edges.value);
    CompressRoundTrip(cfg.mode, cfg.codec, id, st.obj.value, st.edges.value, docs);
    DecompressIgnoresOtherKeys(cfg.mode, cfg.codec, d, Upserted(docs, up), key, d);
  }
  /**
   * Without compression, removeEdgeFromAdjacencyList on a coherent cache
   * rewrites exactly the vertex's own document: same props, the changed lists.
   */
  lemma RemoveEdgeRefInline(cfg: Element.Config, key: string, id: JavaId, st: VState, lbl: string, ekey: string, dir: Direction, docs: Docs)
    requires cfg.mode == Uncompressed && key in docs
    requires VRefresh(cfg, key, st, docs).0.Ok? && Coherent(cfg.mode, VRefresh(cfg, key, st, docs).1)
    requires AdjRemove(VRefresh(cfg, key, st, docs).1.edges.value, lbl, ekey, dir).0 == Pass
    ensures var s1 := VRefresh(cfg, key, st, docs).1;
      var a := AdjRemove(s1.edges.value, lbl, ekey, dir).1;
      var (o, s, docs') := RemoveEdgeRef(cfg, key, id, st, lbl, ekey, dir, docs);
      o == Pass && s == VState(Some(VDoc(s1.obj.value.props, Inline(a))), Some(a))
      && docs' == docs[key := VDoc(s1.obj.value.props, Inline(a))]
  {
  }

  /**
   * Without compression, addEdgeToAdjacencyList on a coherent cache rewrites
   * exactly the vertex's own document: same props, the key appended.
   */
  lemma AddEdgeRefInline(cfg: Element.Config, key: string, id: JavaId, st: VState, lbl: string, ekey: string, dir: Direction, docs: Docs)
    requires cfg.mode == Uncompressed && key in docs
    requires VRefresh(cfg, key, st, docs).0.Ok? && Coherent(cfg.mode, VRefresh(cfg, key, st, docs).1)
    ensures var s1 := VRefresh(cfg, key, st, docs).1;
      var a := AdjAdd(s1.edges.value, lbl, ekey, dir);
      var (o, s, docs') := AddEdgeRef(cfg, key, id, st, lbl, ekey, dir, docs);
      o == Pass && s == VState(Some(VDoc(s1.obj.value.props, Inline(a))), Some(a))
      && docs' == docs[key := VDoc(s1.obj.value.props, Inline(a))]
  {
  }
}
