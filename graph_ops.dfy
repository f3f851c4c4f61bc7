// CBGraph as functions of the store: addVertex, getVertex, addEdge,
// getEdge, the listings driven by the views' rows, and the two
// property filters.

module GraphOps {
  import opened Wrappers
  import opened Documents
  import opened Store
  import opened Keys
  import opened CBModel
  import Element
  import VertexOps
  import EdgeOps
  import opened Scans

  type VHandle = VertexOps.VHandle
  type EHandle = EdgeOps.EHandle

  /**
   * addVertex(id): a null id takes the next counter value (a Long); the new
   * vertex document is added (an existing one is kept), then the vertex is
   * opened by its id. A failed id generation or a missing document gives
   * null; any other failure escapes.
   */
  function AddVertex(cfg: Element.Config, id: Option<JavaId>, docs: Docs, counter: Option<int>): (r: (Result<Option<VHandle>>, Docs, Option<int>))
    ensures id.Some? ==> r.2 == counter
    ensures id.None? ==> r.2 == Increment(counter).1
    ensures r.0.Ok? && r.0.value.Some? ==> r.0.value.value.key in r.1
    ensures id.Some? ==> r.1 == AddDoc(docs, GenVertexKey(id.value), NewVertexDoc)
  {
    var (rid, c1) :=
      if id.Some? then (Ok(id.value), counter)
      else
        match Increment(counter)
        case (Err(f), c) => (Err(f), c)
        case (Ok(n), c) => (Ok(LongId(n)), c);
    if rid.Err? then (Ok(None), docs, c1)
    else
      var d1 := AddDoc(docs, GenVertexKey(rid.value), NewVertexDoc);
      match VertexOps.OpenById(cfg, rid.value, d1)
      case Err(f) => (if f.DocNotFound? then Ok(None) else Err(f), d1, c1)
      case Ok(h) => (Ok(Some(h)), d1, c1)
  }

  /** getVertex(id): the vertex opened by its id, null when its document is missing. */
  function GetVertex(cfg: Element.Config, id: JavaId, docs: Docs): (r: Result<Option<VHandle>>)
    ensures r.Ok? && r.value.Some? ==> r.value.value.key == GenVertexKey(id) && r.value.value.id == id
    ensures GenVertexKey(id) !in docs ==> r == Ok(None)
  {
    match VertexOps.OpenById(cfg, id, docs)
    case Err(f) => if f.DocNotFound? then Ok(None) else Err(f)
    case Ok(h) => Ok(Some(h))
  }

  /** getEdge(id): the edge at the edge prefix followed by the id's string form, null when missing. */
  function GetEdge(cfg: Element.Config, id: JavaId, docs: Docs): (r: Result<Option<EHandle>>)
    ensures r.Ok? && r.value.Some? ==> r.value.value.key == EDGE_PREFIX + IdString(id)
    ensures ParseEdgeKey(EDGE_PREFIX + IdString(id)).Ok? && EDGE_PREFIX + IdString(id) !in docs ==> r == Ok(None)
  {
    match EdgeOps.OpenByKey(cfg, EDGE_PREFIX + IdString(id), docs)
    case Err(f) => if f.DocNotFound? then Ok(None) else Err(f)
    case Ok(e) => Ok(Some(e))
  }

  /** The result of addEdge: the new edge (or null), and the two vertex handles' caches afterwards. */
  datatype AddEdgeResult = AddEdgeResult(edge: Result<Option<EHandle>>, st1: VertexOps.VState, st2: VertexOps.VState, docs: Docs)

  /**
   * addEdge(id, v1, v2, label): both vertices are refreshed, the edge
   * document (from, to, label; no props) is added under the key generated
   * from the vertex ids (the given id is ignored), the key is appended to
   * v1's OUT list and to v2's IN list, and the edge is opened by its key.
   * `same` says v1 and v2 are one object, whose cache both steps share.
   * A DocNotFoundException from the refreshes or the final open gives null.
   */
  function AddEdge(cfg: Element.Config, h1: VHandle, h2: VHandle, same: bool, lbl: string, docs: Docs): (r: AddEdgeResult)
    ensures same ==> r.st1 == r.st2
  {
    var v2 := if same then h1 else h2;
    var (r1, s1) := VertexOps.VRefresh(cfg, h1.key, h1.st, docs);
    var t2 := if same then s1 else v2.st;
    if r1.Err? then
      AddEdgeResult(if Element.Swallowed(r1) then Ok(None) else Err(r1.failure), s1, t2, docs)
    else
      var (r2, s2) := VertexOps.VRefresh(cfg, v2.key, t2, docs);
      var t1 := if same then s2 else s1;
      if r2.Err? then
        AddEdgeResult(if Element.Swallowed(r2) then Ok(None) else Err(r2.failure), t1, s2, docs)
      else Link(cfg, h1, v2, same, lbl, GenEdgeKey(h1.id, lbl, v2.id), t1, s2, docs)
  }

  /**
   * The writes of addEdge once both refreshes went through, from the caches
   * `t1` and `t2` the two handles hold at that point; `eKey` is the
   * generated edge key.
   */
  function Link(cfg: Element.Config, h1: VHandle, v2: VHandle, same: bool, lbl: string, eKey: string, t1: VertexOps.VState, t2: VertexOps.VState, docs: Docs): (r: AddEdgeResult)
    ensures same && t1 == t2 ==> r.st1 == r.st2
  {
    var d1 := AddDoc(docs, eKey, EDoc(h1.key, v2.key, lbl, None));
    var (o1, u1, d2) := VertexOps.AddEdgeRef(cfg, h1.key, h1.id, t1, lbl, eKey, OUT, d1);
    var u2 := if same then u1 else t2;
    if o1.Fail? then AddEdgeResult(Err(o1.failure), u1, u2, d2)
    else
      var (o2, w2, d3) := VertexOps.AddEdgeRef(cfg, v2.key, v2.id, u2, lbl, eKey, IN, d2);
      var w1 := if same then w2 else u1;
      if o2.Fail? then AddEdgeResult(Err(o2.failure), w1, w2, d3)
      else
        match EdgeOps.OpenByKey(cfg, eKey, d3)
        case Err(f) => AddEdgeResult(if f.DocNotFound? then Ok(None) else Err(f), w1, w2, d3)
        case Ok(e) => AddEdgeResult(Ok(Some(e)), w1, w2, d3)
  }

  /** getVertices(): the vertices of the view's rows, opened by key; missing ones are skipped. */
  function AllVertices(cfg: Element.Config, rows: seq<string>, acc: seq<VHandle>, docs: Docs): Result<seq<VHandle>>
    decreases |rows|
  {
    if rows == [] then Ok(acc)
    else
      match VertexOps.OpenByKey(cfg, rows[0], docs)
      case Err(f) => if f.DocNotFound? then AllVertices(cfg, rows[1..], acc, docs) else Err(f)
      case Ok(h) => AllVertices(cfg, rows[1..], acc + [h], docs)
  }

  /** getEdges(): the edges of the view's rows, opened by key; missing ones are skipped. */
  function AllEdges(cfg: Element.Config, rows: seq<string>, acc: seq<EHandle>, docs: Docs): Result<seq<EHandle>>
    decreases |rows|
  {
    if rows == [] then Ok(acc)
    else
      match EdgeOps.OpenByKey(cfg, rows[0], docs)
      case Err(f) => if f.DocNotFound? then AllEdges(cfg, rows[1..], acc, docs) else Err(f)
      case Ok(e) => AllEdges(cfg, rows[1..], acc + [e], docs)
  }

  /** getProperty(k) answered `value`: a non-null value equal to it. */
  predicate Matches(read: Result<Option<Value>>, value: Value)
  {
    read.Ok? && read.value == Some(value)
  }

  /**
   * getVertices(k, value) over the listed vertices: those whose getProperty(k)
   * equals `value`, each with the cache that read left behind.
   */
  function VerticesWith(cfg: Element.Config, vs: seq<VHandle>, k: string, value: Value, acc: seq<VHandle>, docs: Docs): Result<seq<VHandle>>
    decreases |vs|
  {
    if vs == [] then Ok(acc)
    else
      var v := vs[0];
      var (read, s) := VertexOps.GetProperty(cfg, v.key, v.st, k, docs);
      if read.Err? then Err(read.failure)
      else VerticesWith(cfg, vs[1..], k, value, if Matches(read, value) then acc + [v.(st := s)] else acc, docs)
  }

  /** getEdges(k, value) over the listed edges, as for vertices. */
  function EdgesWith(cfg: Element.Config, es: seq<EHandle>, k: string, value: Value, acc: seq<EHandle>, docs: Docs): Result<seq<EHandle>>
    decreases |es|
  {
    if es == [] then Ok(acc)
    else
      var e := es[0];
      var (read, s) := EdgeOps.GetProperty(cfg, e.key, e.st, k, docs);
      if read.Err? then Err(read.failure)
      else EdgesWith(cfg, es[1..], k, value, if Matches(read, value) then acc + [e.(st := s)] else acc, docs)
  }

  /** getProperty(k) on a listed vertex, from the cache its handle holds. */
  function ReadVertex(cfg: Element.Config, v: VHandle, k: string, docs: Docs): (Result<Option<Value>>, VertexOps.VState)
  {
    VertexOps.GetProperty(cfg, v.key, v.st, k, docs)
  }

  /** getProperty(k) on a listed edge, from the cache its handle holds. */
  function ReadEdge(cfg: Element.Config, e: EHandle, k: string, docs: Docs): (Result<Option<Value>>, EdgeOps.EState)
  {
    EdgeOps.GetProperty(cfg, e.key, e.st, k, docs)
  }

  /** The opening of one row failed because its document is missing. */
  predicate Missing<T>(o: Result<T>)
  {
    o.Err? && o.failure.DocNotFound?
  }

  /** What getVertices() does with one row: missing is skipped, another failure escapes. */
  function VertexRow(cfg: Element.Config, docs: Docs): string -> Result<Option<VHandle>>
  {
    key =>
      match VertexOps.OpenByKey(cfg, key, docs)
      case Err(f) => if f.DocNotFound? then Ok(None) else Err(f)
      case Ok(h) => Ok(Some(h))
  }

  /** What getEdges() does with one row, as for vertices. */
  function EdgeRow(cfg: Element.Config, docs: Docs): string -> Result<Option<EHandle>>
  {
    key =>
      match EdgeOps.OpenByKey(cfg, key, docs)
      case Err(f) => if f.DocNotFound? then Ok(None) else Err(f)
      case Ok(e) => Ok(Some(e))
  }

  /** What getVertices(k, value) does with one vertex: a failed read escapes, a match is kept. */
  function VertexWith(cfg: Element.Config, k: string, value: Value, docs: Docs): VHandle -> Result<Option<VHandle>>
  {
    v =>
      var (read, s) := ReadVertex(cfg, v, k, docs);
      if read.Err? then Err(read.failure)
      else if Matches(read, value) then Ok(Some(v.(st := s)))
      else Ok(None)
  }

  /** What getEdges(k, value) does with one edge, as for vertices. */
  function EdgeWith(cfg: Element.Config, k: string, value: Value, docs: Docs): EHandle -> Result<Option<EHandle>>
  {
    e =>
      var (read, s) := ReadEdge(cfg, e, k, docs);
      if read.Err? then Err(read.failure)
      else if Matches(read, value) then Ok(Some(e.(st := s)))
      else Ok(None)
  }

  /** The step of getVertices(k, value) on `v` answers as the read of `v` does. */
  lemma VertexWithRead(cfg: Element.Config, k: string, value: Value, docs: Docs, v: VHandle)
    ensures var f := VertexWith(cfg, k, value, docs);
      var (read, s) := ReadVertex(cfg, v, k, docs);
      (f(v).Ok? <==> read.Ok?) && (read.Err? ==> f(v) == Err(read.failure))
      && (Keeps(f, v) <==> Matches(read, value))
      && (Keeps(f, v) ==> f(v).value.value == v.(st := s))
  {
  }

  /** The step of getEdges(k, value) on `e` answers as the read of `e` does. */
  lemma EdgeWithRead(cfg: Element.Config, k: string, value: Value, docs: Docs, e: EHandle)
    ensures var f := EdgeWith(cfg, k, value, docs);
      var (read, s) := ReadEdge(cfg, e, k, docs);
      (f(e).Ok? <==> read.Ok?) && (read.Err? ==> f(e) == Err(read.failure))
      && (Keeps(f, e) <==> Matches(read, value))
      && (Keeps(f, e) ==> f(e).value.value == e.(st := s))
  {
  }

  /** The step of getVertices() on a row answers as opening the row does, a missing document aside. */
  lemma VertexRowOpens(cfg: Element.Config, docs: Docs, key: string)
    ensures var f := VertexRow(cfg, docs);
      var o := VertexOps.OpenByKey(cfg, key, docs);
      (f(key).Ok? <==> o.Ok? || Missing(o))
      && (f(key).Err? ==> o == Err(f(key).failure) && !f(key).failure.DocNotFound?)
      && (Keeps(f, key) <==> o.Ok?)
      && (o.Ok? ==> f(key) == Ok(Some(o.value)))
  {
  }

  /** The step of getEdges() on a row answers as opening the row does, a missing document aside. */
  lemma EdgeRowOpens(cfg: Element.Config, docs: Docs, key: string)
    ensures var f := EdgeRow(cfg, docs);
      var o := EdgeOps.OpenByKey(cfg, key, docs);
      (f(key).Ok? <==> o.Ok? || Missing(o))
      && (f(key).Err? ==> o == Err(f(key).failure) && !f(key).failure.DocNotFound?)
      && (Keeps(f, key) <==> o.Ok?)
      && (o.Ok? ==> f(key) == Ok(Some(o.value)))
  {
  }

  lemma {:induction false} AllVerticesIsScan(cfg: Element.Config, rows: seq<string>, acc: seq<VHandle>, docs: Docs)
    decreases |rows|
    ensures AllVertices(cfg, rows, acc, docs) == Scan(rows, VertexRow(cfg, docs), acc)
  {
    if rows != [] {
      match VertexOps.OpenByKey(cfg, rows[0], docs)
      case Err(f) =>
        if f.DocNotFound? {
          AllVerticesIsScan(cfg, rows[1..], acc, docs);
        }
      case Ok(h) =>
        AllVerticesIsScan(cfg, rows[1..], acc + [h], docs);
    }
  }

  lemma {:induction false} AllEdgesIsScan(cfg: Element.Config, rows: seq<string>, acc: seq<EHandle>, docs: Docs)
    decreases |rows|
    ensures AllEdges(cfg, rows, acc, docs) == Scan(rows, EdgeRow(cfg, docs), acc)
  {
    if rows != [] {
      match EdgeOps.OpenByKey(cfg, rows[0], docs)
      case Err(f) =>
        if f.DocNotFound? {
          AllEdgesIsScan(cfg, rows[1..], acc, docs);
        }
      case Ok(e) =>
        AllEdgesIsScan(cfg, rows[1..], acc + [e], docs);
    }
  }

  lemma {:induction false} VerticesWithIsScan(cfg: Element.Config, vs: seq<VHandle>, k: string, value: Value, acc: seq<VHandle>, docs: Docs)
    decreases |vs|
    ensures VerticesWith(cfg, vs, k, value, acc, docs) == Scan(vs, VertexWith(cfg, k, value, docs), acc)
  {
    if vs != [] {
      var (read, s) := ReadVertex(cfg, vs[0], k, docs);
      if read.Ok? {
        VerticesWithIsScan(cfg, vs[1..], k, value, if Matches(read, value) then acc + [vs[0].(st := s)] else acc, docs);
      }
    }
  }

  lemma {:induction false} EdgesWithIsScan(cfg: Element.Config, es: seq<EHandle>, k: string, value: Value, acc: seq<EHandle>, docs: Docs)
    decreases |es|
    ensures EdgesWith(cfg, es, k, value, acc, docs) == Scan(es, EdgeWith(cfg, k, value, docs), acc)
  {
    if es != [] {
      var (read, s) := ReadEdge(cfg, es[0], k, docs);
      if read.Ok? {
        EdgesWithIsScan(cfg, es[1..], k, value, if Matches(read, value) then acc + [es[0].(st := s)] else acc, docs);
      }
    }
  }

  // ---------------------------------------------------------------------
  // Properties

  /**
   * Without compression, adding a vertex under a fresh id stores the empty
   * vertex document and returns a handle caching it with empty lists.
   */
  lemma AddVertexFresh(cfg: Element.Config, id: JavaId, docs: Docs, counter: Option<int>)
    requires cfg.mode == Uncompressed && GenVertexKey(id) !in docs
    ensures var (r, docs', c) := AddVertex(cfg, Some(id), docs, counter);
      r == Ok(Some(VertexOps.VHandle(GenVertexKey(id), id, VertexOps.VState(Some(NewVertexDoc), Some(Adjacency(map[], map[]))))))
      && docs' == docs[GenVertexKey(id) := NewVertexDoc] && c == counter
  {
  }

  /** Adding a vertex whose key is taken leaves the store as it was and opens the stored vertex. */
  lemma AddVertexExisting(cfg: Element.Config, id: JavaId, docs: Docs, counter: Option<int>)
    requires GenVertexKey(id) in docs
    ensures var (r, docs', _) := AddVertex(cfg, Some(id), docs, counter);
      docs' == docs && r.Ok? && r.value.Some? ==> r.value.value.st.obj == Some(docs[GenVertexKey(id)])
  {
  }

  /**
   * With compression on, a new vertex cannot be opened: its document holds
   * the lists inline, and the decoder expects a string there.
   */
  lemma AddVertexCompressedFails(cfg: Element.Config, id: JavaId, docs: Docs, counter: Option<int>)
    requires cfg.mode != Uncompressed && GenVertexKey(id) !in docs
    ensures AddVertex(cfg, Some(id), docs, counter).0 == Err(ClassCast)
  {
  }

  /** A null id takes the next counter value; without a counter, nothing is added and null comes back. */
  lemma AddVertexGeneratedId(cfg: Element.Config, docs: Docs, counter: Option<int>)
    ensures var (r, docs', c) := AddVertex(cfg, None, docs, counter);
      (counter.None? ==> r == Ok(None) && docs' == docs && c == None)
      && (counter.Some? ==> (c == Some(counter.value + 1)
                             && docs' == AddDoc(docs, GenVertexKey(LongId(counter.value + 1)), NewVertexDoc)
                             && (r.Ok? && r.value.Some? ==> r.value.value.id == LongId(counter.value + 1))))
  {
  }

  /** getEdge with the id of an edge the graph generated opens that edge's key. */
  lemma GetEdgeOfGeneratedId(cfg: Element.Config, v1: JavaId, lbl: string, v2: JavaId, docs: Docs)
    ensures GetEdge(cfg, StrId(GenEdgeId(v1, lbl, v2)), docs)
         == (match EdgeOps.OpenByKey(cfg, GenEdgeKey(v1, lbl, v2), docs)
             case Err(f) => if f.DocNotFound? then Ok(None) else Err(f)
             case Ok(e) => Ok(Some(e)))
  {
    EdgeKeyIsPrefixedId(v1, lbl, v2);
  }

  /** Both vertices are stored without compression, with their lists inline, and refresh is on. */
  predicate InlinePair(cfg: Element.Config, h1: VHandle, h2: VHandle, docs: Docs)
  {
    cfg.mode == Uncompressed && cfg.refreshEnabled
    && h1.key in docs && docs[h1.key].VDoc? && docs[h1.key].edges.Inline?
    && h2.key in docs && docs[h2.key].VDoc? && docs[h2.key].edges.Inline?
  }

  /**
   * Without compression and with refresh on, addEdge between two distinct
   * stored vertices stores the edge document (from v1's key to v2's key,
   * no props), appends its key to v1's OUT list and to v2's IN list under
   * the label, changes no other document, and returns the edge.
   */
  lemma AddEdgeLinks(cfg: Element.Config, h1: VHandle, h2: VHandle, lbl: string, docs: Docs)
    requires InlinePair(cfg, h1, h2, docs) && h1.key != h2.key
    requires GenEdgeKey(h1.id, lbl, h2.id) !in docs && ParseEdgeKey(GenEdgeKey(h1.id, lbl, h2.id)).Ok?
    ensures var eKey := GenEdgeKey(h1.id, lbl, h2.id);
      var a1 := docs[h1.key].edges.adj;
      var a2 := docs[h2.key].edges.adj;
      var r := AddEdge(cfg, h1, h2, false, lbl, docs);
      r.edge.Ok? && r.edge.value.Some? && r.edge.value.value.key == eKey
      && r.docs == docs[eKey := EDoc(h1.key, h2.key, lbl, None)]
                       [h1.key := VDoc(docs[h1.key].props, Inline(a1.(outLists := AppendRef(a1.outLists, lbl, eKey))))]
                       [h2.key := VDoc(docs[h2.key].props, Inline(a2.(inLists := AppendRef(a2.inLists, lbl, eKey))))]
  {
    var eKey := GenEdgeKey(h1.id, lbl, h2.id);
    var (r1, s1) := VertexOps.VRefresh(cfg, h1.key, h1.st, docs);
    var (r2, s2) := VertexOps.VRefresh(cfg, h2.key, h2.st, docs);
    assert r1.Ok? && r2.Ok?;
    assert AddEdge(cfg, h1, h2, false, lbl, docs) == Link(cfg, h1, h2, false, lbl, eKey, s1, s2, docs);
    var d1 := AddDoc(docs, eKey, EDoc(h1.key, h2.key, lbl, None));
    VertexOps.AddEdgeRefInline(cfg, h1.key, h1.id, s1, lbl, eKey, OUT, d1);
    var (o1, _, d2) := VertexOps.AddEdgeRef(cfg, h1.key, h1.id, s1, lbl, eKey, OUT, d1);
    VertexOps.AddEdgeRefInline(cfg, h2.key, h2.id, s2, lbl, eKey, IN, d2);
    var (o2, _, d3) := VertexOps.AddEdgeRef(cfg, h2.key, h2.id, s2, lbl, eKey, IN, d2);
    assert o1 == Pass && o2 == Pass;
    EdgeOps.OpenByKeyStored(cfg, eKey, d3);
  }

  /**
   * A self-loop added through one handle with refresh off lands in both of
   * the vertex's lists.
   */
  lemma AddSelfLoopOneHandle(cfg: Element.Config, h: VHandle, lbl: string, docs: Docs)
    requires cfg.mode == Uncompressed && !cfg.refreshEnabled
    requires h.key in docs && docs[h.key].VDoc? && docs[h.key].edges.Inline?
    requires h.st == VertexOps.VState(Some(docs[h.key]), Some(docs[h.key].edges.adj))
    requires GenEdgeKey(h.id, lbl, h.id) !in docs
    ensures var eKey := GenEdgeKey(h.id, lbl, h.id);
      var a := docs[h.key].edges.adj;
      var r := AddEdge(cfg, h, h, true, lbl, docs);
      h.key in r.docs
      && r.docs[h.key] == VDoc(docs[h.key].props, Inline(Adjacency(AppendRef(a.inLists, lbl, eKey), AppendRef(a.outLists, lbl, eKey))))
  {
    var eKey := GenEdgeKey(h.id, lbl, h.id);
    var d1 := AddDoc(docs, eKey, EDoc(h.key, h.key, lbl, None));
    SelfLoopRefs(cfg, h.key, h.id, h.st, lbl, eKey, d1);
    assert VertexOps.VRefresh(cfg, h.key, h.st, docs) == (Ok(false), h.st);
    assert AddEdge(cfg, h, h, true, lbl, docs) == Link(cfg, h, h, true, lbl, eKey, h.st, h.st, docs);
    var (o1, u1, d2) := VertexOps.AddEdgeRef(cfg, h.key, h.id, h.st, lbl, eKey, OUT, d1);
    var (o2, _, d3) := VertexOps.AddEdgeRef(cfg, h.key, h.id, u1, lbl, eKey, IN, d2);
    assert Link(cfg, h, h, true, lbl, eKey, h.st, h.st, docs).docs == d3;
  }

  /** The two list updates of a self-loop through one handle with refresh off. */
  lemma SelfLoopRefs(cfg: Element.Config, key: string, id: JavaId, st: VertexOps.VState, lbl: string, eKey: string, d1: Docs)
    requires cfg.mode == Uncompressed && !cfg.refreshEnabled
    requires key in d1 && d1[key].VDoc? && d1[key].edges.Inline?
    requires st == VertexOps.VState(Some(d1[key]), Some(d1[key].edges.adj))
    ensures var (o1, u1, d2) := VertexOps.AddEdgeRef(cfg, key, id, st, lbl, eKey, OUT, d1);
      var (o2, _, d3) := VertexOps.AddEdgeRef(cfg, key, id, u1, lbl, eKey, IN, d2);
      var a := d1[key].edges.adj;
      o1 == Pass && o2 == Pass && key in d3
      && d3[key] == VDoc(d1[key].props, Inline(Adjacency(AppendRef(a.inLists, lbl, eKey), AppendRef(a.outLists, lbl, eKey))))
  {
    VertexOps.AddEdgeRefInline(cfg, key, id, st, lbl, eKey, OUT, d1);
    var (o1, u1, d2) := VertexOps.AddEdgeRef(cfg, key, id, st, lbl, eKey, OUT, d1);
    var a := d1[key].edges.adj;
    var a1 := AdjAdd(a, lbl, eKey, OUT);
    AdjAddDirections(a, lbl, eKey, OUT);
    assert u1 == VertexOps.VState(Some(VDoc(d1[key].props, Inline(a1))), Some(a1));
    VertexOps.AddEdgeRefInline(cfg, key, id, u1, lbl, eKey, IN, d2);
    var (o2, _, d3) := VertexOps.AddEdgeRef(cfg, key, id, u1, lbl, eKey, IN, d2);
    var a2 := AdjAdd(a1, lbl, eKey, IN);
    AdjAddDirections(a1, lbl, eKey, IN);
    assert d3[key] == VDoc(d1[key].props, Inline(a2));
    assert a2 == Adjacency(AppendRef(a.inLists, lbl, eKey), AppendRef(a.outLists, lbl, eKey));
  }

  /**
   * A self-loop added through two handles on the same vertex with refresh
   * off loses its OUT entry: the second handle writes back its stale lists
   * over the first one's write.
   */
  lemma AddSelfLoopTwoHandles(cfg: Element.Config, h1: VHandle, h2: VHandle, lbl: string, docs: Docs)
    requires cfg.mode == Uncompressed && !cfg.refreshEnabled
    requires h1.key == h2.key && h1.id == h2.id
    requires h1.key in docs && docs[h1.key].VDoc? && docs[h1.key].edges.Inline?
    requires h1.st == VertexOps.VState(Some(docs[h1.key]), Some(docs[h1.key].edges.adj)) && h2.st == h1.st
    requires GenEdgeKey(h1.id, lbl, h2.id) !in docs
    ensures var eKey := GenEdgeKey(h1.id, lbl, h2.id);
      var a := docs[h1.key].edges.adj;
      var r := AddEdge(cfg, h1, h2, false, lbl, docs);
      h1.key in r.docs
      && r.docs[h1.key] == VDoc(docs[h1.key].props, Inline(a.(inLists := AppendRef(a.inLists, lbl, eKey))))
  {
    var eKey := GenEdgeKey(h1.id, lbl, h2.id);
    var d1 := AddDoc(docs, eKey, EDoc(h1.key, h2.key, lbl, None));
    assert VertexOps.VRefresh(cfg, h1.key, h1.st, docs) == (Ok(false), h1.st);
    assert AddEdge(cfg, h1, h2, false, lbl, docs) == Link(cfg, h1, h2, false, lbl, eKey, h1.st, h2.st, docs);
    VertexOps.AddEdgeRefInline(cfg, h1.key, h1.id, h1.st, lbl, eKey, OUT, d1);
    var (o1, _, d2) := VertexOps.AddEdgeRef(cfg, h1.key, h1.id, h1.st, lbl, eKey, OUT, d1);
    VertexOps.AddEdgeRefInline(cfg, h2.key, h2.id, h2.st, lbl, eKey, IN, d2);
    var (o2, _, d3) := VertexOps.AddEdgeRef(cfg, h2.key, h2.id, h2.st, lbl, eKey, IN, d2);
    assert o1 == Pass && o2 == Pass;
    assert Link(cfg, h1, h2, false, lbl, eKey, h1.st, h2.st, docs).docs == d3;
  }

  /**
   * getVertices(k, value) over `vs` fails exactly when some read fails, and
   * then with the first failing read; otherwise it lists, in the order of
   * `vs` and each once, exactly the vertices whose getProperty(k) equals
   * `value` (the positions `h`), each with the cache its read left, and each
   * still matching when read again.
   */
  lemma VerticesWithSpec(cfg: Element.Config, vs: seq<VHandle>, k: string, value: Value, acc: seq<VHandle>, docs: Docs)
    ensures var r := VerticesWith(cfg, vs, k, value, acc, docs);
      var h := Hits(vs, VertexWith(cfg, k, value, docs), 0);
      (forall n :: 0 <= n < |vs| ==> (n in h <==> Matches(ReadVertex(cfg, vs[n], k, docs).0, value)))
      && (r.Ok? <==> forall n :: 0 <= n < |vs| ==> ReadVertex(cfg, vs[n], k, docs).0.Ok?)
      && (r.Err? ==> exists n :: 0 <= n < |vs| && ReadVertex(cfg, vs[n], k, docs).0 == Err(r.failure)
                                && forall m :: 0 <= m < n ==> ReadVertex(cfg, vs[m], k, docs).0.Ok?)
      && (r.Ok? ==> |r.value| == |acc| + |h| && r.value[..|acc|] == acc
                    && (forall j :: 0 <= j < |h| ==> r.value[|acc| + j] == vs[h[j]].(st := ReadVertex(cfg, vs[h[j]], k, docs).1))
                    && forall v :: v in r.value[|acc|..] ==> Matches(ReadVertex(cfg, v, k, docs).0, value))
  {
    var f := VertexWith(cfg, k, value, docs);
    VerticesWithIsScan(cfg, vs, k, value, acc, docs);
    assert vs[0..] == vs;
    ScanExact(vs, f, acc, 0);
    forall n | 0 <= n < |vs| {
      VertexWithRead(cfg, k, value, docs, vs[n]);
    }
    var r := VerticesWith(cfg, vs, k, value, acc, docs);
    var h := Hits(vs, f, 0);
    if r.Ok? {
      forall v | v in r.value[|acc|..]
        ensures Matches(ReadVertex(cfg, v, k, docs).0, value)
      {
        var j :| 0 <= j < |r.value[|acc|..]| && r.value[|acc|..][j] == v;
        var u := vs[h[j]];
        assert f(u) == Ok(Some(r.value[|acc| + j]));
        VertexWithRead(cfg, k, value, docs, u);
        ReadAgain(cfg, u, k, docs);
      }
    }
  }

  /**
   * getEdges(k, value) over `es`, as for vertices: the first failing read
   * escapes; otherwise exactly the matching edges, in order, each once,
   * with the caches their reads left.
   */
  lemma EdgesWithSpec(cfg: Element.Config, es: seq<EHandle>, k: string, value: Value, acc: seq<EHandle>, docs: Docs)
    ensures var r := EdgesWith(cfg, es, k, value, acc, docs);
      var h := Hits(es, EdgeWith(cfg, k, value, docs), 0);
      (forall n :: 0 <= n < |es| ==> (n in h <==> Matches(ReadEdge(cfg, es[n], k, docs).0, value)))
      && (r.Ok? <==> forall n :: 0 <= n < |es| ==> ReadEdge(cfg, es[n], k, docs).0.Ok?)
      && (r.Err? ==> exists n :: 0 <= n < |es| && ReadEdge(cfg, es[n], k, docs).0 == Err(r.failure)
                                && forall m :: 0 <= m < n ==> ReadEdge(cfg, es[m], k, docs).0.Ok?)
      && (r.Ok? ==> |r.value| == |acc| + |h| && r.value[..|acc|] == acc
                    && forall j :: 0 <= j < |h| ==>
                         r.value[|acc| + j] == es[h[j]].(st := ReadEdge(cfg, es[h[j]], k, docs).1))
  {
    var f := EdgeWith(cfg, k, value, docs);
    EdgesWithIsScan(cfg, es, k, value, acc, docs);
    assert es[0..] == es;
    ScanExact(es, f, acc, 0);
    forall n | 0 <= n < |es| {
      EdgeWithRead(cfg, k, value, docs, es[n]);
    }
  }

  /** Reading a property again, from the cache the first read left, gives the same answer. */
  lemma ReadAgain(cfg: Element.Config, v: VHandle, k: string, docs: Docs)
    requires VertexOps.GetProperty(cfg, v.key, v.st, k, docs).0.Ok?
    ensures var (read, s) := VertexOps.GetProperty(cfg, v.key, v.st, k, docs);
      VertexOps.GetProperty(cfg, v.key, s, k, docs).0 == read
  {
  }

  /**
   * getEdges(k, value) over edges the graph created, with refresh on, is a
   * NullPointerException: addEdge writes no props object.
   */
  lemma EdgesWithoutPropsFail(cfg: Element.Config, es: seq<EHandle>, k: string, value: Value, docs: Docs)
    requires cfg.refreshEnabled && es != []
    requires es[0].key in docs && docs[es[0].key].EDoc? && docs[es[0].key].eprops.None?
    ensures EdgesWith(cfg, es, k, value, [], docs) == Err(NullPointer)
  {
  }

  /**
   * Every vertex the listing adds comes from a row, holds the document
   * stored under its key, and no row without a document is listed.
   */
  lemma {:induction false} AllVerticesKeys(cfg: Element.Config, rows: seq<string>, acc: seq<VHandle>, docs: Docs)
    decreases |rows|
    ensures var r := AllVertices(cfg, rows, acc, docs);
      r.Ok? ==>
        (|acc| <= |r.value| && r.value[..|acc|] == acc
         && (forall v :: v in r.value[|acc|..] ==> v.key in rows && v.key in docs && v.st.obj == Some(docs[v.key]))
         && (forall key :: key in rows && key !in docs ==> forall v :: v in r.value[|acc|..] ==> v.key != key))
  {
    if rows != [] {
      match VertexOps.OpenByKey(cfg, rows[0], docs)
      case Err(f) =>
        if f.DocNotFound? {
          AllVerticesKeys(cfg, rows[1..], acc, docs);
        }
      case Ok(h) =>
        AllVerticesKeys(cfg, rows[1..], acc + [h], docs);
        var r := AllVertices(cfg, rows, acc, docs);
        if r.Ok? {
          assert r.value[..|acc|] == r.value[..|acc| + 1][..|acc|];
          assert r.value[|acc|..] == [h] + r.value[|acc| + 1..];
        }
    }
  }

  /**
   * getVertices() over the view's rows fails exactly when opening some row
   * fails other than for a missing document, and then with the first such
   * failure; otherwise it lists, in the rows' order and each once, the
   * vertex of every row that opens (the positions `h`), and skips exactly
   * the rows whose document is missing.
   */
  lemma AllVerticesSpec(cfg: Element.Config, rows: seq<string>, acc: seq<VHandle>, docs: Docs)
    ensures var r := AllVertices(cfg, rows, acc, docs);
      var h := Hits(rows, VertexRow(cfg, docs), 0);
      (forall n :: 0 <= n < |rows| ==> (n in h <==> VertexOps.OpenByKey(cfg, rows[n], docs).Ok?))
      && (r.Ok? <==> forall n :: 0 <= n < |rows| ==> VertexOps.OpenByKey(cfg, rows[n], docs).Ok? || Missing(VertexOps.OpenByKey(cfg, rows[n], docs)))
      && (r.Err? ==> !r.failure.DocNotFound?
                     && exists n :: 0 <= n < |rows| && VertexOps.OpenByKey(cfg, rows[n], docs) == Err(r.failure)
                                    && forall m :: 0 <= m < n ==> VertexOps.OpenByKey(cfg, rows[m], docs).Ok? || Missing(VertexOps.OpenByKey(cfg, rows[m], docs)))
      && (r.Ok? ==> |r.value| == |acc| + |h| && r.value[..|acc|] == acc
                    && forall j :: 0 <= j < |h| ==> VertexOps.OpenByKey(cfg, rows[h[j]], docs) == Ok(r.value[|acc| + j]))
  {
    var f := VertexRow(cfg, docs);
    AllVerticesIsScan(cfg, rows, acc, docs);
    assert rows[0..] == rows;
    ScanExact(rows, f, acc, 0);
    forall n | 0 <= n < |rows| {
      VertexRowOpens(cfg, docs, rows[n]);
    }
  }

  /** getEdges() over the view's rows, as for vertices. */
  lemma AllEdgesSpec(cfg: Element.Config, rows: seq<string>, acc: seq<EHandle>, docs: Docs)
    ensures var r := AllEdges(cfg, rows, acc, docs);
      var h := Hits(rows, EdgeRow(cfg, docs), 0);
      (forall n :: 0 <= n < |rows| ==> (n in h <==> EdgeOps.OpenByKey(cfg, rows[n], docs).Ok?))
      && (r.Ok? <==> forall n :: 0 <= n < |rows| ==> EdgeOps.OpenByKey(cfg, rows[n], docs).Ok? || Missing(EdgeOps.OpenByKey(cfg, rows[n], docs)))
      && (r.Err? ==> !r.failure.DocNotFound?
                     && exists n :: 0 <= n < |rows| && EdgeOps.OpenByKey(cfg, rows[n], docs) == Err(r.failure)
                                    && forall m :: 0 <= m < n ==> EdgeOps.OpenByKey(cfg, rows[m], docs).Ok? || Missing(EdgeOps.OpenByKey(cfg, rows[m], docs)))
      && (r.Ok? ==> |r.value| == |acc| + |h| && r.value[..|acc|] == acc
                    && forall j :: 0 <= j < |h| ==> EdgeOps.OpenByKey(cfg, rows[h[j]], docs) == Ok(r.value[|acc| + j]))
  {
    var f := EdgeRow(cfg, docs);
    AllEdgesIsScan(cfg, rows, acc, docs);
    assert rows[0..] == rows;
    ScanExact(rows, f, acc, 0);
    forall n | 0 <= n < |rows| {
      EdgeRowOpens(cfg, docs, rows[n]);
    }
  }
}
