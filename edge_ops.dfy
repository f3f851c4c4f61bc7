// CBEdge as functions of the handle's cache and the store: the refresh that
// reads the endpoints and label, the two constructors, getVertex, getLabel,
// remove (unlink from both endpoints, then delete), and the fetch of a list
// of edge keys that the vertex traversals use.

module EdgeOps {
  import opened Wrappers
  import opened Documents
  import opened Store
  import opened Keys
  import Element
  import VertexOps

  /** The cache of an edge handle: the document, and innerFrom, innerTo, innerLabel. */
  datatype EState = EState(obj: Option<Doc>, from: string, to: string, lbl: string)

  /** An edge handle: its key, its id (the key without the prefix) and its cache. */
  datatype EHandle = EHandle(key: string, id: string, st: EState)

  /**
   * CBEdge.refresh: the element refresh, then, when it fetched, the
   * endpoints and label read from the document; a document without them
   * (not an edge document) ends in a NullPointerException.
   */
  function ERefresh(cfg: Element.Config, key: string, st: EState, docs: Docs): (r: (Result<bool>, EState))
    ensures r.0.Ok? ==> r.1.obj.Some?
    ensures r.0 == Ok(true) ==> key in docs && docs[key].EDoc? && r.1 == EState(Some(docs[key]), docs[key].from, docs[key].to, docs[key].lbl)
    ensures r.0 != Ok(true) ==> r.1.from == st.from && r.1.to == st.to && r.1.lbl == st.lbl
    ensures !(st.obj.None? || cfg.refreshEnabled) ==> r == (Ok(false), st)
  {
    var (r, obj) := Element.Refresh(st.obj, cfg.refreshEnabled, key, docs);
    if r != Ok(true) then (r, st.(obj := obj))
    else
      match obj.value
      case EDoc(f, t, l, _) => (Ok(true), EState(obj, f, t, l))
      case _ => (Err(NullPointer), st.(obj := obj))
  }

  /** new CBEdge(eKey): the id is the parsed key's first slot; the refresh fetches. */
  function OpenByKey(cfg: Element.Config, key: string, docs: Docs): (r: Result<EHandle>)
    ensures r.Ok? ==> r.value.key == key && |key| >= 2 && r.value.id == key[2..]
    ensures r.Ok? ==> key in docs && docs[key].EDoc? && r.value.st.obj == Some(docs[key])
  {
    match ParseEdgeKey(key)
    case Err(f) => Err(f)
    case Ok(parts) =>
      var (res, st) := ERefresh(cfg, key, EState(None, "", "", ""), docs);
      if res.Err? then Err(res.failure) else Ok(EHandle(key, parts.id, st))
  }

  /**
   * new CBEdge(vId1, label, vId2): key and id generated from the endpoint
   * ids, endpoints and label preset, then the refresh fetches.
   */
  function OpenByEnds(cfg: Element.Config, v1: JavaId, lbl: string, v2: JavaId, docs: Docs): (r: Result<EHandle>)
    ensures r.Ok? ==> r.value.key == GenEdgeKey(v1, lbl, v2) && r.value.id == GenEdgeId(v1, lbl, v2)
  {
    var key := GenEdgeKey(v1, lbl, v2);
    var (res, st) := ERefresh(cfg, key, EState(None, GenVertexKey(v1), GenVertexKey(v2), lbl), docs);
    if res.Err? then Err(res.failure) else Ok(EHandle(key, GenEdgeId(v1, lbl, v2), st))
  }

  /**
   * getVertex: IN opens the vertex at the `to` key, OUT the one at the
   * `from` key, BOTH is an IllegalArgumentException. A DocNotFoundException
   * (of the edge or of the vertex) yields null.
   */
  function GetVertex(cfg: Element.Config, key: string, st: EState, dir: Direction, docs: Docs): (r: (Result<Option<VertexOps.VHandle>>, EState))
    ensures r.1 == ERefresh(cfg, key, st, docs).1
    ensures Element.Swallowed(ERefresh(cfg, key, st, docs).0) ==> r.0 == Ok(None)
    ensures ERefresh(cfg, key, st, docs).0.Ok? && dir == BOTH ==> r.0 == Err(IllegalArgument)
    ensures r.0.Ok? && r.0.value.Some? ==> dir != BOTH && r.0.value.value.key == (if dir == IN then r.1.to else r.1.from)
  {
    var (res, s) := ERefresh(cfg, key, st, docs);
    if res.Err? then (if Element.Swallowed(res) then Ok(None) else Err(res.failure), s)
    else if dir == BOTH then (Err(IllegalArgument), s)
    else
      var vkey := if dir == IN then s.to else s.from;
      match VertexOps.OpenByKey(cfg, vkey, docs)
      case Err(f) => (if f.DocNotFound? then Ok(None) else Err(f), s)
      case Ok(h) => (Ok(Some(h)), s)
  }

  /** getLabel: the label after the refresh; a failed fetch leaves the cached one. */
  function GetLabel(cfg: Element.Config, key: string, st: EState, docs: Docs): (r: (Result<string>, EState))
    ensures r.0.Ok? <==> ERefresh(cfg, key, st, docs).0.Ok? || Element.Swallowed(ERefresh(cfg, key, st, docs).0)
    ensures r.0.Ok? ==> r.0.value == r.1.lbl
    ensures ERefresh(cfg, key, st, docs).0 != Ok(true) ==> r.0.Ok? ==> r.0.value == st.lbl
  {
    var (res, s) := ERefresh(cfg, key, st, docs);
    if res.Err? && !Element.Swallowed(res) then (Err(res.failure), s) else (Ok(s.lbl), s)
  }

  /**
   * CBEdge.remove: open the source (OUT) and the target (IN), remove the
   * edge key from the source's OUT list and the target's IN list under the
   * edge's label, then delete the edge document. A null endpoint is a
   * NullPointerException when its list is about to be changed.
   */
  function Remove(cfg: Element.Config, key: string, st: EState, docs: Docs): (Outcome, EState, Docs)
  {
    var (rs, s1) := GetVertex(cfg, key, st, OUT, docs);
    if rs.Err? then (Fail(rs.failure), s1, docs)
    else
      var (rt, s2) := GetVertex(cfg, key, s1, IN, docs);
      if rt.Err? then (Fail(rt.failure), s2, docs)
      else if rs.value.None? then (Fail(NullPointer), s2, docs)
      else
        var src := rs.value.value;
        var (o1, _, docs1) := VertexOps.RemoveEdgeRef(cfg, src.key, src.id, src.st, s2.lbl, key, OUT, docs);
        if o1.Fail? then (o1, s2, docs1)
        else if rt.value.None? then (Fail(NullPointer), s2, docs1)
        else
          var tgt := rt.value.value;
          var (o2, _, docs2) := VertexOps.RemoveEdgeRef(cfg, tgt.key, tgt.id, tgt.st, s2.lbl, key, IN, docs1);
          if o2.Fail? then (o2, s2, docs2)
          else
            var (o3, docs3) := Element.RemoveElement(key, docs2);
            (o3, s2, docs3)
  }

  /** getProperty on an edge: the edge refresh, then the element's read. */
  function GetProperty(cfg: Element.Config, key: string, st: EState, k: string, docs: Docs): (Result<Option<Value>>, EState)
  {
    var (r, s) := ERefresh(cfg, key, st, docs);
    (Element.GetProperty(r, s.obj, k), s)
  }

  /** setProperty on an edge. */
  function SetProperty(cfg: Element.Config, key: string, st: EState, k: string, v: Value, docs: Docs): (Outcome, EState, Docs)
  {
    var (r, s) := ERefresh(cfg, key, st, docs);
    var (o, obj, docs') := Element.SetProperty(r, s.obj, key, k, v, docs);
    (o, s.(obj := obj), docs')
  }

  /** removeProperty on an edge. */
  function RemoveProperty(cfg: Element.Config, key: string, st: EState, k: string, docs: Docs): (Result<Option<Json>>, EState, Docs)
  {
    var (r, s) := ERefresh(cfg, key, st, docs);
    var (rv, obj, docs') := Element.RemoveProperty(r, s.obj, key, k, docs);
    (rv, s.(obj := obj), docs')
  }

  /** getPropertyKeys on an edge. */
  function GetPropertyKeys(cfg: Element.Config, key: string, st: EState, docs: Docs): (Result<set<string>>, EState)
  {
    var (r, s) := ERefresh(cfg, key, st, docs);
    (Element.GetPropertyKeys(r, s.obj), s)
  }

  /**
   * One key of an adjacency list, fetched: nothing when the document is
   * missing or is not an edge document, else the edge handle built for it.
   */
  function FetchOne(cfg: Element.Config, k: string, docs: Docs): (r: Result<seq<EHandle>>)
    ensures r.Ok? ==> |r.value| <= 1
    ensures r.Ok? && |r.value| == 1 ==> r.value[0].key == k
  {
    if k in docs && docs[k].EDoc? then
      match OpenByKey(cfg, k, docs)
      case Err(f) => Err(f)
      case Ok(h) => Ok([h])
    else Ok([])
  }

  /** The edges of a list of keys, in order, appended to `acc`. */
  function FetchFrom(cfg: Element.Config, keys: seq<string>, acc: seq<EHandle>, docs: Docs): Result<seq<EHandle>>
    decreases |keys|
  {
    if keys == [] then Ok(acc)
    else
      match FetchOne(cfg, keys[0], docs)
      case Err(f) => Err(f)
      case Ok(h) => FetchFrom(cfg, keys[1..], acc + h, docs)
  }

  /** edgesFromJsonArr on a present array: the edges its keys name, in order. */
  function FetchEdges(cfg: Element.Config, keys: seq<string>, docs: Docs): Result<seq<EHandle>>
  {
    FetchFrom(cfg, keys, [], docs)
  }

  /** The keys of a list that name a stored edge document, in order. */
  function StoredEdgeKeys(keys: seq<string>, docs: Docs): seq<string>
  {
    if keys == [] then []
    else (if keys[0] in docs && docs[keys[0]].EDoc? then [keys[0]] else []) + StoredEdgeKeys(keys[1..], docs)
  }

  /** The keys of a list of handles. */
  function HandleKeys(hs: seq<EHandle>): (ks: seq<string>)
    ensures |ks| == |hs| && forall i :: 0 <= i < |hs| ==> ks[i] == hs[i].key
  {
    seq(|hs|, i requires 0 <= i < |hs| => hs[i].key)
  }

  /** The handle CBEdge(key) builds for a stored edge document. */
  predicate FreshHandle(h: EHandle, docs: Docs)
  {
    h.key in docs && docs[h.key].EDoc?
    && h.st == EState(Some(docs[h.key]), docs[h.key].from, docs[h.key].to, docs[h.key].lbl)
  }

  /**
   * The fetch appends, in list order, one freshly read handle for each key
   * naming a stored edge document, and fails exactly when one of those keys
   * does not parse.
   */
  lemma {:induction false} FetchFromKeys(cfg: Element.Config, keys: seq<string>, acc: seq<EHandle>, docs: Docs)
    decreases |keys|
    ensures var r := FetchFrom(cfg, keys, acc, docs);
      (r.Ok? <==> forall k :: k in StoredEdgeKeys(keys, docs) ==> ParseEdgeKey(k).Ok?)
      && (r.Ok? ==> HandleKeys(r.value) == HandleKeys(acc) + StoredEdgeKeys(keys, docs)
                    && r.value[..|acc|] == acc
                    && forall i :: |acc| <= i < |r.value| ==> FreshHandle(r.value[i], docs))
  {
    FetchFromOk(cfg, keys, acc, docs);
    FetchFromShape(cfg, keys, acc, docs);
    FetchFromFresh(cfg, keys, acc, docs);
  }

  lemma {:induction false} FetchFromOk(cfg: Element.Config, keys: seq<string>, acc: seq<EHandle>, docs: Docs)
    decreases |keys|
    ensures FetchFrom(cfg, keys, acc, docs).Ok? <==> forall k :: k in StoredEdgeKeys(keys, docs) ==> ParseEdgeKey(k).Ok?
  {
    if keys != [] {
      var k := keys[0];
      if k in docs && docs[k].EDoc? {
        OpenByKeyStored(cfg, k, docs);
        assert StoredEdgeKeys(keys, docs) == [k] + StoredEdgeKeys(keys[1..], docs);
        match OpenByKey(cfg, k, docs)
        case Err(_) =>
        case Ok(h) => FetchFromOk(cfg, keys[1..], acc + [h], docs);
      } else {
        assert StoredEdgeKeys(keys, docs) == StoredEdgeKeys(keys[1..], docs);
        FetchFromOk(cfg, keys[1..], acc + [], docs);
      }
    }
  }

  lemma {:induction false} FetchFromShape(cfg: Element.Config, keys: seq<string>, acc: seq<EHandle>, docs: Docs)
    decreases |keys|
    ensures var r := FetchFrom(cfg, keys, acc, docs);
      r.Ok? ==> HandleKeys(r.value) == HandleKeys(acc) + StoredEdgeKeys(keys, docs)
  {
    if keys != [] {
      var k := keys[0];
      if k in docs && docs[k].EDoc? {
        match OpenByKey(cfg, k, docs)
        case Err(_) =>
        case Ok(h) =>
          FetchFromShape(cfg, keys[1..], acc + [h], docs);
          assert StoredEdgeKeys(keys, docs) == [k] + StoredEdgeKeys(keys[1..], docs);
          assert HandleKeys(acc + [h]) == HandleKeys(acc) + [k];
      } else {
        assert acc + [] == acc;
        assert StoredEdgeKeys(keys, docs) == StoredEdgeKeys(keys[1..], docs);
        FetchFromShape(cfg, keys[1..], acc + [], docs);
      }
    }
  }

  lemma {:induction false} FetchFromFresh(cfg: Element.Config, keys: seq<string>, acc: seq<EHandle>, docs: Docs)
    decreases |keys|
    ensures var r := FetchFrom(cfg, keys, acc, docs);
      r.Ok? ==> |acc| <= |r.value| && r.value[..|acc|] == acc
                && forall i :: |acc| <= i < |r.value| ==> FreshHandle(r.value[i], docs)
  {
    if keys != [] {
      var k := keys[0];
      if k in docs && docs[k].EDoc? {
        OpenByKeyStored(cfg, k, docs);
        match OpenByKey(cfg, k, docs)
        case Err(_) =>
        case Ok(h) =>
          FetchFromFresh(cfg, keys[1..], acc + [h], docs);
          var r := FetchFrom(cfg, keys[1..], acc + [h], docs);
          if r.Ok? {
            var acc' := acc + [h];
            assert r.value[..|acc'|] == acc';
            assert r.value[..|acc|] == acc'[..|acc|] == acc;
            assert FreshHandle(h, docs);
            forall i | |acc| <= i < |r.value|
              ensures FreshHandle(r.value[i], docs)
            {
              if i == |acc| {
                assert r.value[i] == acc'[|acc|];
              }
            }
          }
      } else {
        assert acc + [] == acc;
        FetchFromFresh(cfg, keys[1..], acc + [], docs);
      }
    }
  }

  /** edgesFromJsonArr's result: one fresh handle per stored edge key, in list order. */
  lemma FetchEdgesKeys(cfg: Element.Config, keys: seq<string>, docs: Docs)
    ensures var r := FetchEdges(cfg, keys, docs);
      (r.Ok? <==> forall k :: k in StoredEdgeKeys(keys, docs) ==> ParseEdgeKey(k).Ok?)
      && (r.Ok? ==> HandleKeys(r.value) == StoredEdgeKeys(keys, docs)
                    && forall i :: 0 <= i < |r.value| ==> FreshHandle(r.value[i], docs))
  {
    FetchFromKeys(cfg, keys, [], docs);
    assert HandleKeys([]) == [];
  }

  /** A key starting "al_": the side documents are the only keys an edge removal can add. */
  predicate SideKey(k: string)
  {
    |k| >= 3 && k[..3] == "al_"
  }

  /**
   * new CBEdge(eKey) on a stored edge document succeeds exactly when the key
   * parses, and the handle caches that document's endpoints and label.
   */
  lemma OpenByKeyStored(cfg: Element.Config, key: string, docs: Docs)
    requires key in docs && docs[key].EDoc?
    ensures var r := OpenByKey(cfg, key, docs);
      (r.Ok? <==> ParseEdgeKey(key).Ok?)
      && (r.Ok? ==> r.value.st == EState(Some(docs[key]), docs[key].from, docs[key].to, docs[key].lbl))
  {
  }

  /**
   * CBEdge.remove deletes no document but the edge's own, deletes that one
   * when it passes, and adds no document but adjacency-list side documents.
   */
  lemma RemoveFrame(cfg: Element.Config, key: string, st: EState, docs: Docs)
    ensures var (o, _, docs') := Remove(cfg, key, st, docs);
      (o == Pass ==> key !in docs')
      && (forall k :: k in docs && k != key ==> k in docs')
      && (forall k :: k in docs' ==> k in docs || SideKey(k))
  {
    var (rs, s1) := GetVertex(cfg, key, st, OUT, docs);
    var (rt, s2) := GetVertex(cfg, key, s1, IN, docs);
    if rs.Ok? && rt.Ok? && rs.value.Some? {
      var src := rs.value.value;
      var (o1, _, docs1) := VertexOps.RemoveEdgeRef(cfg, src.key, src.id, src.st, s2.lbl, key, OUT, docs);
      RefFrame(cfg, src, s2.lbl, key, OUT, docs);
      if o1.Pass? && rt.value.Some? {
        var tgt := rt.value.value;
        var (o2, _, docs2) := VertexOps.RemoveEdgeRef(cfg, tgt.key, tgt.id, tgt.st, s2.lbl, key, IN, docs1);
        RefFrame(cfg, tgt, s2.lbl, key, IN, docs1);
        if o2.Pass? {
          assert Remove(cfg, key, st, docs) == (Element.RemoveElement(key, docs2).0, s2, Element.RemoveElement(key, docs2).1);
        }
      }
    }
  }

  /** Dropping one reference keeps every document and adds only side documents. */
  lemma RefFrame(cfg: Element.Config, v: VertexOps.VHandle, lbl: string, key: string, dir: Direction, docs: Docs)
    ensures var docs' := VertexOps.RemoveEdgeRef(cfg, v.key, v.id, v.st, lbl, key, dir, docs).2;
      docs.Keys <= docs'.Keys && forall k :: k in docs' ==> k in docs || SideKey(k)
  {
    AdjacencyListKeyShape(v.id);
  }

  /**
   * Without compression and with refresh on, removing an edge between two
   * distinct stored vertices whose lists hold its label deletes the edge
   * document, drops the edge key from the source's OUT list and from the
   * target's IN list (as JSONHelper.remove does), and changes nothing else.
   */
  lemma RemoveUnlinks(cfg: Element.Config, key: string, st: EState, docs: Docs)
    requires cfg.mode == Uncompressed && cfg.refreshEnabled
    requires key in docs && docs[key].EDoc?
    requires docs[key].from != docs[key].to && |docs[key].from| >= 2 && |docs[key].to| >= 2
    requires docs[key].from in docs && docs[docs[key].from].VDoc? && docs[docs[key].from].edges.Inline?
    requires docs[key].lbl in docs[docs[key].from].edges.adj.outLists
    requires docs[key].to in docs && docs[docs[key].to].VDoc? && docs[docs[key].to].edges.Inline?
    requires docs[key].lbl in docs[docs[key].to].edges.adj.inLists
    ensures var e := docs[key];
      var af := docs[e.from].edges.adj;
      var at := docs[e.to].edges.adj;
      var (o, _, docs') := Remove(cfg, key, st, docs);
      o == Pass && key !in docs'
      && e.from in docs' && docs'[e.from] == VDoc(docs[e.from].props, Inline(af.(outLists := RemoveRef(af.outLists, e.lbl, key).value)))
      && e.to in docs' && docs'[e.to] == VDoc(docs[e.to].props, Inline(at.(inLists := RemoveRef(at.inLists, e.lbl, key).value)))
      && (forall k :: k in docs && k != key && k != e.from && k != e.to ==> k in docs' && docs'[k] == docs[k])
  {
    var e := docs[key];
    var (rs, s1) := GetVertex(cfg, key, st, OUT, docs);
    var (rt, s2) := GetVertex(cfg, key, s1, IN, docs);
    assert s2 == EState(Some(e), e.from, e.to, e.lbl);
    var src := rs.value.value;
    var tgt := rt.value.value;
    assert src.key == e.from && tgt.key == e.to;
    VertexOps.RemoveEdgeRefInline(cfg, src.key, src.id, src.st, e.lbl, key, OUT, docs);
    var (_, _, docs1) := VertexOps.RemoveEdgeRef(cfg, src.key, src.id, src.st, e.lbl, key, OUT, docs);
    assert docs1[e.to] == docs[e.to];
    VertexOps.RemoveEdgeRefInline(cfg, tgt.key, tgt.id, tgt.st, e.lbl, key, IN, docs1);
  }

  /**
   * With refresh off, removing a self-loop drops the key from the IN list
   * but leaves it in the OUT list: the target handle was opened before the
   * source's write and writes its stale OUT list back.
   */
  lemma SelfLoopRemoveStale(cfg: Element.Config, key: string, docs: Docs)
    requires cfg.mode == Uncompressed && !cfg.refreshEnabled
    requires key in docs && docs[key].EDoc? && docs[key].from == docs[key].to && |docs[key].from| >= 2
    requires docs[key].from in docs && docs[docs[key].from].VDoc? && docs[docs[key].from].edges.Inline?
    requires docs[key].lbl in docs[docs[key].from].edges.adj.outLists
    requires docs[key].lbl in docs[docs[key].from].edges.adj.inLists
    ensures var e := docs[key];
      var a := docs[e.from].edges.adj;
      var (o, _, docs') := Remove(cfg, key, EState(None, "", "", ""), docs);
      o == Pass && key !in docs' && e.from in docs'
      && docs'[e.from] == VDoc(docs[e.from].props, Inline(a.(inLists := RemoveRef(a.inLists, e.lbl, key).value)))
  {
    var e := docs[key];
    var st := EState(None, "", "", "");
    var (rs, s1) := GetVertex(cfg, key, st, OUT, docs);
    var (rt, s2) := GetVertex(cfg, key, s1, IN, docs);
    assert s2 == EState(Some(e), e.from, e.to, e.lbl);
    var src := rs.value.value;
    var tgt := rt.value.value;
    VertexOps.RemoveEdgeRefInline(cfg, src.key, src.id, src.st, e.lbl, key, OUT, docs);
    var (_, _, docs1) := VertexOps.RemoveEdgeRef(cfg, src.key, src.id, src.st, e.lbl, key, OUT, docs);
    VertexOps.RemoveEdgeRefInline(cfg, tgt.key, tgt.id, tgt.st, e.lbl, key, IN, docs1);
  }

  /**
   * With refresh on, removing a self-loop drops the key from both lists:
   * the target handle re-reads the source's write.
   */
  lemma SelfLoopRemoveFresh(cfg: Element.Config, key: string, st: EState, docs: Docs)
    requires cfg.mode == Uncompressed && cfg.refreshEnabled
    requires key in docs && docs[key].EDoc? && docs[key].from == docs[key].to && |docs[key].from| >= 2
    requires docs[key].from in docs && docs[docs[key].from].VDoc? && docs[docs[key].from].edges.Inline?
    requires docs[key].lbl in docs[docs[key].from].edges.adj.outLists
    requires docs[key].lbl in docs[docs[key].from].edges.adj.inLists
    ensures var e := docs[key];
      var a := docs[e.from].edges.adj;
      var a' := Adjacency(RemoveRef(a.inLists, e.lbl, key).value, RemoveRef(a.outLists, e.lbl, key).value);
      var (o, _, docs') := Remove(cfg, key, st, docs);
      o == Pass && key !in docs' && e.from in docs'
      && docs'[e.from] == VDoc(docs[e.from].props, Inline(a'))
  {
    var e := docs[key];
    var (rs, s1) := GetVertex(cfg, key, st, OUT, docs);
    var (rt, s2) := GetVertex(cfg, key, s1, IN, docs);
    assert s2 == EState(Some(e), e.from, e.to, e.lbl);
    var src := rs.value.value;
    var tgt := rt.value.value;
    VertexOps.RemoveEdgeRefInline(cfg, src.key, src.id, src.st, e.lbl, key, OUT, docs);
    var (_, _, docs1) := VertexOps.RemoveEdgeRef(cfg, src.key, src.id, src.st, e.lbl, key, OUT, docs);
    VertexOps.RemoveEdgeRefInline(cfg, tgt.key, tgt.id, tgt.st, e.lbl, key, IN, docs1);
  }
}
