// CBVertex and CBEdge as objects: each caches its document (and a vertex
// its decoded adjacency lists, an edge its endpoints and label) in fields
// that its methods update in place, and writes through the shared store.
// Every method is proved to do what the functions of VertexOps, EdgeOps and
// Traversal say, on the cache and the store it started from.

module Handles {
  import opened Wrappers
  import opened Documents
  import opened Store
  import opened Keys
  import Element
  import VertexOps
  import EdgeOps
  import Traversal

  /** A vertex handle: key and id fixed, innerObj and innerEdges updated in place. */
  class Vertex {
    const key: string
    const id: JavaId
    const cfg: Element.Config
    const store: Bucket
    var obj: Option<Doc>
    var edges: Option<Adjacency>

    /** The cache as a value. */
    function State(): VertexOps.VState
      reads this
    {
      VertexOps.VState(obj, edges)
    }

    /** The handle as a value. */
    function Handle(): VertexOps.VHandle
      reads this
    {
      VertexOps.VHandle(key, id, State())
    }

    /** A handle over an already opened cache. */
    constructor FromHandle(cfg: Element.Config, store: Bucket, h: VertexOps.VHandle)
      ensures Handle() == h && this.cfg == cfg && this.store == store
    {
      this.key := h.key;
      this.id := h.id;
      this.cfg := cfg;
      this.store := store;
      this.obj := h.st.obj;
      this.edges := h.st.edges;
    }

    /** new CBVertex(id). */
    static method OpenById(cfg: Element.Config, store: Bucket, id: JavaId) returns (r: Result<Vertex>)
      ensures r.Err? <==> VertexOps.OpenById(cfg, id, store.docs).Err?
      ensures r.Err? ==> r.failure == VertexOps.OpenById(cfg, id, store.docs).failure
      ensures r.Ok? ==> fresh(r.value) && r.value.Handle() == VertexOps.OpenById(cfg, id, store.docs).value
                        && r.value.cfg == cfg && r.value.store == store
    {
      var v := new Vertex.FromHandle(cfg, store, VertexOps.VHandle(GenVertexKey(id), id, VertexOps.VState(None, None)));
      var res := v.Refresh();
      if res.Err? {
        r := Err(res.failure);
      } else {
        r := Ok(v);
      }
    }

    /** new CBVertex(key). */
    static method OpenByKey(cfg: Element.Config, store: Bucket, key: string) returns (r: Result<Vertex>)
      ensures r.Err? <==> VertexOps.OpenByKey(cfg, key, store.docs).Err?
      ensures r.Err? ==> r.failure == VertexOps.OpenByKey(cfg, key, store.docs).failure
      ensures r.Ok? ==> fresh(r.value) && r.value.Handle() == VertexOps.OpenByKey(cfg, key, store.docs).value
                        && r.value.cfg == cfg && r.value.store == store
    {
      var id := ParseVertexKey(key);
      if id.Err? {
        return Err(id.failure);
      }
      var v := new Vertex.FromHandle(cfg, store, VertexOps.VHandle(key, id.value, VertexOps.VState(None, None)));
      var res := v.Refresh();
      if res.Err? {
        r := Err(res.failure);
      } else {
        r := Ok(v);
      }
    }

    /** refresh(): fetch when nothing is cached or refresh mode is on, then decode the lists. */
    method Refresh() returns (r: Result<bool>)
      modifies this
      ensures (r, State()) == VertexOps.VRefresh(cfg, key, old(State()), store.docs)
    {
      if obj.None? || cfg.refreshEnabled {
        var got := store.Get(key);
        if got.Err? {
          return Err(got.failure);
        }
        obj := Some(got.value);
        var dec := DecompressEdges(cfg.mode, cfg.codec, got.value, store.docs);
        if dec.Err? {
          return Err(dec.failure);
        }
        if dec.value.Undecodable? {
          return Ok(false);
        }
        edges := Some(dec.value.adj);
        return Ok(true);
      }
      return Ok(false);
    }

    /** compressEdges and replace: write the cached document back. */
    method Persist() returns (o: Outcome)
      requires obj.Some? && edges.Some?
      modifies this, store
      ensures (o, State(), store.docs) == VertexOps.Persist(cfg, key, id, old(State()), old(store.docs))
      ensures store.counter == old(store.counter)
    {
      var (d, up) := CompressEdges(cfg.mode, cfg.codec, id, obj.value, edges.value);
      if up.Some? {
        store.Upsert(up.value.0, up.value.1);
      }
      obj := Some(d);
      o := store.Replace(key, d);
    }

    /** The lists changed in place; without compression they are the cached document's own. */
    method SetEdges(a: Adjacency)
      modifies this
      ensures State() == VertexOps.SetEdges(cfg.mode, old(State()), a)
    {
      edges := Some(a);
      if cfg.mode == Uncompressed && obj.Some? && obj.value.VDoc? {
        obj := Some(WithEdges(obj.value, Inline(a)));
      }
    }

    /** addEdgeToAdjacencyList(label, edgeKey, dir). */
    method AddEdgeToAdjacencyList(lbl: string, ekey: string, dir: Direction) returns (o: Outcome)
      modifies this, store
      ensures (o, State(), store.docs) == VertexOps.AddEdgeRef(cfg, key, id, old(State()), lbl, ekey, dir, old(store.docs))
      ensures store.counter == old(store.counter)
    {
      var r := Refresh();
      if r.Err? {
        return if Element.Swallowed(r) then Pass else Fail(r.failure);
      }
      if edges.None? {
        return Fail(NullPointer);
      }
      SetEdges(AdjAdd(edges.value, lbl, ekey, dir));
      o := Persist();
    }

    /** removeEdgeFromAdjacencyList(label, edgeKey, dir). */
    method RemoveEdgeFromAdjacencyList(lbl: string, ekey: string, dir: Direction) returns (o: Outcome)
      modifies this, store
      ensures (o, State(), store.docs) == VertexOps.RemoveEdgeRef(cfg, key, id, old(State()), lbl, ekey, dir, old(store.docs))
      ensures store.counter == old(store.counter)
    {
      var r := Refresh();
      if r.Err? {
        return if Element.Swallowed(r) then Pass else Fail(r.failure);
      }
      if edges.None? {
        return Fail(NullPointer);
      }
      var (res, a) := AdjRemove(edges.value, lbl, ekey, dir);
      SetEdges(a);
      if res.Fail? {
        return res;
      }
      o := Persist();
    }

    /** getProperty(k). */
    method GetProperty(k: string) returns (v: Result<Option<Value>>)
      modifies this
      ensures (v, State()) == VertexOps.GetProperty(cfg, key, old(State()), k, store.docs)
    {
      var r := Refresh();
      v := Element.GetProperty(r, obj, k);
    }

    /** getPropertyKeys(). */
    method GetPropertyKeys() returns (ks: Result<set<string>>)
      modifies this
      ensures (ks, State()) == VertexOps.GetPropertyKeys(cfg, key, old(State()), store.docs)
    {
      var r := Refresh();
      ks := Element.GetPropertyKeys(r, obj);
    }

    /** setProperty(k, v). */
    method SetProperty(k: string, v: Value) returns (o: Outcome)
      modifies this, store
      ensures (o, State(), store.docs) == VertexOps.SetProperty(cfg, key, old(State()), k, v, old(store.docs))
      ensures store.counter == old(store.counter)
    {
      var r := Refresh();
      if r.Err? {
        return if Element.Swallowed(r) then Pass else Fail(r.failure);
      }
      var p := Element.Props(obj);
      if p.None? {
        return Fail(NullPointer);
      }
      obj := Some(WithProps(obj.value, p.value[k := ToJson(v)]));
      o := store.Replace(key, obj.value);
    }

    /** removeProperty(k): the previous value. */
    method RemoveProperty(k: string) returns (prev: Result<Option<Json>>)
      modifies this, store
      ensures (prev, State(), store.docs) == VertexOps.RemoveProperty(cfg, key, old(State()), k, old(store.docs))
      ensures store.counter == old(store.counter)
    {
      var r := Refresh();
      if r.Err? {
        return if Element.Swallowed(r) then Ok(None) else Err(r.failure);
      }
      var p := Element.Props(obj);
      if p.None? {
        return Err(NullPointer);
      }
      var before := if k in p.value then Some(p.value[k]) else None;
      obj := Some(WithProps(obj.value, p.value - {k}));
      var o := store.Replace(key, obj.value);
      prev := if o.Fail? then Err(o.failure) else Ok(before);
    }

    /** edgesFromJsonArr on a present array: the edges of the keys, fetched one by one. */
    method FetchEdges(keys: seq<string>) returns (r: Result<seq<EdgeOps.EHandle>>)
      ensures r == EdgeOps.FetchEdges(cfg, keys, store.docs)
    {
      var acc: seq<EdgeOps.EHandle> := [];
      var i := 0;
      while i < |keys|
        invariant 0 <= i <= |keys|
        invariant EdgeOps.FetchFrom(cfg, keys[i..], acc, store.docs) == EdgeOps.FetchFrom(cfg, keys, [], store.docs)
      {
        var one := EdgeOps.FetchOne(cfg, keys[i], store.docs);
        if one.Err? {
          return Err(one.failure);
        }
        acc := acc + one.value;
        i := i + 1;
      }
      r := Ok(acc);
    }

    /** One direction of one label in getEdges: a missing list makes the result add itself. */
    method Gather(lists: map<string, seq<string>>, l: string, acc: seq<EdgeOps.EHandle>) returns (r: Result<seq<EdgeOps.EHandle>>)
      ensures r == Traversal.Gather(cfg, lists, l, acc, store.docs)
    {
      if l in lists {
        var es := FetchEdges(lists[l]);
        if es.Err? {
          return Err(es.failure);
        }
        r := Ok(acc + es.value);
      } else {
        r := Ok(acc + acc);
      }
    }

    /** getEdges(dir, labels), with the view's labels standing in for an empty label list. */
    method GetEdges(dir: Direction, labels: seq<string>, allLabels: seq<string>) returns (r: Result<seq<EdgeOps.EHandle>>)
      modifies this
      ensures (r, State()) == Traversal.GetEdges(cfg, key, old(State()), dir, labels, allLabels, store.docs)
    {
      var ls := if labels == [] then allLabels else labels;
      var res := Refresh();
      if res.Err? {
        return if Element.Swallowed(res) then Ok([]) else Err(res.failure);
      }
      if ls == [] {
        return Ok([]);
      }
      if edges.None? {
        return Err(NullPointer);
      }
      var adj := edges.value;
      ghost var st := State();
      var acc: seq<EdgeOps.EHandle> := [];
      var i := 0;
      while i < |ls|
        invariant 0 <= i <= |ls|
        invariant Traversal.EdgesLoop(cfg, adj, dir, ls[i..], acc, store.docs) == Traversal.EdgesLoop(cfg, adj, dir, ls, [], store.docs)
        invariant State() == st
      {
        assert ls[i..][0] == ls[i] && ls[i..][1..] == ls[i+1..];
        if TouchesIn(dir) {
          var g := Gather(adj.inLists, ls[i], acc);
          if g.Err? {
            return g;
          }
          acc := g.value;
        }
        if TouchesOut(dir) {
          var g := Gather(adj.outLists, ls[i], acc);
          if g.Err? {
            return g;
          }
          acc := g.value;
        }
        i := i + 1;
      }
      r := Ok(acc);
    }

    /**
     * getAllEdges(): the labels of each direction in the map's own order,
     * each list's fetch replacing the result.
     */
    method GetAllEdges() returns (r: Result<seq<EdgeOps.EHandle>>)
      modifies this
      ensures State() == VertexOps.VRefresh(cfg, key, old(State()), store.docs).1
      ensures var res := VertexOps.VRefresh(cfg, key, old(State()), store.docs).0;
        (Element.Swallowed(res) ==> r == Ok([]))
        && (res.Err? && !Element.Swallowed(res) ==> r == Err(res.failure))
        && (res.Ok? && edges.None? ==> r == Err(NullPointer))
        && (res.Ok? && edges.Some? ==> Traversal.AllEdgesOutcome(cfg, edges.value, store.docs, r))
    {
      var res := Refresh();
      if res.Err? {
        return if Element.Swallowed(res) then Ok([]) else Err(res.failure);
      }
      if edges.None? {
        return Err(NullPointer);
      }
      var adj := edges.value;
      ghost var st := State();
      var acc: seq<EdgeOps.EHandle> := [];
      var rest := adj.inLists.Keys;
      while rest != {}
        invariant rest <= adj.inLists.Keys
        invariant State() == st
        invariant forall l :: l in adj.inLists && l !in rest ==> EdgeOps.FetchEdges(cfg, adj.inLists[l], store.docs).Ok?
        invariant rest == adj.inLists.Keys ==> acc == []
        invariant rest != adj.inLists.Keys ==> Traversal.SomeLabelFetch(cfg, adj.inLists, acc, store.docs)
        decreases rest
      {
        var l :| l in rest;
        var got := FetchEdges(adj.inLists[l]);
        if got.Err? {
          assert l in adj.inLists && EdgeOps.FetchEdges(cfg, adj.inLists[l], store.docs) == Err(got.failure);
          return Err(got.failure);
        }
        acc := got.value;
        rest := rest - {l};
      }
      rest := adj.outLists.Keys;
      while rest != {}
        invariant rest <= adj.outLists.Keys
        invariant State() == st
        invariant forall l :: l in adj.outLists && l !in rest ==> EdgeOps.FetchEdges(cfg, adj.outLists[l], store.docs).Ok?
        invariant rest == adj.outLists.Keys ==>
          (if adj.inLists != map[] then Traversal.SomeLabelFetch(cfg, adj.inLists, acc, store.docs) else acc == [])
        invariant rest != adj.outLists.Keys ==> Traversal.SomeLabelFetch(cfg, adj.outLists, acc, store.docs)
        decreases rest
      {
        var l :| l in rest;
        var got := FetchEdges(adj.outLists[l]);
        if got.Err? {
          assert l in adj.outLists && EdgeOps.FetchEdges(cfg, adj.outLists[l], store.docs) == Err(got.failure);
          return Err(got.failure);
        }
        acc := got.value;
        rest := rest - {l};
      }
      r := Ok(acc);
    }

    /** getVertices(dir, labels): the other end of each edge getEdges finds. */
    method GetVertices(dir: Direction, labels: seq<string>, allLabels: seq<string>) returns (r: Result<seq<Traversal.VRef>>)
      modifies this
      ensures (r, State()) == Traversal.GetVertices(cfg, key, id, old(State()), dir, labels, allLabels, store.docs)
    {
      var res := Refresh();
      if res.Err? {
        return if Element.Swallowed(res) then Ok([]) else Err(res.failure);
      }
      var got := GetEdges(dir, labels, allLabels);
      if got.Err? {
        return Err(got.failure);
      }
      assert Traversal.GetVertices(cfg, key, id, old(State()), dir, labels, allLabels, store.docs)
        == (Traversal.NeighboursFrom(cfg, id, dir, got.value, [], store.docs), State());
      r := Neighbours(dir, got.value);
    }

    /** The loop of getVertices(dir, labels): the neighbours of each edge, in order. */
    method Neighbours(dir: Direction, es: seq<EdgeOps.EHandle>) returns (r: Result<seq<Traversal.VRef>>)
      ensures r == Traversal.NeighboursFrom(cfg, id, dir, es, [], store.docs)
    {
      var acc: seq<Traversal.VRef> := [];
      var i := 0;
      while i < |es|
        invariant 0 <= i <= |es|
        invariant Traversal.NeighboursFrom(cfg, id, dir, es[i..], acc, store.docs) == Traversal.NeighboursFrom(cfg, id, dir, es, [], store.docs)
      {
        assert es[i..][0] == es[i] && es[i..][1..] == es[i+1..];
        var vs := Traversal.Neighbours(cfg, id, dir, es[i], store.docs);
        if vs.Err? {
          return Err(vs.failure);
        }
        acc := acc + vs.value;
        i := i + 1;
      }
      r := Ok(acc);
    }

    /**
     * remove(): every edge getAllEdges finds is removed, then the vertex
     * document. `all` is what getAllEdges returned.
     */
    method Remove() returns (o: Outcome, ghost all: Result<seq<EdgeOps.EHandle>>)
      modifies this, store
      ensures State() == VertexOps.VRefresh(cfg, key, old(State()), old(store.docs)).1
      ensures var res := VertexOps.VRefresh(cfg, key, old(State()), old(store.docs)).0;
        (Element.Swallowed(res) ==> all == Ok([]))
        && (res.Err? && !Element.Swallowed(res) ==> all == Err(res.failure))
        && (res.Ok? && edges.None? ==> all == Err(NullPointer))
        && (res.Ok? && edges.Some? ==> Traversal.AllEdgesOutcome(cfg, edges.value, old(store.docs), all))
      ensures (o, store.docs) == Traversal.RemoveVertex(cfg, key, all, old(store.docs))
      ensures store.counter == old(store.counter)
    {
      var got := GetAllEdges();
      all := got;
      if got.Err? {
        return Fail(got.failure), all;
      }
      var es := got.value;
      var i := 0;
      while i < |es|
        invariant 0 <= i <= |es|
        invariant Traversal.Cascade(cfg, es[i..], store.docs) == Traversal.Cascade(cfg, es, old(store.docs))
        invariant store.counter == old(store.counter)
        invariant State() == VertexOps.VRefresh(cfg, key, old(State()), old(store.docs)).1
      {
        var e := new Edge.FromHandle(cfg, store, es[i]);
        var removed := e.Remove();
        if removed.Fail? {
          return removed, all;
        }
        i := i + 1;
      }
      o := store.Remove(key);
    }
  }

  /** An edge handle: key and id fixed, innerObj, innerFrom, innerTo and innerLabel updated in place. */
  class Edge {
    const key: string
    const id: string
    const cfg: Element.Config
    const store: Bucket
    var obj: Option<Doc>
    var from: string
    var to: string
    var lbl: string

    /** The cache as a value. */
    function State(): EdgeOps.EState
      reads this
    {
      EdgeOps.EState(obj, from, to, lbl)
    }

    /** The handle as a value. */
    function Handle(): EdgeOps.EHandle
      reads this
    {
      EdgeOps.EHandle(key, id, State())
    }

    /** A handle over an already opened cache. */
    constructor FromHandle(cfg: Element.Config, store: Bucket, h: EdgeOps.EHandle)
      ensures Handle() == h && this.cfg == cfg && this.store == store
    {
      this.key := h.key;
      this.id := h.id;
      this.cfg := cfg;
      this.store := store;
      this.obj := h.st.obj;
      this.from := h.st.from;
      this.to := h.st.to;
      this.lbl := h.st.lbl;
    }

    /** new CBEdge(eKey). */
    static method OpenByKey(cfg: Element.Config, store: Bucket, key: string) returns (r: Result<Edge>)
      ensures r.Err? <==> EdgeOps.OpenByKey(cfg, key, store.docs).Err?
      ensures r.Err? ==> r.failure == EdgeOps.OpenByKey(cfg, key, store.docs).failure
      ensures r.Ok? ==> fresh(r.value) && r.value.Handle() == EdgeOps.OpenByKey(cfg, key, store.docs).value
                        && r.value.cfg == cfg && r.value.store == store
    {
      var parts := ParseEdgeKey(key);
      if parts.Err? {
        return Err(parts.failure);
      }
      var e := new Edge.FromHandle(cfg, store, EdgeOps.EHandle(key, parts.value.id, EdgeOps.EState(None, "", "", "")));
      var res := e.Refresh();
      if res.Err? {
        r := Err(res.failure);
      } else {
        r := Ok(e);
      }
    }

    /** new CBEdge(vId1, label, vId2). */
    static method OpenByEnds(cfg: Element.Config, store: Bucket, v1: JavaId, l: string, v2: JavaId) returns (r: Result<Edge>)
      ensures r.Err? <==> EdgeOps.OpenByEnds(cfg, v1, l, v2, store.docs).Err?
      ensures r.Err? ==> r.failure == EdgeOps.OpenByEnds(cfg, v1, l, v2, store.docs).failure
      ensures r.Ok? ==> fresh(r.value) && r.value.Handle() == EdgeOps.OpenByEnds(cfg, v1, l, v2, store.docs).value
                        && r.value.cfg == cfg && r.value.store == store
    {
      var st := EdgeOps.EState(None, GenVertexKey(v1), GenVertexKey(v2), l);
      var e := new Edge.FromHandle(cfg, store, EdgeOps.EHandle(GenEdgeKey(v1, l, v2), GenEdgeId(v1, l, v2), st));
      var res := e.Refresh();
      if res.Err? {
        r := Err(res.failure);
      } else {
        r := Ok(e);
      }
    }

    /** new CBEdge(vId1, vId2): the edge between the two with the empty label. */
    static method OpenUnlabeled(cfg: Element.Config, store: Bucket, v1: JavaId, v2: JavaId) returns (r: Result<Edge>)
      ensures r.Err? <==> EdgeOps.OpenByEnds(cfg, v1, "", v2, store.docs).Err?
      ensures r.Err? ==> r.failure == EdgeOps.OpenByEnds(cfg, v1, "", v2, store.docs).failure
      ensures r.Ok? ==> fresh(r.value) && r.value.Handle() == EdgeOps.OpenByEnds(cfg, v1, "", v2, store.docs).value
                        && r.value.cfg == cfg && r.value.store == store
    {
      r := OpenByEnds(cfg, store, v1, "", v2);
    }

    /** refresh(): the element refresh, then the endpoints and label from the document. */
    method Refresh() returns (r: Result<bool>)
      modifies this
      ensures (r, State()) == EdgeOps.ERefresh(cfg, key, old(State()), store.docs)
    {
      if obj.None? || cfg.refreshEnabled {
        var got := store.Get(key);
        if got.Err? {
          return Err(got.failure);
        }
        obj := Some(got.value);
        match got.value
        case EDoc(f, t, l, _) =>
          from, to, lbl := f, t, l;
          return Ok(true);
        case _ =>
          return Err(NullPointer);
      }
      return Ok(false);
    }

    /** getVertex(dir): a new handle on the vertex at that end, or null. */
    method GetVertex(dir: Direction) returns (r: Result<Option<Vertex>>)
      modifies this
      ensures State() == EdgeOps.GetVertex(cfg, key, old(State()), dir, store.docs).1
      ensures var spec := EdgeOps.GetVertex(cfg, key, old(State()), dir, store.docs).0;
        (r.Err? <==> spec.Err?) && (r.Err? ==> r.failure == spec.failure)
        && (r.Ok? ==> (r.value.None? <==> spec.value.None?))
        && (r.Ok? && r.value.Some? ==>
              (fresh(r.value.value) && r.value.value.Handle() == spec.value.value
               && r.value.value.cfg == cfg && r.value.value.store == store))
    {
      var res := Refresh();
      if res.Err? {
        return if Element.Swallowed(res) then Ok(None) else Err(res.failure);
      }
      if dir == BOTH {
        return Err(IllegalArgument);
      }
      var vkey := if dir == IN then to else from;
      var v := Vertex.OpenByKey(cfg, store, vkey);
      if v.Err? {
        return if v.failure.DocNotFound? then Ok(None) else Err(v.failure);
      }
      r := Ok(Some(v.value));
    }

    /** getLabel(). */
    method GetLabel() returns (r: Result<string>)
      modifies this
      ensures (r, State()) == EdgeOps.GetLabel(cfg, key, old(State()), store.docs)
    {
      var res := Refresh();
      if res.Err? && !Element.Swallowed(res) {
        return Err(res.failure);
      }
      r := Ok(lbl);
    }

    /** getProperty(k). */
    method GetProperty(k: string) returns (v: Result<Option<Value>>)
      modifies this
      ensures (v, State()) == EdgeOps.GetProperty(cfg, key, old(State()), k, store.docs)
    {
      var r := Refresh();
      v := Element.GetProperty(r, obj, k);
    }

    /** getPropertyKeys(). */
    method GetPropertyKeys() returns (ks: Result<set<string>>)
      modifies this
      ensures (ks, State()) == EdgeOps.GetPropertyKeys(cfg, key, old(State()), store.docs)
    {
      var r := Refresh();
      ks := Element.GetPropertyKeys(r, obj);
    }

    /** setProperty(k, v). */
    method SetProperty(k: string, v: Value) returns (o: Outcome)
      modifies this, store
      ensures (o, State(), store.docs) == EdgeOps.SetProperty(cfg, key, old(State()), k, v, old(store.docs))
      ensures store.counter == old(store.counter)
    {
      var r := Refresh();
      if r.Err? {
        return if Element.Swallowed(r) then Pass else Fail(r.failure);
      }
      var p := Element.Props(obj);
      if p.None? {
        return Fail(NullPointer);
      }
      obj := Some(WithProps(obj.value, p.value[k := ToJson(v)]));
      o := store.Replace(key, obj.value);
    }

    /** removeProperty(k): the previous value. */
    method RemoveProperty(k: string) returns (prev: Result<Option<Json>>)
      modifies this, store
      ensures (prev, State(), store.docs) == EdgeOps.RemoveProperty(cfg, key, old(State()), k, old(store.docs))
      ensures store.counter == old(store.counter)
    {
      var r := Refresh();
      if r.Err? {
        return if Element.Swallowed(r) then Ok(None) else Err(r.failure);
      }
      var p := Element.Props(obj);
      if p.None? {
        return Err(NullPointer);
      }
      var before := if k in p.value then Some(p.value[k]) else None;
      obj := Some(WithProps(obj.value, p.value - {k}));
      var o := store.Replace(key, obj.value);
      prev := if o.Fail? then Err(o.failure) else Ok(before);
    }

    /** remove(): unlink from the source's OUT list and the target's IN list, then delete. */
    method Remove() returns (o: Outcome)
      modifies this, store
      ensures (o, State(), store.docs) == EdgeOps.Remove(cfg, key, old(State()), old(store.docs))
      ensures store.counter == old(store.counter)
    {
      var source := GetVertex(OUT);
      if source.Err? {
        return Fail(source.failure);
      }
      var target := GetVertex(IN);
      if target.Err? {
        return Fail(target.failure);
      }
      if source.value.None? {
        return Fail(NullPointer);
      }
      var o1 := source.value.value.RemoveEdgeFromAdjacencyList(lbl, key, OUT);
      if o1.Fail? {
        return o1;
      }
      if target.value.None? {
        return Fail(NullPointer);
      }
      var o2 := target.value.value.RemoveEdgeFromAdjacencyList(lbl, key, IN);
      if o2.Fail? {
        return o2;
      }
      o := store.Remove(key);
    }
  }
}
