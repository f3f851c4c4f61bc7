// CBGraph as an object over one bucket: addVertex and addEdge write
// through it and update the vertex handles they are given in place;
// getVertex, getEdge and the listings open new handles. Every method is
// proved to do what the functions of GraphOps say.

module GraphStore {
  import opened Wrappers
  import opened Documents
  import opened Store
  import opened Keys
  import Element
  import VertexOps
  import EdgeOps
  import Traversal
  import GraphOps
  import opened Handles
  import opened CBModel

  /** A nullable vertex result whose object, if any, holds exactly the handle `spec` names. */
  ghost predicate VertexAnswer(r: Result<Option<Vertex>>, spec: Result<Option<VertexOps.VHandle>>, cfg: Element.Config, store: Bucket)
    reads if r.Ok? && r.value.Some? then {r.value.value} else {}
  {
    (r.Err? <==> spec.Err?) && (r.Err? ==> r.failure == spec.failure)
    && (r.Ok? ==> (r.value.None? <==> spec.value.None?))
    && (r.Ok? && r.value.Some? ==>
          (r.value.value.Handle() == spec.value.value && r.value.value.cfg == cfg && r.value.value.store == store))
  }

  /** A nullable edge result whose object, if any, holds exactly the handle `spec` names. */
  ghost predicate EdgeAnswer(r: Result<Option<Edge>>, spec: Result<Option<EdgeOps.EHandle>>, cfg: Element.Config, store: Bucket)
    reads if r.Ok? && r.value.Some? then {r.value.value} else {}
  {
    (r.Err? <==> spec.Err?) && (r.Err? ==> r.failure == spec.failure)
    && (r.Ok? ==> (r.value.None? <==> spec.value.None?))
    && (r.Ok? && r.value.Some? ==>
          (r.value.value.Handle() == spec.value.value && r.value.value.cfg == cfg && r.value.value.store == store))
  }

  /** A list of vertex objects, pairwise distinct, holding the handles `hs` in order. */
  ghost predicate VerticesAre(vs: seq<Vertex>, hs: seq<VertexOps.VHandle>, cfg: Element.Config, store: Bucket)
    reads vs
  {
    |vs| == |hs|
    && (forall j :: 0 <= j < |vs| ==> vs[j].Handle() == hs[j] && vs[j].cfg == cfg && vs[j].store == store)
    && (forall j, k :: 0 <= j < k < |vs| ==> vs[j] != vs[k])
  }

  /** A list of edge objects, pairwise distinct, holding the handles `hs` in order. */
  ghost predicate EdgesAre(es: seq<Edge>, hs: seq<EdgeOps.EHandle>, cfg: Element.Config, store: Bucket)
    reads es
  {
    |es| == |hs|
    && (forall j :: 0 <= j < |es| ==> es[j].Handle() == hs[j] && es[j].cfg == cfg && es[j].store == store)
    && (forall j, k :: 0 <= j < k < |es| ==> es[j] != es[k])
  }

  lemma VerticesAreSnoc(vs: seq<Vertex>, hs: seq<VertexOps.VHandle>, v: Vertex, cfg: Element.Config, store: Bucket)
    requires VerticesAre(vs, hs, cfg, store) && v.cfg == cfg && v.store == store
    requires v !in vs
    ensures VerticesAre(vs + [v], hs + [v.Handle()], cfg, store)
  {
  }

  lemma EdgesAreSnoc(es: seq<Edge>, hs: seq<EdgeOps.EHandle>, e: Edge, cfg: Element.Config, store: Bucket)
    requires EdgesAre(es, hs, cfg, store) && e.cfg == cfg && e.store == store
    requires e !in es
    ensures EdgesAre(es + [e], hs + [e.Handle()], cfg, store)
  {
  }

  class Graph {
    const cfg: Element.Config
    const store: Bucket

    constructor(cfg: Element.Config, store: Bucket)
      ensures this.cfg == cfg && this.store == store
    {
      this.cfg := cfg;
      this.store := store;
    }

    /** addVertex(id). */
    method AddVertex(id: Option<JavaId>) returns (r: Result<Option<Vertex>>)
      modifies store
      ensures var (spec, docs, counter) := GraphOps.AddVertex(cfg, id, old(store.docs), old(store.counter));
        store.docs == docs && store.counter == counter && VertexAnswer(r, spec, cfg, store)
      ensures r.Ok? && r.value.Some? ==> fresh(r.value.value)
    {
      var vid: JavaId;
      if id.Some? {
        vid := id.value;
      } else {
        var n := store.Counter();
        if n.Err? {
          return Ok(None);
        }
        vid := LongId(n.value);
      }
      store.Add(GenVertexKey(vid), NewVertexDoc);
      var v := Vertex.OpenById(cfg, store, vid);
      if v.Err? {
        return if v.failure.DocNotFound? then Ok(None) else Err(v.failure);
      }
      r := Ok(Some(v.value));
    }

    /** getVertex(id). */
    method GetVertex(id: JavaId) returns (r: Result<Option<Vertex>>)
      ensures VertexAnswer(r, GraphOps.GetVertex(cfg, id, store.docs), cfg, store)
      ensures r.Ok? && r.value.Some? ==> fresh(r.value.value)
    {
      var v := Vertex.OpenById(cfg, store, id);
      if v.Err? {
        return if v.failure.DocNotFound? then Ok(None) else Err(v.failure);
      }
      r := Ok(Some(v.value));
    }

    /** getEdge(id). */
    method GetEdge(id: JavaId) returns (r: Result<Option<Edge>>)
      ensures EdgeAnswer(r, GraphOps.GetEdge(cfg, id, store.docs), cfg, store)
      ensures r.Ok? && r.value.Some? ==> fresh(r.value.value)
    {
      var e := Edge.OpenByKey(cfg, store, EDGE_PREFIX + IdString(id));
      if e.Err? {
        return if e.failure.DocNotFound? then Ok(None) else Err(e.failure);
      }
      r := Ok(Some(e.value));
    }

    /**
     * addEdge(id, v1, v2, label): the two handles may be one object, in
     * which case every step sees the cache the previous one left.
     */
    method AddEdge(v1: Vertex, v2: Vertex, lbl: string) returns (r: Result<Option<Edge>>)
      requires v1.store == store && v2.store == store && v1.cfg == cfg && v2.cfg == cfg
      modifies v1, v2, store
      ensures var spec := GraphOps.AddEdge(cfg, old(v1.Handle()), old(v2.Handle()), v1 == v2, lbl, old(store.docs));
        v1.State() == spec.st1 && v2.State() == spec.st2 && store.docs == spec.docs
        && EdgeAnswer(r, spec.edge, cfg, store)
      ensures store.counter == old(store.counter)
      ensures r.Ok? && r.value.Some? ==> fresh(r.value.value)
    {
      var r1 := v1.Refresh();
      if r1.Err? {
        return if Element.Swallowed(r1) then Ok(None) else Err(r1.failure);
      }
      var r2 := v2.Refresh();
      if r2.Err? {
        return if Element.Swallowed(r2) then Ok(None) else Err(r2.failure);
      }
      var eKey := GenEdgeKey(v1.id, lbl, v2.id);
      store.Add(eKey, EDoc(v1.key, v2.key, lbl, None));
      var o1 := v1.AddEdgeToAdjacencyList(lbl, eKey, OUT);
      if o1.Fail? {
        return Err(o1.failure);
      }
      var o2 := v2.AddEdgeToAdjacencyList(lbl, eKey, IN);
      if o2.Fail? {
        return Err(o2.failure);
      }
      var e := Edge.OpenByKey(cfg, store, eKey);
      if e.Err? {
        return if e.failure.DocNotFound? then Ok(None) else Err(e.failure);
      }
      r := Ok(Some(e.value));
    }

    /** removeVertex(v): the vertex removes itself, its edges first. */
    method RemoveVertex(v: Vertex) returns (o: Outcome, ghost all: Result<seq<EdgeOps.EHandle>>)
      requires v.store == store && v.cfg == cfg
      modifies v, store
      ensures v.State() == VertexOps.VRefresh(cfg, v.key, old(v.State()), old(store.docs)).1
      ensures var res := VertexOps.VRefresh(cfg, v.key, old(v.State()), old(store.docs)).0;
        (Element.Swallowed(res) ==> all == Ok([]))
        && (res.Err? && !Element.Swallowed(res) ==> all == Err(res.failure))
        && (res.Ok? && v.edges.None? ==> all == Err(NullPointer))
        && (res.Ok? && v.edges.Some? ==> Traversal.AllEdgesOutcome(cfg, v.edges.value, old(store.docs), all))
      ensures (o, store.docs) == Traversal.RemoveVertex(cfg, v.key, all, old(store.docs))
      ensures store.counter == old(store.counter)
    {
      o, all := v.Remove();
    }

    /** removeEdge(e): the edge unlinks and removes itself. */
    method RemoveEdge(e: Edge) returns (o: Outcome)
      requires e.store == store && e.cfg == cfg
      modifies e, store
      ensures (o, e.State(), store.docs) == EdgeOps.Remove(cfg, e.key, old(e.State()), old(store.docs))
      ensures store.counter == old(store.counter)
    {
      o := e.Remove();
    }

    /** getVertices(): a vertex per row key of the all-vertices view, missing ones skipped. */
    method GetVertices(rows: seq<string>) returns (r: Result<seq<Vertex>>)
      ensures var spec := GraphOps.AllVertices(cfg, rows, [], store.docs);
        (r.Err? <==> spec.Err?) && (r.Err? ==> r.failure == spec.failure)
        && (r.Ok? ==> VerticesAre(r.value, spec.value, cfg, store))
      ensures r.Ok? ==> forall v :: v in r.value ==> fresh(v)
    {
      var vs: seq<Vertex> := [];
      ghost var hs: seq<VertexOps.VHandle> := [];
      var i := 0;
      while i < |rows|
        invariant 0 <= i <= |rows|
        invariant GraphOps.AllVertices(cfg, rows[i..], hs, store.docs) == GraphOps.AllVertices(cfg, rows, [], store.docs)
        invariant VerticesAre(vs, hs, cfg, store)
        invariant forall v :: v in vs ==> fresh(v)
      {
        assert rows[i..][0] == rows[i] && rows[i..][1..] == rows[i+1..];
        var v := Vertex.OpenByKey(cfg, store, rows[i]);
        if v.Err? {
          if !v.failure.DocNotFound? {
            return Err(v.failure);
          }
        } else {
          VerticesAreSnoc(vs, hs, v.value, cfg, store);
          vs, hs := vs + [v.value], hs + [v.value.Handle()];
        }
        i := i + 1;
      }
      r := Ok(vs);
    }

    /** getEdges(): an edge per row key of the all-edges view, missing ones skipped. */
    method GetEdges(rows: seq<string>) returns (r: Result<seq<Edge>>)
      ensures var spec := GraphOps.AllEdges(cfg, rows, [], store.docs);
        (r.Err? <==> spec.Err?) && (r.Err? ==> r.failure == spec.failure)
        && (r.Ok? ==> EdgesAre(r.value, spec.value, cfg, store))
      ensures r.Ok? ==> forall e :: e in r.value ==> fresh(e)
    {
      var es: seq<Edge> := [];
      ghost var hs: seq<EdgeOps.EHandle> := [];
      var i := 0;
      while i < |rows|
        invariant 0 <= i <= |rows|
        invariant GraphOps.AllEdges(cfg, rows[i..], hs, store.docs) == GraphOps.AllEdges(cfg, rows, [], store.docs)
        invariant EdgesAre(es, hs, cfg, store)
        invariant forall e :: e in es ==> fresh(e)
      {
        assert rows[i..][0] == rows[i] && rows[i..][1..] == rows[i+1..];
        var e := Edge.OpenByKey(cfg, store, rows[i]);
        if e.Err? {
          if !e.failure.DocNotFound? {
            return Err(e.failure);
          }
        } else {
          EdgesAreSnoc(es, hs, e.value, cfg, store);
          es, hs := es + [e.value], hs + [e.value.Handle()];
        }
        i := i + 1;
      }
      r := Ok(es);
    }

    /** getVertices(key, value): the listed vertices whose property `k` equals `value`. */
    method GetVerticesWith(rows: seq<string>, k: string, value: Value) returns (r: Result<seq<Vertex>>)
      ensures var all := GraphOps.AllVertices(cfg, rows, [], store.docs);
        var spec := if all.Err? then Err(all.failure) else GraphOps.VerticesWith(cfg, all.value, k, value, [], store.docs);
        (r.Err? <==> spec.Err?) && (r.Err? ==> r.failure == spec.failure)
        && (r.Ok? ==> VerticesAre(r.value, spec.value, cfg, store))
    {
      var all := GetVertices(rows);
      if all.Err? {
        return Err(all.failure);
      }
      r := KeepVertices(all.value, GraphOps.AllVertices(cfg, rows, [], store.docs).value, k, value);
    }

    /** The loop of getVertices(key, value) over vertex objects holding the handles `hs`. */
    method KeepVertices(vs: seq<Vertex>, ghost hs: seq<VertexOps.VHandle>, k: string, value: Value) returns (r: Result<seq<Vertex>>)
      requires VerticesAre(vs, hs, cfg, store)
      modifies set v | v in vs
      ensures var spec := GraphOps.VerticesWith(cfg, hs, k, value, [], store.docs);
        (r.Err? <==> spec.Err?) && (r.Err? ==> r.failure == spec.failure)
        && (r.Ok? ==> VerticesAre(r.value, spec.value, cfg, store))
    {
      var acc: seq<Vertex> := [];
      ghost var accH: seq<VertexOps.VHandle> := [];
      ghost var seen: set<Vertex> := {};
      var i := 0;
      while i < |vs|
        invariant 0 <= i <= |vs| == |hs|
        invariant forall j :: 0 <= j < |vs| ==> vs[j].cfg == cfg && vs[j].store == store
        invariant forall j :: i <= j < |vs| ==> vs[j].Handle() == hs[j]
        invariant forall j, l :: 0 <= j < l < |vs| ==> vs[j] != vs[l]
        invariant forall o :: o in acc ==> o in seen
        invariant forall l :: i <= l < |vs| ==> vs[l] !in seen
        invariant VerticesAre(acc, accH, cfg, store)
        invariant GraphOps.VerticesWith(cfg, hs[i..], k, value, accH, store.docs) == GraphOps.VerticesWith(cfg, hs, k, value, [], store.docs)
      {
        assert hs[i..][0] == hs[i] && hs[i..][1..] == hs[i+1..];
        var v := vs[i];
        var read := v.GetProperty(k);
        if read.Err? {
          return Err(read.failure);
        }
        if GraphOps.Matches(read, value) {
          VerticesAreSnoc(acc, accH, v, cfg, store);
          acc, accH := acc + [v], accH + [v.Handle()];
        }
        seen := seen + {v};
        i := i + 1;
      }
      r := Ok(acc);
    }

    /** getEdges(key, value): the listed edges whose property `k` equals `value`. */
    method GetEdgesWith(rows: seq<string>, k: string, value: Value) returns (r: Result<seq<Edge>>)
      ensures var all := GraphOps.AllEdges(cfg, rows, [], store.docs);
        var spec := if all.Err? then Err(all.failure) else GraphOps.EdgesWith(cfg, all.value, k, value, [], store.docs);
        (r.Err? <==> spec.Err?) && (r.Err? ==> r.failure == spec.failure)
        && (r.Ok? ==> EdgesAre(r.value, spec.value, cfg, store))
    {
      var all := GetEdges(rows);
      if all.Err? {
        return Err(all.failure);
      }
      r := KeepEdges(all.value, GraphOps.AllEdges(cfg, rows, [], store.docs).value, k, value);
    }

    /** The loop of getEdges(key, value) over edge objects holding the handles `hs`. */
    method KeepEdges(es: seq<Edge>, ghost hs: seq<EdgeOps.EHandle>, k: string, value: Value) returns (r: Result<seq<Edge>>)
      requires EdgesAre(es, hs, cfg, store)
      modifies set e | e in es
      ensures var spec := GraphOps.EdgesWith(cfg, hs, k, value, [], store.docs);
        (r.Err? <==> spec.Err?) && (r.Err? ==> r.failure == spec.failure)
        && (r.Ok? ==> EdgesAre(r.value, spec.value, cfg, store))
    {
      var acc: seq<Edge> := [];
      ghost var accH: seq<EdgeOps.EHandle> := [];
      ghost var seen: set<Edge> := {};
      var i := 0;
      while i < |es|
        invariant 0 <= i <= |es| == |hs|
        invariant forall j :: 0 <= j < |es| ==> es[j].cfg == cfg && es[j].store == store
        invariant forall j :: i <= j < |es| ==> es[j].Handle() == hs[j]
        invariant forall j, l :: 0 <= j < l < |es| ==> es[j] != es[l]
        invariant forall o :: o in acc ==> o in seen
        invariant forall l :: i <= l < |es| ==> es[l] !in seen
        invariant EdgesAre(acc, accH, cfg, store)
        invariant GraphOps.EdgesWith(cfg, hs[i..], k, value, accH, store.docs) == GraphOps.EdgesWith(cfg, hs, k, value, [], store.docs)
      {
        assert hs[i..][0] == hs[i] && hs[i..][1..] == hs[i+1..];
        var e := es[i];
        var read := e.GetProperty(k);
        if read.Err? {
          return Err(read.failure);
        }
        if GraphOps.Matches(read, value) {
          EdgesAreSnoc(acc, accH, e, cfg, store);
          acc, accH := acc + [e], accH + [e.Handle()];
        }
        seen := seen + {e};
        i := i + 1;
      }
      r := Ok(acc);
    }
  }
}
