// The CBVertex traversals: getEdges (per label, IN before OUT),
// getAllEdges (one label list after another, each replacing the result),
// getVertices (the other end of each edge) and the cascading remove.

module Traversal {
  import opened Wrappers
  import opened Documents
  import opened Store
  import opened Keys
  import Element
  import VertexOps
  import EdgeOps

  type EHandle = EdgeOps.EHandle

  // ---------------------------------------------------------------------
  // getEdges

  /**
   * One direction of one label in the getEdges loop: a present list adds
   * its edges to the result; a missing one hands the result itself to
   * addAll, which doubles it.
   */
  function Gather(cfg: Element.Config, lists: map<string, seq<string>>, l: string, acc: seq<EHandle>, docs: Docs): (r: Result<seq<EHandle>>)
    ensures l !in lists ==> r == Ok(acc + acc)
  {
    if l in lists then
      match EdgeOps.FetchEdges(cfg, lists[l], docs)
      case Err(f) => Err(f)
      case Ok(es) => Ok(acc + es)
    else Ok(acc + acc)
  }

  /** The getEdges loop over the labels from `acc` on: IN then OUT for each label. */
  function EdgesLoop(cfg: Element.Config, adj: Adjacency, dir: Direction, labels: seq<string>, acc: seq<EHandle>, docs: Docs): Result<seq<EHandle>>
    decreases |labels|
  {
    if labels == [] then Ok(acc)
    else
      var l := labels[0];
      var r1 := if TouchesIn(dir) then Gather(cfg, adj.inLists, l, acc, docs) else Ok(acc);
      match r1
      case Err(f) => Err(f)
      case Ok(a1) =>
        var r2 := if TouchesOut(dir) then Gather(cfg, adj.outLists, l, a1, docs) else Ok(a1);
        match r2
        case Err(f) => Err(f)
        case Ok(a2) => EdgesLoop(cfg, adj, dir, labels[1..], a2, docs)
  }

  /**
   * getEdges(dir, labels): no labels means every edge label the view knows
   * (`allLabels`); the vertex is refreshed first, and a missing document
   * gives the empty result.
   */
  function GetEdges(cfg: Element.Config, key: string, st: VertexOps.VState, dir: Direction, labels: seq<string>, allLabels: seq<string>, docs: Docs): (r: (Result<seq<EHandle>>, VertexOps.VState))
    ensures r.1 == VertexOps.VRefresh(cfg, key, st, docs).1
    ensures Element.Swallowed(VertexOps.VRefresh(cfg, key, st, docs).0) ==> r.0 == Ok([])
  {
    var ls := if labels == [] then allLabels else labels;
    var (res, s) := VertexOps.VRefresh(cfg, key, st, docs);
    if res.Err? then (if Element.Swallowed(res) then Ok([]) else Err(res.failure), s)
    else if ls == [] then (Ok([]), s)
    else if s.edges.None? then (Err(NullPointer), s)
    else (EdgesLoop(cfg, s.edges.value, dir, ls, [], docs), s)
  }

  /** The edge keys getEdges visits when every label is present: per label, the IN list then the OUT list. */
  function LabelKeys(adj: Adjacency, dir: Direction, labels: seq<string>): seq<string>
  {
    if labels == [] then []
    else
      var l := labels[0];
      (if TouchesIn(dir) && l in adj.inLists then adj.inLists[l] else [])
      + (if TouchesOut(dir) && l in adj.outLists then adj.outLists[l] else [])
      + LabelKeys(adj, dir, labels[1..])
  }

  /** Every label has a list in each direction getEdges looks at. */
  predicate LabelsPresent(adj: Adjacency, dir: Direction, labels: seq<string>)
  {
    forall l :: l in labels ==> (TouchesIn(dir) ==> l in adj.inLists) && (TouchesOut(dir) ==> l in adj.outLists)
  }

  /** Fetching two key lists one after the other is fetching their concatenation. */
  lemma {:induction false} FetchFromAppend(cfg: Element.Config, a: seq<string>, b: seq<string>, acc: seq<EHandle>, docs: Docs)
    decreases |a|
    ensures EdgeOps.FetchFrom(cfg, a + b, acc, docs)
         == match EdgeOps.FetchFrom(cfg, a, acc, docs)
            case Err(f) => Err(f)
            case Ok(x) => EdgeOps.FetchFrom(cfg, b, x, docs)
  {
    if a == [] {
      assert a + b == b;
    } else {
      assert (a + b)[1..] == a[1..] + b;
      match EdgeOps.FetchOne(cfg, a[0], docs)
      case Err(f) =>
      case Ok(h) => FetchFromAppend(cfg, a[1..], b, acc + h, docs);
    }
  }

  /** The fetch appends to whatever was gathered before. */
  lemma {:induction false} FetchFromAcc(cfg: Element.Config, keys: seq<string>, acc: seq<EHandle>, pre: seq<EHandle>, docs: Docs)
    decreases |keys|
    ensures EdgeOps.FetchFrom(cfg, keys, pre + acc, docs)
         == match EdgeOps.FetchFrom(cfg, keys, acc, docs)
            case Err(f) => Err(f)
            case Ok(x) => Ok(pre + x)
  {
    if keys != [] {
      match EdgeOps.FetchOne(cfg, keys[0], docs)
      case Err(f) =>
      case Ok(h) =>
        assert pre + acc + h == pre + (acc + h);
        FetchFromAcc(cfg, keys[1..], acc + h, pre, docs);
    }
  }

  /** A present list's Gather is the fetch continued from the result so far. */
  lemma GatherPresent(cfg: Element.Config, lists: map<string, seq<string>>, l: string, acc: seq<EHandle>, docs: Docs)
    requires l in lists
    ensures Gather(cfg, lists, l, acc, docs) == EdgeOps.FetchFrom(cfg, lists[l], acc, docs)
  {
    FetchFromAcc(cfg, lists[l], [], acc, docs);
    assert acc + [] == acc;
  }

  /**
   * When every label is present, the getEdges loop fetches exactly the keys
   * of the labels' lists in order, IN before OUT within a label.
   */
  lemma {:induction false} EdgesLoopFetches(cfg: Element.Config, adj: Adjacency, dir: Direction, labels: seq<string>, acc: seq<EHandle>, docs: Docs)
    requires LabelsPresent(adj, dir, labels)
    decreases |labels|
    ensures EdgesLoop(cfg, adj, dir, labels, acc, docs) == EdgeOps.FetchFrom(cfg, LabelKeys(adj, dir, labels), acc, docs)
  {
    if labels != [] {
      var l := labels[0];
      var ins := if TouchesIn(dir) && l in adj.inLists then adj.inLists[l] else [];
      var outs := if TouchesOut(dir) && l in adj.outLists then adj.outLists[l] else [];
      var rest := LabelKeys(adj, dir, labels[1..]);
      assert LabelKeys(adj, dir, labels) == ins + (outs + rest);
      if TouchesIn(dir) {
        GatherPresent(cfg, adj.inLists, l, acc, docs);
      } else {
        assert ins == [];
      }
      FetchFromAppend(cfg, ins, outs + rest, acc, docs);
      var r1 := if TouchesIn(dir) then Gather(cfg, adj.inLists, l, acc, docs) else Ok(acc);
      assert r1 == EdgeOps.FetchFrom(cfg, ins, acc, docs);
      match r1
      case Err(f) =>
      case Ok(a1) =>
        if TouchesOut(dir) {
          GatherPresent(cfg, adj.outLists, l, a1, docs);
        } else {
          assert outs == [];
        }
        FetchFromAppend(cfg, outs, rest, a1, docs);
        var r2 := if TouchesOut(dir) then Gather(cfg, adj.outLists, l, a1, docs) else Ok(a1);
        assert r2 == EdgeOps.FetchFrom(cfg, outs, a1, docs);
        match r2
        case Err(f) =>
        case Ok(a2) =>
          assert LabelsPresent(adj, dir, labels[1..]);
          EdgesLoopFetches(cfg, adj, dir, labels[1..], a2, docs);
    }
  }

  /**
   * getEdges(OUT, l1, l2) with l1 present and l2 missing returns l1's edges
   * twice: the missing list makes the result add itself.
   */
  lemma MissingLabelDoubles(cfg: Element.Config, adj: Adjacency, l1: string, l2: string, docs: Docs)
    requires l1 in adj.outLists && l2 !in adj.outLists
    requires EdgeOps.FetchEdges(cfg, adj.outLists[l1], docs).Ok?
    ensures var es := EdgeOps.FetchEdges(cfg, adj.outLists[l1], docs).value;
      EdgesLoop(cfg, adj, OUT, [l1, l2], [], docs) == Ok(es + es)
  {
    var es := EdgeOps.FetchEdges(cfg, adj.outLists[l1], docs).value;
    assert [] + es == es;
    assert Gather(cfg, adj.outLists, l1, [], docs) == Ok(es);
    assert [l1, l2][1..] == [l2];
    assert EdgesLoop(cfg, adj, OUT, [l2], es, docs) == Ok(es + es);
  }

  // ---------------------------------------------------------------------
  // getAllEdges

  /** `es` is what one label's list fetches to. */
  ghost predicate SomeLabelFetch(cfg: Element.Config, lists: map<string, seq<string>>, es: seq<EHandle>, docs: Docs)
  {
    exists l :: l in lists && EdgeOps.FetchEdges(cfg, lists[l], docs) == Ok(es)
  }

  /** Every label's list fetches without failing. */
  ghost predicate AllFetch(cfg: Element.Config, lists: map<string, seq<string>>, docs: Docs)
  {
    forall l :: l in lists ==> EdgeOps.FetchEdges(cfg, lists[l], docs).Ok?
  }

  /**
   * What getAllEdges returns after a refresh left the lists `adj`, for the
   * HashMap's (unspecified) label order: each list's fetch replaces the
   * result, so the result is the last OUT label's edges, or the last IN
   * label's when there are no OUT labels; any failing fetch escapes.
   */
  ghost predicate AllEdgesOutcome(cfg: Element.Config, adj: Adjacency, docs: Docs, r: Result<seq<EHandle>>)
  {
    match r
    case Ok(es) =>
      AllFetch(cfg, adj.inLists, docs) && AllFetch(cfg, adj.outLists, docs)
      && (if adj.outLists != map[] then SomeLabelFetch(cfg, adj.outLists, es, docs)
          else if adj.inLists != map[] then SomeLabelFetch(cfg, adj.inLists, es, docs)
          else es == [])
    case Err(f) =>
      exists l :: (l in adj.inLists && EdgeOps.FetchEdges(cfg, adj.inLists[l], docs) == Err(f))
               || (l in adj.outLists && EdgeOps.FetchEdges(cfg, adj.outLists[l], docs) == Err(f))
  }

  /**
   * With two OUT labels whose stored edges are disjoint and non-empty,
   * getAllEdges misses every edge of one of them.
   */
  lemma AllEdgesMissesALabel(cfg: Element.Config, adj: Adjacency, docs: Docs, es: seq<EHandle>, l1: string, l2: string)
    requires AllEdgesOutcome(cfg, adj, docs, Ok(es))
    requires adj.outLists.Keys == {l1, l2} && l1 != l2
    requires var k1 := EdgeOps.StoredEdgeKeys(adj.outLists[l1], docs);
      var k2 := EdgeOps.StoredEdgeKeys(adj.outLists[l2], docs);
      k1 != [] && k2 != [] && forall k :: k in k1 ==> k !in k2
    ensures exists l :: (l in adj.outLists
                         && forall k :: k in EdgeOps.StoredEdgeKeys(adj.outLists[l], docs) ==> k !in EdgeOps.HandleKeys(es))
  {
    var l :| l in adj.outLists && EdgeOps.FetchEdges(cfg, adj.outLists[l], docs) == Ok(es);
    EdgeOps.FetchEdgesKeys(cfg, adj.outLists[l], docs);
    var other := if l == l1 then l2 else l1;
    assert other in adj.outLists;
    assert forall k :: k in EdgeOps.StoredEdgeKeys(adj.outLists[other], docs) ==> k !in EdgeOps.HandleKeys(es);
  }

  // ---------------------------------------------------------------------
  // getVertices

  /** An entry of getVertices' result: null, the vertex itself, or another handle. */
  datatype VRef = Null | Self | Other(h: VertexOps.VHandle)

  /** Java equality of a found vertex's id with the traversing vertex's id. */
  predicate IsSelf(v: VertexOps.VHandle, id: JavaId)
  {
    v.id == id
  }

  /**
   * The vertices getVertices adds for one edge. IN or OUT: the edge's other
   * end (null when it cannot be found). BOTH: the vertex itself for a
   * self-loop, else the end that is not this vertex; a null end is a
   * NullPointerException as soon as its id is read.
   */
  function Neighbours(cfg: Element.Config, id: JavaId, dir: Direction, e: EHandle, docs: Docs): (r: Result<seq<VRef>>)
    ensures dir != BOTH && r.Ok? ==> |r.value| == 1 && !r.value[0].Self?
    ensures dir != BOTH && r.Ok? && r.value[0].Other? ==>
      r.value[0].h.key == (var s := EdgeOps.ERefresh(cfg, e.key, e.st, docs).1; if dir == OUT then s.to else s.from)
    ensures dir == BOTH && r.Ok? ==> |r.value| <= 1
  {
    if dir != BOTH then
      var (v, _) := EdgeOps.GetVertex(cfg, e.key, e.st, InvertDirection(dir), docs);
      match v
      case Err(f) => Err(f)
      case Ok(None) => Ok([Null])
      case Ok(Some(h)) => Ok([Other(h)])
    else
      var (vIn, s1) := EdgeOps.GetVertex(cfg, e.key, e.st, IN, docs);
      var (vOut, _) := EdgeOps.GetVertex(cfg, e.key, s1, OUT, docs);
      if vIn.Err? then Err(vIn.failure)
      else if vOut.Err? then Err(vOut.failure)
      else if vIn.value.None? || vOut.value.None? then Err(NullPointer)
      else
        var vi := vIn.value.value;
        var vo := vOut.value.value;
        if IsSelf(vi, id) && IsSelf(vo, id) then Ok([Self])
        else if IsSelf(vi, id) then Ok([Other(vo)])
        else if IsSelf(vo, id) then Ok([Other(vi)])
        else Ok([])
  }

  /** The getVertices loop over the edges from `acc` on. */
  function NeighboursFrom(cfg: Element.Config, id: JavaId, dir: Direction, es: seq<EHandle>, acc: seq<VRef>, docs: Docs): Result<seq<VRef>>
    decreases |es|
  {
    if es == [] then Ok(acc)
    else
      match Neighbours(cfg, id, dir, es[0], docs)
      case Err(f) => Err(f)
      case Ok(vs) => NeighboursFrom(cfg, id, dir, es[1..], acc + vs, docs)
  }

  /** getVertices(dir, labels): refresh, getEdges, then the neighbours of each edge in order. */
  function GetVertices(cfg: Element.Config, key: string, id: JavaId, st: VertexOps.VState, dir: Direction, labels: seq<string>, allLabels: seq<string>, docs: Docs): (Result<seq<VRef>>, VertexOps.VState)
  {
    var (res, s) := VertexOps.VRefresh(cfg, key, st, docs);
    if res.Err? then (if Element.Swallowed(res) then Ok([]) else Err(res.failure), s)
    else
      var (re, s2) := GetEdges(cfg, key, s, dir, labels, allLabels, docs);
      match re
      case Err(f) => (Err(f), s2)
      case Ok(es) => (NeighboursFrom(cfg, id, dir, es, [], docs), s2)
  }

  /**
   * A self-loop seen in direction BOTH by a vertex opened by its key
   * yields the vertex itself, once.
   */
  lemma SelfLoopIsSelf(cfg: Element.Config, id: JavaId, e: EHandle, docs: Docs)
    requires cfg.refreshEnabled && e.key in docs && docs[e.key].EDoc?
    requires var v := docs[e.key].from; v == docs[e.key].to && |v| >= 2 && id == StrId(v[2..])
    requires VertexOps.Open(cfg, docs[e.key].from, docs).Ok?
    ensures Neighbours(cfg, id, BOTH, e, docs) == Ok([Self])
  {
  }

  /**
   * BOTH over a stored edge whose ends both open: the vertex itself when
   * its id is that of both ends, the `from` vertex when it is only the
   * `to` end, the `to` vertex when it is only the `from` end, and nothing
   * when the edge does not touch it.
   */
  lemma BothGivesOtherEnd(cfg: Element.Config, id: JavaId, e: EHandle, docs: Docs)
    requires cfg.refreshEnabled && e.key in docs && docs[e.key].EDoc?
    requires VertexOps.OpenByKey(cfg, docs[e.key].from, docs).Ok?
    requires VertexOps.OpenByKey(cfg, docs[e.key].to, docs).Ok?
    ensures var d := docs[e.key];
      var r := Neighbours(cfg, id, BOTH, e, docs);
      var vFrom := VertexOps.OpenByKey(cfg, d.from, docs).value;
      var vTo := VertexOps.OpenByKey(cfg, d.to, docs).value;
      r.Ok?
      && (id == vFrom.id && id == vTo.id ==> r.value == [Self])
      && (id == vTo.id && id != vFrom.id ==> r.value == [Other(vFrom)])
      && (id == vFrom.id && id != vTo.id ==> r.value == [Other(vTo)])
      && (id != vFrom.id && id != vTo.id ==> r.value == [])
  {
  }

  /**
   * BOTH over a stored edge one of whose ends is missing (and the other
   * opens or is missing too) is a NullPointerException.
   */
  lemma BothMissingEndFails(cfg: Element.Config, id: JavaId, e: EHandle, docs: Docs)
    requires cfg.refreshEnabled && e.key in docs && docs[e.key].EDoc?
    requires var oFrom := VertexOps.OpenByKey(cfg, docs[e.key].from, docs);
      var oTo := VertexOps.OpenByKey(cfg, docs[e.key].to, docs);
      (oFrom.Ok? || oFrom.failure.DocNotFound?) && (oTo.Ok? || oTo.failure.DocNotFound?)
      && (oFrom.Err? || oTo.Err?)
    ensures Neighbours(cfg, id, BOTH, e, docs) == Err(NullPointer)
  {
  }

  /**
   * A vertex opened by a Long id never recognises itself at an edge's end:
   * the ends are opened by key, with String ids, so BOTH finds nothing.
   */
  lemma LongIdFindsNothing(cfg: Element.Config, id: JavaId, e: EHandle, docs: Docs)
    requires id.LongId?
    ensures var r := Neighbours(cfg, id, BOTH, e, docs); r.Ok? ==> r.value == []
  {
    var (vIn, s1) := EdgeOps.GetVertex(cfg, e.key, e.st, IN, docs);
    var (vOut, _) := EdgeOps.GetVertex(cfg, e.key, s1, OUT, docs);
    if vIn.Ok? && vIn.value.Some? {
      assert vIn.value.value.id.StrId?;
    }
    if vOut.Ok? && vOut.value.Some? {
      assert vOut.value.value.id.StrId?;
    }
  }

  // ---------------------------------------------------------------------
  // remove

  /** The loop of CBVertex.remove: each edge removed in turn; a failure escapes. */
  function Cascade(cfg: Element.Config, es: seq<EHandle>, docs: Docs): (r: (Outcome, Docs))
    decreases |es|
  {
    if es == [] then (Pass, docs)
    else
      var (o, _, d1) := EdgeOps.Remove(cfg, es[0].key, es[0].st, docs);
      if o.Fail? then (o, d1) else Cascade(cfg, es[1..], d1)
  }

  /** CBVertex.remove, given what getAllEdges returned: remove those edges, then the vertex document. */
  function RemoveVertex(cfg: Element.Config, key: string, allEdges: Result<seq<EHandle>>, docs: Docs): (Outcome, Docs)
  {
    match allEdges
    case Err(f) => (Fail(f), docs)
    case Ok(es) =>
      var (o, d1) := Cascade(cfg, es, docs);
      if o.Fail? then (o, d1) else Element.RemoveElement(key, d1)
  }

  /**
   * A cascade that passes leaves none of the removed edges' documents
   * (bar a side-document key), deletes nothing else and adds only side
   * documents.
   */
  lemma {:induction false} CascadeFrame(cfg: Element.Config, es: seq<EHandle>, docs: Docs)
    decreases |es|
    ensures var (o, docs') := Cascade(cfg, es, docs);
      (o == Pass ==> forall i :: 0 <= i < |es| && !EdgeOps.SideKey(es[i].key) ==> es[i].key !in docs')
      && (forall k :: k in docs && k !in EdgeOps.HandleKeys(es) ==> k in docs')
      && (forall k :: k in docs' ==> k in docs || EdgeOps.SideKey(k))
  {
    if es != [] {
      EdgeOps.RemoveFrame(cfg, es[0].key, es[0].st, docs);
      var (o, _, d1) := EdgeOps.Remove(cfg, es[0].key, es[0].st, docs);
      if o.Pass? {
        CascadeFrame(cfg, es[1..], d1);
        var keys := EdgeOps.HandleKeys(es);
        assert EdgeOps.HandleKeys(es[1..]) == keys[1..];
        forall k | k in docs && k !in keys
          ensures k in Cascade(cfg, es, docs).1
        {
          assert k != es[0].key;
          assert k !in keys[1..];
        }
      }
    }
  }

  /**
   * CBVertex.remove that passes deletes the vertex document and the
   * documents of the edges it was given, and no other document.
   */
  lemma RemoveVertexFrame(cfg: Element.Config, key: string, es: seq<EHandle>, docs: Docs)
    ensures var (o, docs') := RemoveVertex(cfg, key, Ok(es), docs);
      (o == Pass ==> key !in docs' && forall i :: 0 <= i < |es| && !EdgeOps.SideKey(es[i].key) ==> es[i].key !in docs')
      && (forall k :: k in docs && k != key && k !in EdgeOps.HandleKeys(es) ==> k in docs')
      && (forall k :: k in docs' ==> k in docs || EdgeOps.SideKey(k))
  {
    CascadeFrame(cfg, es, docs);
  }
}
