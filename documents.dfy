// The documents the graph layer keeps in the store: property values, the
// adjacency lists of a vertex, the three kinds of stored document, and the
// three ways a vertex document can hold its adjacency lists (inline, as a
// base64 string of the gzipped JSON, or as the key of a binary side document).

module Documents {
  import opened Wrappers
  import opened CBModel
  import JsonHelper
  import Keys

  /** A property value as a caller passes it or gets it back: a scalar or a java.util.List. */
  datatype Value = Str(s: string) | Long(n: int) | Bool(b: bool) | ListOf(items: seq<Value>)

  /** A property value inside a JSON document; a list is held as a JSON array. */
  datatype Json = JStr(s: string) | JNum(n: int) | JBool(b: bool) | JArray(elems: seq<Json>)

  type PropMap = map<string, Json>

  /** What setProperty stores for a value: a list becomes a JSON array (JsonArray.from). */
  function ToJson(v: Value): (j: Json)
    ensures v.ListOf? <==> j.JArray?
    ensures v.ListOf? ==> |j.elems| == |v.items|
    decreases v
  {
    match v
    case Str(s) => JStr(s)
    case Long(n) => JNum(n)
    case Bool(b) => JBool(b)
    case ListOf(items) => JArray(seq(|items|, i requires 0 <= i < |items| => ToJson(items[i])))
  }

  /** What getProperty hands back for a stored value: an array becomes a list (JsonArray.toList). */
  function ToValue(j: Json): (v: Value)
    ensures j.JArray? <==> v.ListOf?
    ensures j.JArray? ==> |v.items| == |j.elems|
    decreases j
  {
    match j
    case JStr(s) => Str(s)
    case JNum(n) => Long(n)
    case JBool(b) => Bool(b)
    case JArray(elems) => ListOf(seq(|elems|, i requires 0 <= i < |elems| => ToValue(elems[i])))
  }

  /** A value set as a property reads back as the same value, lists included. */
  lemma {:induction false} ValueRoundTrip(v: Value)
    ensures ToValue(ToJson(v)) == v
    decreases v
  {
    if v.ListOf? {
      var j := ToJson(v);
      forall i | 0 <= i < |v.items|
        ensures ToValue(j.elems[i]) == v.items[i]
      {
        ValueRoundTrip(v.items[i]);
      }
    }
  }

  /**
   * The adjacency lists of a vertex: for each direction, label -> the keys of
   * the edges with that label, in insertion order.
   */
  datatype Adjacency = Adjacency(inLists: map<string, seq<string>>, outLists: map<string, seq<string>>)

  /** How a vertex document holds its adjacency lists. */
  datatype EdgesField =
    | Inline(adj: Adjacency)  // the JSON object itself
    | Text(s: string)         // a base64 string, or the key of the binary side document

  /** A stored document. JSON documents carry a `type` tag; binary documents are raw bytes. */
  datatype Doc =
    | VDoc(props: Option<PropMap>, edges: EdgesField)
    | EDoc(from: string, to: string, lbl: string, eprops: Option<PropMap>)
    | BDoc(bytes: seq<bv8>)

  /** The `type` field of a JSON document. */
  function TypeTag(d: Doc): (t: string)
    requires !d.BDoc?
    ensures d.VDoc? <==> t == VAL_TYPE_VERTEX
    ensures d.EDoc? <==> t == VAL_TYPE_EDGE
  {
    if d.VDoc? then VAL_TYPE_VERTEX else VAL_TYPE_EDGE
  }

  /** The `props` object of a document, null when it has none. */
  function PropsOf(d: Doc): Option<PropMap>
  {
    match d
    case VDoc(p, _) => p
    case EDoc(_, _, _, p) => p
    case BDoc(_) => None
  }

  /** The document with its `props` object replaced; a binary document has none. */
  function WithProps(d: Doc, p: PropMap): (r: Doc)
    ensures !d.BDoc? ==> PropsOf(r) == Some(p)
    ensures d.VDoc? ==> r.VDoc? && r.edges == d.edges
    ensures d.EDoc? ==> r.EDoc? && r.from == d.from && r.to == d.to && r.lbl == d.lbl
    ensures d.BDoc? ==> r == d
  {
    match d
    case VDoc(_, e) => VDoc(Some(p), e)
    case EDoc(f, t, l, _) => EDoc(f, t, l, Some(p))
    case BDoc(_) => d
  }

  /** The document with its `edges` field replaced; only a vertex document has one here. */
  function WithEdges(d: Doc, e: EdgesField): (r: Doc)
    ensures d.VDoc? ==> r == VDoc(d.props, e)
    ensures !d.VDoc? ==> r == d
  {
    if d.VDoc? then VDoc(d.props, e) else d
  }

  /** The document CBGraph.addVertex creates: empty props, empty in and out maps. */
  const NewVertexDoc: Doc := VDoc(Some(map[]), Inline(Adjacency(map[], map[])))

  datatype Direction = IN | OUT | BOTH

  /** invertDirection */
  function InvertDirection(d: Direction): (r: Direction)
    ensures d == IN <==> r == OUT
    ensures d == OUT <==> r == IN
    ensures d == BOTH <==> r == BOTH
  {
    match d
    case IN => OUT
    case OUT => IN
    case BOTH => BOTH
  }

  lemma InvertInvolutive(d: Direction)
    ensures InvertDirection(InvertDirection(d)) == d
  {
  }

  predicate TouchesOut(d: Direction) { d == OUT || d == BOTH }
  predicate TouchesIn(d: Direction) { d == IN || d == BOTH }

  /** Appends `key` to the list of `lbl`, creating the list when the label is new. */
  function AppendRef(lists: map<string, seq<string>>, lbl: string, key: string): (r: map<string, seq<string>>)
    ensures r.Keys == lists.Keys + {lbl}
    ensures |r[lbl]| > 0 && r[lbl][|r[lbl]| - 1] == key
    ensures r[lbl][..|r[lbl]| - 1] == (if lbl in lists then lists[lbl] else [])
    ensures forall l :: l in lists && l != lbl ==> r[l] == lists[l]
  {
    var old_ := if lbl in lists then lists[lbl] else [];
    assert (old_ + [key])[..|old_|] == old_;
    lists[lbl := old_ + [key]]
  }

  /**
   * Removes the first occurrence of `key` from the list of `lbl` and drops the
   * label once its list is empty. A missing label is a null array handed to
   * the remove helper: a NullPointerException.
   */
  function RemoveRef(lists: map<string, seq<string>>, lbl: string, key: string): (r: Result<map<string, seq<string>>>)
    ensures r.Err? <==> lbl !in lists
    ensures r.Err? ==> r.failure == NullPointer
    ensures r.Ok? ==> r.value.Keys <= lists.Keys && lists.Keys - r.value.Keys <= {lbl}
    ensures r.Ok? ==> forall l :: l in lists && l != lbl ==> l in r.value && r.value[l] == lists[l]
  {
    if lbl !in lists then Err(NullPointer)
    else
      var rest := JsonHelper.Remove(lists[lbl], key);
      if |rest| != 0 then Ok(lists[lbl := rest]) else Ok(lists - {lbl})
  }

  /** addEdgeToAdjacencyList on the lists themselves: OUT first, then IN. */
  function AdjAdd(adj: Adjacency, lbl: string, key: string, dir: Direction): Adjacency
  {
    var a1 := if TouchesOut(dir) then adj.(outLists := AppendRef(adj.outLists, lbl, key)) else adj;
    if TouchesIn(dir) then a1.(inLists := AppendRef(a1.inLists, lbl, key)) else a1
  }

  /**
   * removeEdgeFromAdjacencyList on the lists themselves: OUT first, then IN.
   * On a failure the lists are returned as far as they were changed.
   */
  function AdjRemove(adj: Adjacency, lbl: string, key: string, dir: Direction): (Outcome, Adjacency)
  {
    var (o1, a1) :=
      if TouchesOut(dir) then
        match RemoveRef(adj.outLists, lbl, key)
        case Err(f) => (Fail(f), adj)
        case Ok(m) => (Pass, adj.(outLists := m))
      else (Pass, adj);
    if o1.Fail? || !TouchesIn(dir) then (o1, a1)
    else
      match RemoveRef(a1.inLists, lbl, key)
      case Err(f) => (Fail(f), a1)
      case Ok(m) => (Pass, a1.(inLists := m))
  }

  /**
   * The list of a present label loses exactly its first occurrence of `key`
   * (and nothing when there is none); the label is dropped exactly when
   * nothing is left.
   */
  lemma RemoveRefContents(lists: map<string, seq<string>>, lbl: string, key: string)
    requires lbl in lists
    ensures var r := RemoveRef(lists, lbl, key);
      var xs := lists[lbl];
      r.Ok?
      && (lbl !in r.value <==> (xs == [] || xs == [key]))
      && (key !in xs && xs != [] ==> r.value[lbl] == xs)
      && (key in xs && lbl in r.value ==>
            var i := JsonHelper.FirstIndex(xs, key);
            r.value[lbl] == xs[..i] + xs[i + 1..])
      && (lbl in r.value ==> multiset(r.value[lbl]) == multiset(xs) - multiset{key})
  {
    var xs := lists[lbl];
    JsonHelper.RemoveFirst(xs, key);
    JsonHelper.RemoveMultiset(xs, key);
    assert JsonHelper.Remove(xs, key) == [] <==> (xs == [] || xs == [key]) by {
      RemoveEmpties(xs, key);
    }
  }

  /** Removing one occurrence leaves nothing exactly when there was at most that one. */
  lemma RemoveEmpties(xs: seq<string>, key: string)
    ensures JsonHelper.Remove(xs, key) == [] <==> (xs == [] || xs == [key])
  {
    JsonHelper.RemoveMultiset(xs, key);
    if xs == [key] {
      assert JsonHelper.Remove(xs, key) == [];
    }
    if JsonHelper.Remove(xs, key) == [] && xs != [] {
      assert |multiset(xs)| <= 1 by {
        assert |multiset(JsonHelper.Remove(xs, key))| == 0;
      }
      assert xs == [xs[0]] + xs[1..];
      assert xs[0] == key by {
        assert xs[0] in multiset(xs);
        assert multiset(xs) - multiset{key} == multiset{};
      }
      assert xs[1..] == [] by {
        assert |multiset(xs)| == |xs|;
      }
    }
  }

  /**
   * Appending a key and removing it again restores the lists, provided the
   * label was absent, or held a non-empty list without that key.
   */
  lemma AppendThenRemove(lists: map<string, seq<string>>, lbl: string, key: string)
    requires lbl !in lists || (key !in lists[lbl] && lists[lbl] != [])
    ensures RemoveRef(AppendRef(lists, lbl, key), lbl, key) == Ok(lists)
  {
    var xs := if lbl in lists then lists[lbl] else [];
    var added := AppendRef(lists, lbl, key);
    assert added[lbl] == xs + [key];
    JsonHelper.RemoveAppended(xs, key);
    if lbl in lists {
      assert added[lbl := xs] == lists;
    } else {
      assert added - {lbl} == lists;
    }
  }

  /** The same restore, for the lists of both directions. */
  lemma AdjAddThenRemove(adj: Adjacency, lbl: string, key: string, dir: Direction)
    requires TouchesOut(dir) ==> lbl !in adj.outLists || (key !in adj.outLists[lbl] && adj.outLists[lbl] != [])
    requires TouchesIn(dir) ==> lbl !in adj.inLists || (key !in adj.inLists[lbl] && adj.inLists[lbl] != [])
    ensures AdjRemove(AdjAdd(adj, lbl, key, dir), lbl, key, dir) == (Pass, adj)
  {
    if TouchesOut(dir) {
      AppendThenRemove(adj.outLists, lbl, key);
    }
    if TouchesIn(dir) {
      AppendThenRemove(adj.inLists, lbl, key);
    }
  }

  /** Adding touches exactly the chosen directions; the other keeps its lists. */
  lemma AdjAddDirections(adj: Adjacency, lbl: string, key: string, dir: Direction)
    ensures var a := AdjAdd(adj, lbl, key, dir);
      (TouchesOut(dir) ==> a.outLists == AppendRef(adj.outLists, lbl, key))
      && (!TouchesOut(dir) ==> a.outLists == adj.outLists)
      && (TouchesIn(dir) ==> a.inLists == AppendRef(adj.inLists, lbl, key))
      && (!TouchesIn(dir) ==> a.inLists == adj.inLists)
  {
  }

  /**
   * Removing from BOTH with the label missing on the OUT side fails before
   * the IN side is looked at; missing only on the IN side, it fails after the
   * OUT side has already been changed.
   */
  lemma AdjRemoveBothPartial(adj: Adjacency, lbl: string, key: string)
    requires lbl in adj.outLists && lbl !in adj.inLists
    ensures var (o, a) := AdjRemove(adj, lbl, key, BOTH);
      o == Fail(NullPointer) && a.outLists == RemoveRef(adj.outLists, lbl, key).value && a.inLists == adj.inLists
  {
  }

  /** Where the adjacency lists of a vertex are kept. */
  datatype Compression = Uncompressed | Base64Text | Binary

  /**
   * The encoders the compression path calls into: the JSON rendering and
   * parsing of the lists, gzip (ZipHelper.compress / decompress) and base64.
   * A None result is the exception the decoder raises.
   */
  datatype Codec = Codec(
    render: Adjacency -> string,
    parse: string -> Option<Adjacency>,
    gzip: string -> seq<bv8>,
    gunzip: seq<bv8> -> Option<string>,
    base64: seq<bv8> -> string,
    unbase64: string -> Option<seq<bv8>>)

  /** The codec decodes what it encodes for these lists. */
  predicate RoundTrips(c: Codec, a: Adjacency)
  {
    var text := c.render(a);
    var bytes := c.gzip(text);
    c.gunzip(bytes) == Some(text) && c.parse(text) == Some(a) && c.unbase64(c.base64(bytes)) == Some(bytes)
  }

  /** The lists as decompressEdges found them, or the caught DecompressionException. */
  datatype Decoded = Decoded(adj: Adjacency) | Undecodable

  /** gunzip then parse; a gzip failure is caught by the caller, a parse failure is not. */
  function Unzip(c: Codec, bytes: seq<bv8>): Result<Decoded>
  {
    match c.gunzip(bytes)
    case None => Ok(Undecodable)
    case Some(text) =>
      match c.parse(text)
      case None => Err(Malformed)
      case Some(a) => Ok(Decoded(a))
  }

  /**
   * decompressEdges followed by reading `in` and `out`: the lists held by the
   * fetched document `d`, given the mode. A document without an edges field
   * ends in a NullPointerException; a field of the wrong JSON type in a
   * ClassCastException; a missing side document in a NullPointerException.
   */
  function DecompressEdges(mode: Compression, c: Codec, d: Doc, docs: map<string, Doc>): (r: Result<Decoded>)
    ensures mode == Uncompressed && d.VDoc? && d.edges.Inline? ==> r == Ok(Decoded(d.edges.adj))
    ensures !d.VDoc? ==> r == Err(NullPointer)
  {
    if !d.VDoc? then Err(NullPointer)
    else
      match mode
      case Uncompressed =>
        (match d.edges
         case Inline(a) => Ok(Decoded(a))
         case Text(_) => Err(ClassCast))
      case Base64Text =>
        (match d.edges
         case Inline(_) => Err(ClassCast)
         case Text(s) =>
           match c.unbase64(s)
           case None => Err(IllegalArgument)
           case Some(bytes) => Unzip(c, bytes))
      case Binary =>
        (match d.edges
         case Inline(_) => Err(ClassCast)
         case Text(k) =>
           if k !in docs then Err(NullPointer)
           else
             match docs[k]
             case BDoc(bytes) => Unzip(c, bytes)
             case _ => Err(ClassCast))
  }

  /**
   * compressEdges: the document to write back and, in binary mode, the side
   * document to upsert first. Without compression the document already holds
   * the lists, so it is returned as it is.
   */
  function CompressEdges(mode: Compression, c: Codec, id: Keys.JavaId, d: Doc, a: Adjacency): (r: (Doc, Option<(string, Doc)>))
    ensures mode == Uncompressed ==> r == (d, None)
    ensures mode != Binary ==> r.1 == None
    ensures mode == Binary ==> r.1 == Some((Keys.GenAdjacencyListKey(id), BDoc(c.gzip(c.render(a)))))
  {
    var bytes := c.gzip(c.render(a));
    match mode
    case Uncompressed => (d, None)
    case Base64Text => (WithEdges(d, Text(c.base64(bytes))), None)
    case Binary =>
      var k := Keys.GenAdjacencyListKey(id);
      (WithEdges(d, Text(k)), Some((k, BDoc(bytes))))
  }

  /** The store after an optional upsert. */
  function Upserted(docs: map<string, Doc>, up: Option<(string, Doc)>): map<string, Doc>
  {
    if up.None? then docs else docs[up.value.0 := up.value.1]
  }

  /**
   * Decompressing what compressEdges wrote gives back the lists, in every
   * mode, when the codec round-trips them (without compression the document
   * must hold the lists inline, as it does after a refresh).
   */
  lemma CompressRoundTrip(mode: Compression, c: Codec, id: Keys.JavaId, d: Doc, a: Adjacency, docs: map<string, Doc>)
    requires d.VDoc? && RoundTrips(c, a)
    requires mode == Uncompressed ==> d.edges == Inline(a)
    ensures var (d', up) := CompressEdges(mode, c, id, d, a);
      d'.VDoc? && d'.props == d.props && DecompressEdges(mode, c, d', Upserted(docs, up)) == Ok(Decoded(a))
  {
  }

  /** The lists a document's edges field points at are unaffected by compressing another vertex. */
  lemma DecompressIgnoresOtherKeys(mode: Compression, c: Codec, d: Doc, docs: map<string, Doc>, k: string, b: Doc)
    requires !(mode == Binary && d.VDoc? && d.edges == Text(k))
    ensures DecompressEdges(mode, c, d, docs[k := b]) == DecompressEdges(mode, c, d, docs)
  {
  }
}
