# cb-graph in Dafny

A model of the core of cb-graph, a Blueprints property graph kept in a
Couchbase bucket. Every vertex is a JSON document at `"v_" + id`. It holds
a `props` object and an `edges` object mapping `in`/`out` to label → list of
edge keys. Every edge is a JSON document at
`"e_" + from + "->|" + label + "|->" + to`, holding `from`, `to` and `label`.

The model covers:

- the key codec (`CBModel`, the key helpers of `CBVertex` and `CBEdge`), including the JDK string operations it is built from;
- the element cache and its refresh policy (`CBElement`);
- vertex adjacency maintenance and its three storage modes (inline, base64 string, binary side document), plus traversal and removal (`CBVertex`);
- edge endpoints and removal (`CBEdge`);
- the graph operations (`CBGraph`);
- the helpers `JSONHelper.remove`/`sort` and `CollectionHelper.contains`/`sortMap`.

The model has two layers:

- **Value layer** (`VertexOps`, `EdgeOps`, `Traversal`, `GraphOps`). Each operation is a function from a handle's cache and the store's map to the answer, the new cache and the new map. The lemmas state what the operations promise.
- **Object layer** (`Handles.Vertex`, `Handles.Edge`, `GraphStore.Graph`). These are classes whose fields are the Java objects' caches (`innerObj`, `innerEdges`, `innerFrom`, ...), over a `Store.Bucket` object that holds the documents and the vertex counter. Each method is proved equal to its value-layer function, applied to the cache and store it started from. The loops carry the value functions' accumulators as invariants.

Java exceptions that the code does not catch become `Err`/`Fail` results that propagate. A caught `DocNotFoundException` becomes the default the code returns.

Modules:

- `Wrappers`: `Option`, `Result`, `Outcome` and the failure kinds.
- `JavaString`: `indexOf`, `lastIndexOf`, `substring`, `replace`, `Long.toString`.
- `CBModel`: the constants.
- `Keys`: ids, key generation and parsing.
- `JsonHelper`, `CollectionHelper`.
- `Documents`: values, documents, adjacency lists, compression.
- `Store`: the bucket.
- `Element`: `CBElement`.
- `Scans`: the keep/skip/fail loop shared by the graph's listings and property filters, and which positions it keeps.
- `VertexOps`, `EdgeOps`, `Traversal`, `GraphOps`: the value layer.
- `Handles`, `GraphStore`: the object layer.

Source behaviour the model follows as written:

- **Doubled results.** `getEdges` appends a label's edges through `result.addAll(edgesFromJsonArr(result, ...))`. For a label missing from the lists, `edgesFromJsonArr` returns `result` itself, so the edges gathered so far are appended to themselves.
- **Overwritten results.** `getAllEdges` assigns each label's edges to `result` instead of appending them. It therefore returns one label's edges, and `remove()` removes only those.
- **Stale second handle.** `addEdge` with two handles on one vertex and refresh off writes back the second handle's stale lists, which loses the OUT entry of a self-loop. Edge `remove` with refresh off works the same way and keeps the OUT entry.
- **No edge props.** `addEdge` writes no `props` object into the edge document, so reading a property of such an edge is a `NullPointerException`. `addEdge` also ignores the id it is given.
- **Parsed ids are Strings.** A vertex opened by key has the String id parsed from the key. A vertex created with a Long id therefore never recognises itself in `getVertices(BOTH)`.
- **Compressed `addVertex` fails.** With compression on, `addVertex` writes an inline `edges` object that `decompressEdges` then casts to a String (a `ClassCastException`).
- **The `AL_KEY` constant.** It is not defined in `CBModel.java`. It is taken to be `"al_{1}"`, which is what the compression test expects of `genAdjacencyListKey`.

## Model

| member | source | states |
|---|---|---|
| JavaString.IndexOfFrom | src/main/java/com/couchbase/graph/CBEdge.java:258-264 | indexOf from a position: -1 exactly when no occurrence at or after it, else the first occurrence there |
| JavaString.IndexOf | src/main/java/com/couchbase/graph/CBEdge.java:256 | -1 iff the pattern does not occur; otherwise an occurrence with none before it |
| JavaString.LastIndexOfUpTo | src/main/java/com/couchbase/graph/CBEdge.java:260-265 | the last occurrence at or before a bound, or -1 when there is none |
| JavaString.LastIndexOf | src/main/java/com/couchbase/graph/CBEdge.java:260 | -1 iff the pattern does not occur; otherwise an occurrence with none after it |
| JavaString.Substring | src/main/java/com/couchbase/graph/CBEdge.java:250 | defined exactly when 0 <= b <= e <= length (else StringIndexOutOfBounds), and then the characters b..e |
| JavaString.ReplaceAbsent | src/main/java/com/couchbase/graph/CBEdge.java:214 | `JavaString.ReplaceAll` (String.replace) of a pattern that does not occur returns the string unchanged |
| JavaString.ReplaceJoin | src/main/java/com/couchbase/graph/CBEdge.java:214 | replace distributes over a concatenation whose seam no occurrence can cross (the last character of the left part cannot start or continue the pattern, or the first of the right part cannot continue or end it) |
| JavaString.ReplaceWhole | src/main/java/com/couchbase/graph/CBEdge.java:214 | the pattern itself becomes the replacement |
| JavaString.ReplaceShort | src/main/java/com/couchbase/graph/CBEdge.java:214 | a string no longer than a different pattern is left alone |
| JavaString.NatDigits | src/main/java/com/couchbase/graph/CBVertex.java:627-630 | the decimal form of a natural number is non-empty and all digits |
| JavaString.LongToString | src/main/java/com/couchbase/graph/CBVertex.java:627-630 | Long.toString is non-empty, digits with an optional leading minus |
| Keys.ParseVertexKey | src/main/java/com/couchbase/graph/CBVertex.java:649-652 | fails (index out of bounds) exactly on keys shorter than the prefix; otherwise the String id after "v_" |
| Keys.EdgeIdIsLayout | src/main/java/com/couchbase/graph/CBModel.java:30-33 | the edge id template is "{1}" "->|" "{2}" "|->" "{3}" and the edge key template is "e_" before it |
| Keys.VertexKeyShape | src/main/java/com/couchbase/graph/CBVertex.java:627-630 | `Keys.GenVertexKey(id)` is "v_" followed by the id's string form |
| Keys.AdjacencyListKeyShape | src/main/java/com/couchbase/graph/CBVertex.java:638-641 | `Keys.GenAdjacencyListKey(id)` is "al_" followed by the id's string form |
| Keys.VertexKeyRoundTrip | src/main/java/com/couchbase/graph/CBVertex.java:627-652 | parseVertexKey(genVertexKey(id)) is the id's string form as a String id; a Long id does not come back as a Long |
| Keys.VertexKeyParseGen | src/main/java/com/couchbase/graph/CBVertex.java:627-652 | every key starting with "v_" parses and regenerates to itself |
| Keys.VertexKeyIsNoEdgeKey | src/main/java/com/couchbase/graph/CBModel.java:27-33 | no generated vertex key equals a generated edge key |
| Keys.EdgeIdShape | src/main/java/com/couchbase/graph/CBEdge.java:212-215 | `Keys.GenEdgeId` fills the layout in the order {1}, {3}, {2}, so "{3}"/"{2}" inside the from id and "{2}" inside the to id are rewritten |
| Keys.EdgeKeyIsPrefixedId | src/main/java/com/couchbase/graph/CBEdge.java:212-229 | `Keys.GenEdgeKey` is "e_" followed by genEdgeId |
| Keys.PlainEdgeId | src/main/java/com/couchbase/graph/CBEdge.java:212-215 | without placeholders in the ids, the edge id is from + "->|" + label + "|->" + to |
| Keys.LongIdIsPlain | src/main/java/com/couchbase/graph/CBVertex.java:606-618 | a counter-generated id holds no delimiter and no placeholder |
| Keys.KeyHasDelimiters | src/main/java/com/couchbase/graph/CBEdge.java:254 | every laid-out edge key contains both "->\|" and "\|->" |
| Keys.EdgeKeyRoundTrip | src/main/java/com/couchbase/graph/CBEdge.java:244-272 | `Keys.ParseEdgeKey` of a key with delimiter-free from and to parts parses into id, "e_", from, label, to |
| Keys.CutLayout | src/main/java/com/couchbase/graph/CBEdge.java:256-268 | the index arithmetic of parseEdgeKey cuts exactly from, label and to out of such an id |
| Keys.CutAt | src/main/java/com/couchbase/graph/CBEdge.java:256-268 | once the first and last "->" and "\|" are found, the three substrings are the slices between them |
| Keys.GeneratedEdgeKeyParses | src/main/java/com/couchbase/graph/CBEdge.java:212-272 | parseEdgeKey(genEdgeKey(f, l, t)) gives back f, l, t when their string forms hold no delimiter and no placeholder |
| Keys.UndelimitedEdgeKey | src/main/java/com/couchbase/graph/CBEdge.java:244-272 | a key lacking "\|->" keeps only its id and prefix; from, label and to stay null |
| Keys.ExampleEdgeId | src/main/java/com/couchbase/graph/CBEdge.java:212-215 | "tae_bart", "son of", "tae_homer" give "tae_bart->\|son of\|->tae_homer" |
| Keys.PlaceholderInIdIsRewritten | src/main/java/com/couchbase/graph/CBEdge.java:212-215 | a from id "{2}" is overwritten by the label |
| JsonHelper.FirstIndex | src/main/java/com/couchbase/graph/helper/JSONHelper.java:57-65 | the first position holding the element |
| JsonHelper.RemoveFirst | src/main/java/com/couchbase/graph/helper/JSONHelper.java:57-65 | `JsonHelper.Remove` drops exactly the first occurrence, the rest keeping its order; without one the array is unchanged |
| JsonHelper.RemoveMultiset | src/main/java/com/couchbase/graph/helper/JSONHelper.java:57-65 | remove takes exactly one copy of the element out of the array's elements, if there was one |
| JsonHelper.RemoveAppended | src/main/java/com/couchbase/graph/helper/JSONHelper.java:57-65 | removing an element just appended to an array without it restores the array |
| CollectionHelper.Contains | src/main/java/com/couchbase/graph/helper/CollectionHelper.java:43-51 | true iff some entry's string form equals the object's (so false on an empty list) |
| CollectionHelper.ContainsMember | src/main/java/com/couchbase/graph/helper/CollectionHelper.java:43-51 | an element of the list is always found |
| CollectionHelper.PutNewKeys | src/main/java/com/couchbase/graph/helper/CollectionHelper.java:63-76 | TreeMap.put of a new key adds exactly that key and one entry |
| CollectionHelper.PutNewKeeps | src/main/java/com/couchbase/graph/helper/CollectionHelper.java:63-76 | put of a new key keeps every entry and adds the new one |
| CollectionHelper.PutNew | src/main/java/com/couchbase/graph/helper/CollectionHelper.java:63-76 | `CollectionHelper.Put` keeps the entries in ascending comparator order |
| CollectionHelper.SortStep | src/main/java/com/couchbase/graph/helper/CollectionHelper.java:63-76 | each loop step extends the sorted prefix by the next entry |
| CollectionHelper.SortDone | src/main/java/com/couchbase/graph/helper/CollectionHelper.java:59-79 | after the loop the output is the sorted copy of the whole map |
| CollectionHelper.SortMap | src/main/java/com/couchbase/graph/helper/CollectionHelper.java:59-79 | the result has the same keys in ascending comparator order, nested maps sorted recursively, other values copied |
| Documents.ToJson | src/main/java/com/couchbase/graph/CBElement.java:236-240 | a list value is stored as an array of the same length, anything else as a scalar |
| Documents.ToValue | src/main/java/com/couchbase/graph/CBElement.java:185-189 | an array is read back as a list of the same length |
| Documents.ValueRoundTrip | src/main/java/com/couchbase/graph/CBElement.java:175-242 | a value set as a property reads back as the same value, lists included |
| Documents.TypeTag | src/main/java/com/couchbase/graph/CBModel.java:36-51 | a vertex document is tagged "vertex" and an edge document "edge", and only they |
| Documents.WithProps | src/main/java/com/couchbase/graph/CBElement.java:236-242 | replacing the props object keeps the rest of the document |
| Documents.WithEdges | src/main/java/com/couchbase/graph/CBVertex.java:433-456 | replacing the edges field keeps the props |
| Documents.InvertDirection | src/main/java/com/couchbase/graph/CBVertex.java:305-311 | IN and OUT swap and BOTH stays, in both directions of each |
| Documents.InvertInvolutive | src/main/java/com/couchbase/graph/CBVertex.java:305-311 | invertDirection is its own inverse |
| Documents.AppendRef | src/main/java/com/couchbase/graph/CBVertex.java:351-375 | the label's list gains the key at its end (created if absent); every other label is unchanged |
| Documents.RemoveRef | src/main/java/com/couchbase/graph/CBVertex.java:397-415 | fails with a NullPointerException exactly when the label is missing; other labels are unchanged, only this one can disappear |
| Documents.RemoveRefContents | src/main/java/com/couchbase/graph/CBVertex.java:397-415 | the list loses exactly its first occurrence of the key (one copy fewer), and the label is dropped exactly when its list was empty or held only the key |
| Documents.AppendThenRemove | src/main/java/com/couchbase/graph/CBVertex.java:351-415 | appending then removing a key restores the lists when the label was absent or held a non-empty list without the key |
| Documents.AdjAddThenRemove | src/main/java/com/couchbase/graph/CBVertex.java:351-415 | `Documents.AdjRemove` after `Documents.AdjAdd` restores both directions of the adjacency lists in the same cases |
| Documents.AdjAddDirections | src/main/java/com/couchbase/graph/CBVertex.java:351-375 | `Documents.AdjAdd` touches exactly the lists of the chosen directions |
| Documents.AdjRemoveBothPartial | src/main/java/com/couchbase/graph/CBVertex.java:397-415 | for BOTH with the label missing only from the IN side, the OUT side is changed before the failure |
| Documents.DecompressEdges | src/main/java/com/couchbase/graph/CBVertex.java:467-510 | without compression an inline edges object is returned as it is; a non-vertex document is a NullPointerException |
| Documents.CompressEdges | src/main/java/com/couchbase/graph/CBVertex.java:433-456 | without compression the document is kept; only binary mode upserts a side document, at "al_" + id, holding the gzipped lists |
| Documents.CompressRoundTrip | src/main/java/com/couchbase/graph/CBVertex.java:433-510 | decompressEdges gives back what compressEdges wrote, in every mode, keeping the props, when the codec round-trips the lists |
| Documents.DecompressIgnoresOtherKeys | src/main/java/com/couchbase/graph/CBVertex.java:467-510 | decoding a document does not depend on store entries other than its own side document |
| Store.Fetch | src/main/java/com/couchbase/graph/CBElement.java:151-162 | get succeeds exactly for a stored JSON document and returns it; otherwise DocNotFound for that key |
| Store.ReplaceDoc | src/main/java/com/couchbase/graph/CBElement.java:242 | replace succeeds exactly when the key is stored, then writes only that key; on failure nothing changes |
| Store.RemoveDoc | src/main/java/com/couchbase/graph/CBElement.java:286-289 | remove succeeds exactly when the key is stored, then deletes only that key |
| Store.AddDoc | src/main/java/com/couchbase/graph/CBGraph.java:119 | add stores the document only when the key is free; an existing document is kept |
| Store.Increment | src/main/java/com/couchbase/graph/CBVertex.java:606-618 | the counter goes up by one and the new value is returned; a missing counter is an IdGenException |
| Store.ConsecutiveIds | src/main/java/com/couchbase/graph/CBVertex.java:606-618 | two generated ids are consecutive |
| Store.Bucket.Get | src/main/java/com/couchbase/graph/CBElement.java:153 | the get of the bucket object answers as Fetch on its documents |
| Store.Bucket.Replace | src/main/java/com/couchbase/graph/CBElement.java:242 | the documents become ReplaceDoc of the old ones; the counter is untouched |
| Store.Bucket.Remove | src/main/java/com/couchbase/graph/CBElement.java:288 | the documents become RemoveDoc of the old ones |
| Store.Bucket.Upsert | src/main/java/com/couchbase/graph/CBVertex.java:450 | the key holds the document afterwards, whatever was there |
| Store.Bucket.Add | src/main/java/com/couchbase/graph/CBGraph.java:119 | the documents become AddDoc of the old ones |
| Store.Bucket.Counter | src/main/java/com/couchbase/graph/CBVertex.java:610 | the counter and the answer are Increment of the old counter; documents untouched |
| Element.Refresh | src/main/java/com/couchbase/graph/CBElement.java:147-165 | fetches and answers true exactly when nothing is cached or refresh is on and the document exists; false exactly when cached with refresh off; a failure is DocNotFound for the key and keeps the cache |
| Element.GetProperty | src/main/java/com/couchbase/graph/CBElement.java:175-198 | null when the document is missing; a NullPointerException without props; otherwise non-null exactly for a present key |
| Element.GetPropertyKeys | src/main/java/com/couchbase/graph/CBElement.java:206-222 | empty when the document is missing, else exactly the keys of the cached props |
| Element.RemoveElement | src/main/java/com/couchbase/graph/CBElement.java:286-289 | deletes exactly the element's document and nothing else |
| Element.SetThenGet | src/main/java/com/couchbase/graph/CBElement.java:175-248 | after `Element.SetProperty` (setProperty(k, v)) the cache reads v for k and the same as before for every other key; the store then holds the cached document, which a refresh reads back |
| Element.RemoveThenGet | src/main/java/com/couchbase/graph/CBElement.java:175-279 | `Element.RemoveProperty` returns the stored value of k unconverted (a list as its JSON array), null exactly when k was absent; getProperty had read the same value converted; afterwards k is absent, the keys are the old ones minus k, and the store holds the cached document |
| VertexOps.VRefresh | src/main/java/com/couchbase/graph/CBVertex.java:521-543 | true exactly when it fetched a decodable document, and then the cache is that document and its decoded lists; lists change only then; with refresh off and a cache, nothing changes |
| VertexOps.Open | src/main/java/com/couchbase/graph/CBVertex.java:99-117 | a constructor succeeds exactly when the document exists and decodes, caching it; a missing key is DocNotFound |
| VertexOps.OpenById | src/main/java/com/couchbase/graph/CBVertex.java:99-104 | the handle's key is genVertexKey(id) and its id is id |
| VertexOps.OpenByKey | src/main/java/com/couchbase/graph/CBVertex.java:112-117 | the handle keeps the key, and its id is the String after "v_"; a key shorter than two characters fails |
| VertexOps.SetEdges | src/main/java/com/couchbase/graph/CBVertex.java:351-375 | the cached lists are the new ones; without compression they are also the cached document's, whose props are kept |
| VertexOps.Persist | src/main/java/com/couchbase/graph/CBVertex.java:376-381 | the write-back succeeds when the vertex is stored and then stores the cached document; only the vertex key and its side document are written |
| VertexOps.AddEdgeRef | src/main/java/com/couchbase/graph/CBVertex.java:345-384 | addEdgeToAdjacencyList writes at most the vertex document and its side document and deletes nothing |
| VertexOps.RemoveEdgeRef | src/main/java/com/couchbase/graph/CBVertex.java:392-423 | removeEdgeFromAdjacencyList writes at most the vertex document and its side document and deletes nothing |
| VertexOps.AddEdgeRefStored | src/main/java/com/couchbase/graph/CBVertex.java:345-384 | in every mode, the stored document afterwards decodes to the refreshed lists with the edge key appended |
| VertexOps.RemoveEdgeRefStored | src/main/java/com/couchbase/graph/CBVertex.java:392-423 | in every mode, the stored document afterwards decodes to the refreshed lists with the edge key removed |
| VertexOps.StoredLists | src/main/java/com/couchbase/graph/CBVertex.java:376-381 | writing back a coherent cache stores a document that decodes to its lists |
| VertexOps.RemoveEdgeRefInline | src/main/java/com/couchbase/graph/CBVertex.java:392-423 | without compression exactly the vertex document changes: same props, the lists with the key removed |
| VertexOps.AddEdgeRefInline | src/main/java/com/couchbase/graph/CBVertex.java:345-384 | without compression exactly the vertex document changes: same props, the key appended |
| EdgeOps.ERefresh | src/main/java/com/couchbase/graph/CBEdge.java:163-174 | a fetch sets from, to and label from the edge document; otherwise they are kept; with refresh off and a cache nothing changes |
| EdgeOps.OpenByKey | src/main/java/com/couchbase/graph/CBEdge.java:97-103 | the handle keeps the key, its id is the key without "e_", and it caches the stored edge document |
| EdgeOps.OpenByEnds | src/main/java/com/couchbase/graph/CBEdge.java:81-89 | key and id are generated from the end ids and the label |
| EdgeOps.GetVertex | src/main/java/com/couchbase/graph/CBEdge.java:106-133 | IN is the vertex at the to key, OUT at the from key; BOTH is an IllegalArgumentException; a missing edge gives null |
| EdgeOps.GetLabel | src/main/java/com/couchbase/graph/CBEdge.java:140-153 | the cached label after the refresh; a missing document leaves the old label |
| EdgeOps.FetchOne | src/main/java/com/couchbase/graph/CBVertex.java:192-206 | one key yields at most one edge, and that edge has the key |
| EdgeOps.HandleKeys | src/main/java/com/couchbase/graph/CBVertex.java:192-206 | the keys of the fetched edges, position by position |
| EdgeOps.FetchFromKeys | src/main/java/com/couchbase/graph/CBVertex.java:192-206 | the fetch succeeds iff every stored edge key parses; the edges are those of the stored keys, in key order (see Left out), freshly opened |
| EdgeOps.FetchEdgesKeys | src/main/java/com/couchbase/graph/CBVertex.java:187-207 | edgesFromJsonArr returns exactly the stored edges of the array, in key order (see Left out) |
| EdgeOps.OpenByKeyStored | src/main/java/com/couchbase/graph/CBEdge.java:97-103 | a stored edge opens iff its key parses, with from, to and label of its document |
| EdgeOps.RemoveFrame | src/main/java/com/couchbase/graph/CBEdge.java:182-200 | a successful `EdgeOps.Remove` deletes the edge; no other document disappears and only side documents can appear |
| EdgeOps.RemoveUnlinks | src/main/java/com/couchbase/graph/CBEdge.java:182-200 | with distinct ends, the key leaves the source's OUT list and the target's IN list, the edge document goes, nothing else changes |
| EdgeOps.SelfLoopRemoveStale | src/main/java/com/couchbase/graph/CBEdge.java:182-200 | removing a self-loop through a fresh handle with refresh off leaves its OUT entry behind |
| EdgeOps.SelfLoopRemoveFresh | src/main/java/com/couchbase/graph/CBEdge.java:182-200 | with refresh on both entries of a self-loop are removed |
| Traversal.Gather | src/main/java/com/couchbase/graph/CBVertex.java:155-166 | a label missing from the lists appends the result to itself |
| Traversal.GetEdges | src/main/java/com/couchbase/graph/CBVertex.java:141-177 | the cache afterwards is the refresh's; a missing document gives the empty list |
| Traversal.FetchFromAppend | src/main/java/com/couchbase/graph/CBVertex.java:155-166 | fetching two key lists one after the other fetches their concatenation |
| Traversal.FetchFromAcc | src/main/java/com/couchbase/graph/CBVertex.java:155-166 | a prefix of the accumulator is carried through the fetch |
| Traversal.GatherPresent | src/main/java/com/couchbase/graph/CBVertex.java:155-166 | for a present label the result gains that label's edges |
| Traversal.EdgesLoopFetches | src/main/java/com/couchbase/graph/CBVertex.java:141-177 | when every label is present, getEdges fetches the labels' IN then OUT lists, labels in order and each list in key order (see Left out) |
| Traversal.MissingLabelDoubles | src/main/java/com/couchbase/graph/CBVertex.java:155-166 | getEdges(OUT, l1, l2) with l2 missing returns l1's edges twice |
| Traversal.AllEdgesMissesALabel | src/main/java/com/couchbase/graph/CBVertex.java:210-245 | with two OUT labels with disjoint non-empty lists, getAllEdges misses all of one label's edges |
| Traversal.Neighbours | src/main/java/com/couchbase/graph/CBVertex.java:269-295 | OUT yields the edge's to vertex and IN its from vertex, one entry per edge; BOTH yields at most one (which one: BothGivesOtherEnd) |
| Traversal.BothGivesOtherEnd | src/main/java/com/couchbase/graph/CBVertex.java:269-295 | for BOTH over a stored edge whose ends open: this vertex once when both ends have its id, the from vertex when only the to end has it, the to vertex when only the from end has it, nothing when neither does |
| Traversal.BothMissingEndFails | src/main/java/com/couchbase/graph/CBVertex.java:269-295 | for BOTH a missing end is a NullPointerException |
| Traversal.SelfLoopIsSelf | src/main/java/com/couchbase/graph/CBVertex.java:269-295 | for BOTH a self-loop contributes this vertex |
| Traversal.LongIdFindsNothing | src/main/java/com/couchbase/graph/CBVertex.java:269-295 | for BOTH a vertex with a Long id never matches an endpoint, so nothing is returned |
| Traversal.CascadeFrame | src/main/java/com/couchbase/graph/CBVertex.java:562-574 | `Traversal.Cascade` removing the edges deletes each of them; documents outside them stay; only side documents can appear |
| Traversal.RemoveVertexFrame | src/main/java/com/couchbase/graph/CBVertex.java:562-574 | `Traversal.RemoveVertex` deletes exactly the edges getAllEdges returned, then the vertex document |
| GraphOps.AddVertex | src/main/java/com/couchbase/graph/CBGraph.java:95-129 | a given id leaves the counter alone and adds the empty vertex document at its key; no id increments the counter; a returned vertex is stored |
| GraphOps.GetVertex | src/main/java/com/couchbase/graph/CBGraph.java:139-153 | the vertex at genVertexKey(id) with that id; null when missing |
| GraphOps.GetEdge | src/main/java/com/couchbase/graph/CBGraph.java:292-311 | the edge at "e_" + id; null when that key parses and no document is stored there |
| GraphOps.AddEdge | src/main/java/com/couchbase/graph/CBGraph.java:245-284 | when both arguments are one handle, both see the same cache |
| GraphOps.AddVertexFresh | src/main/java/com/couchbase/graph/CBGraph.java:95-129 | a new id stores exactly the vertex document with empty props and empty in and out lists, and returns it |
| GraphOps.AddVertexExisting | src/main/java/com/couchbase/graph/CBGraph.java:95-129 | an existing vertex is kept as it is and opened |
| GraphOps.AddVertexCompressedFails | src/main/java/com/couchbase/graph/CBGraph.java:95-129 | with compression on a new vertex ends in a ClassCastException |
| GraphOps.AddVertexGeneratedId | src/main/java/com/couchbase/graph/CBGraph.java:101-103 | without an id the vertex takes the next counter value; a missing counter gives null and writes nothing |
| GraphOps.GetEdgeOfGeneratedId | src/main/java/com/couchbase/graph/CBGraph.java:292-311 | getEdge of a generated edge id opens the edge at the generated key |
| GraphOps.AddEdgeLinks | src/main/java/com/couchbase/graph/CBGraph.java:245-284 | `GraphOps.AddEdge` (through `GraphOps.Link`) between two distinct stored vertices: the edge document is stored, its key ends v1's OUT list and v2's IN list, nothing else changes, and the edge is returned |
| GraphOps.AddSelfLoopOneHandle | src/main/java/com/couchbase/graph/CBGraph.java:245-284 | a self-loop through one handle lands in both lists of the vertex |
| GraphOps.AddSelfLoopTwoHandles | src/main/java/com/couchbase/graph/CBGraph.java:245-284 | through two stale handles on one vertex the OUT entry is lost |
| Scans.Hits | src/main/java/com/couchbase/graph/CBGraph.java:219-227 | the positions of a list whose element a filter step keeps: strictly increasing, within the list, and all of them |
| Scans.ScanExact | src/main/java/com/couchbase/graph/CBGraph.java:172-230 | a keep/skip/fail loop fails exactly when some step fails, with the first failure; otherwise it appends, in order and once each, what the steps at the kept positions yield |
| GraphOps.VerticesWithSpec | src/main/java/com/couchbase/graph/CBGraph.java:208-230 | `GraphOps.VerticesWith` fails exactly when some read fails, with the first failing read; otherwise it lists, in the listing's order and once each, exactly the vertices whose getProperty(k) equals the value, with the cache their read left, each still reading the value |
| GraphOps.EdgesWithSpec | src/main/java/com/couchbase/graph/CBGraph.java:360-379 | the same for `GraphOps.EdgesWith`: the first failing read escapes, otherwise exactly the matching edges in order, once each |
| GraphOps.ReadAgain | src/main/java/com/couchbase/graph/CBGraph.java:219-224 | reading a property again from the cache the first read left gives the same answer |
| GraphOps.EdgesWithoutPropsFail | src/main/java/com/couchbase/graph/CBGraph.java:360-379 | filtering edges made by addEdge is a NullPointerException |
| GraphOps.AllVerticesKeys | src/main/java/com/couchbase/graph/CBGraph.java:172-199 | every vertex `GraphOps.AllVertices` lists comes from a row whose document exists and caches that document; a row whose document is missing yields none |
| GraphOps.AllVerticesSpec | src/main/java/com/couchbase/graph/CBGraph.java:172-199 | `GraphOps.AllVertices` fails exactly when some row fails to open other than for a missing document, with the first such failure; otherwise it lists, in the rows' order and once each, the vertex of every row that opens, skipping exactly the missing ones |
| GraphOps.AllEdgesSpec | src/main/java/com/couchbase/graph/CBGraph.java:330-350 | the same for `GraphOps.AllEdges` over the edge rows |
| Handles.Vertex.FromHandle | src/main/java/com/couchbase/graph/CBVertex.java:99-117 | the object holds the given key, id and cache |
| Handles.Vertex.OpenById | src/main/java/com/couchbase/graph/CBVertex.java:99-104 | a fresh object holding exactly VertexOps.OpenById, or its failure |
| Handles.Vertex.OpenByKey | src/main/java/com/couchbase/graph/CBVertex.java:112-117 | a fresh object holding exactly VertexOps.OpenByKey, or its failure |
| Handles.Vertex.Refresh | src/main/java/com/couchbase/graph/CBVertex.java:521-543 | answer and fields are VRefresh of the old fields |
| Handles.Vertex.Persist | src/main/java/com/couchbase/graph/CBVertex.java:376-381 | fields and bucket are Persist of the old ones; the counter is untouched |
| Handles.Vertex.SetEdges | src/main/java/com/couchbase/graph/CBVertex.java:351-375 | the fields are SetEdges of the old ones |
| Handles.Vertex.AddEdgeToAdjacencyList | src/main/java/com/couchbase/graph/CBVertex.java:345-384 | fields and bucket are AddEdgeRef of the old ones |
| Handles.Vertex.RemoveEdgeFromAdjacencyList | src/main/java/com/couchbase/graph/CBVertex.java:392-423 | fields and bucket are RemoveEdgeRef of the old ones |
| Handles.Vertex.GetProperty | src/main/java/com/couchbase/graph/CBElement.java:175-198 | answer and fields are VertexOps.GetProperty of the old fields |
| Handles.Vertex.GetPropertyKeys | src/main/java/com/couchbase/graph/CBElement.java:206-222 | answer and fields are VertexOps.GetPropertyKeys of the old fields |
| Handles.Vertex.SetProperty | src/main/java/com/couchbase/graph/CBElement.java:231-248 | fields and bucket are VertexOps.SetProperty of the old ones |
| Handles.Vertex.RemoveProperty | src/main/java/com/couchbase/graph/CBElement.java:258-279 | answer (the stored JSON value, not converted), fields and bucket are VertexOps.RemoveProperty of the old ones |
| Handles.Vertex.FetchEdges | src/main/java/com/couchbase/graph/CBVertex.java:187-207 | the loop returns FetchEdges of the keys |
| Handles.Vertex.Gather | src/main/java/com/couchbase/graph/CBVertex.java:155-166 | one label's step returns Traversal.Gather |
| Handles.Vertex.GetEdges | src/main/java/com/couchbase/graph/CBVertex.java:141-177 | answer and fields are Traversal.GetEdges of the old fields |
| Handles.Vertex.GetAllEdges | src/main/java/com/couchbase/graph/CBVertex.java:210-245 | after the refresh: every list fetched without failure and the result is some OUT label's edges (else some IN label's, else empty), or the failure of some label's fetch |
| Handles.Vertex.GetVertices | src/main/java/com/couchbase/graph/CBVertex.java:255-303 | answer and fields are `Traversal.GetVertices` of the old fields: the refresh, getEdges, then the neighbours of each edge in order (Traversal.Neighbours) |
| Handles.Vertex.Neighbours | src/main/java/com/couchbase/graph/CBVertex.java:267-297 | the loop over the edges collects, edge by edge and in order, the vertices Traversal.Neighbours gives, and stops at the first failure |
| Handles.Vertex.Remove | src/main/java/com/couchbase/graph/CBVertex.java:562-574 | the edges removed are exactly what getAllEdges returned, then the vertex document goes: the bucket is Traversal.RemoveVertex of the old one |
| Handles.Edge.FromHandle | src/main/java/com/couchbase/graph/CBEdge.java:97-103 | the object holds the given key, id and cache |
| Handles.Edge.OpenByKey | src/main/java/com/couchbase/graph/CBEdge.java:97-103 | a fresh object holding exactly EdgeOps.OpenByKey, or its failure |
| Handles.Edge.OpenByEnds | src/main/java/com/couchbase/graph/CBEdge.java:81-89 | a fresh object holding exactly EdgeOps.OpenByEnds, or its failure |
| Handles.Edge.OpenUnlabeled | src/main/java/com/couchbase/graph/CBEdge.java:68-71 | the edge between two ids with the empty label |
| Handles.Edge.Refresh | src/main/java/com/couchbase/graph/CBEdge.java:163-174 | answer and fields are ERefresh of the old fields |
| Handles.Edge.GetVertex | src/main/java/com/couchbase/graph/CBEdge.java:106-133 | a fresh vertex object holding EdgeOps.GetVertex's handle, null or the same failure |
| Handles.Edge.GetLabel | src/main/java/com/couchbase/graph/CBEdge.java:140-153 | answer and fields are EdgeOps.GetLabel of the old fields |
| Handles.Edge.GetProperty | src/main/java/com/couchbase/graph/CBElement.java:175-198 | answer and fields are EdgeOps.GetProperty of the old fields |
| Handles.Edge.GetPropertyKeys | src/main/java/com/couchbase/graph/CBElement.java:206-222 | answer and fields are EdgeOps.GetPropertyKeys of the old fields |
| Handles.Edge.SetProperty | src/main/java/com/couchbase/graph/CBElement.java:231-248 | fields and bucket are EdgeOps.SetProperty of the old ones |
| Handles.Edge.RemoveProperty | src/main/java/com/couchbase/graph/CBElement.java:258-279 | answer (the stored JSON value, not converted), fields and bucket are EdgeOps.RemoveProperty of the old ones |
| Handles.Edge.Remove | src/main/java/com/couchbase/graph/CBEdge.java:182-200 | fields and bucket are EdgeOps.Remove of the old ones |
| GraphStore.Graph.constructor | src/main/java/com/couchbase/graph/CBGraph.java:63-73 | the graph holds the configuration and the bucket |
| GraphStore.Graph.AddVertex | src/main/java/com/couchbase/graph/CBGraph.java:95-129 | bucket, counter and answer are GraphOps.AddVertex of the old bucket |
| GraphStore.Graph.GetVertex | src/main/java/com/couchbase/graph/CBGraph.java:139-153 | a fresh object holding GraphOps.GetVertex's handle, or null, or its failure |
| GraphStore.Graph.GetEdge | src/main/java/com/couchbase/graph/CBGraph.java:292-311 | a fresh object holding GraphOps.GetEdge's handle, or null, or its failure |
| GraphStore.Graph.AddEdge | src/main/java/com/couchbase/graph/CBGraph.java:245-284 | both vertex objects (possibly one object) and the bucket end as GraphOps.AddEdge of their old states |
| GraphStore.Graph.RemoveVertex | src/main/java/com/couchbase/graph/CBGraph.java:161-164 | the vertex refreshes; the edges it found are empty when its document is missing, the refresh's failure or a NullPointerException without lists, otherwise a getAllEdges outcome (AllEdgesOutcome); the bucket is Traversal.RemoveVertex of the old one over them |
| GraphStore.Graph.RemoveEdge | src/main/java/com/couchbase/graph/CBGraph.java:319-322 | edge and bucket are EdgeOps.Remove of the old ones |
| GraphStore.Graph.GetVertices | src/main/java/com/couchbase/graph/CBGraph.java:172-199 | distinct fresh objects holding exactly GraphOps.AllVertices' handles, or its failure |
| GraphStore.Graph.GetEdges | src/main/java/com/couchbase/graph/CBGraph.java:330-350 | distinct fresh objects holding exactly GraphOps.AllEdges' handles, or its failure |
| GraphStore.Graph.GetVerticesWith | src/main/java/com/couchbase/graph/CBGraph.java:208-230 | objects holding exactly GraphOps.VerticesWith over the listing (the matching vertices in order, by VerticesWithSpec), or the first failure |
| GraphStore.Graph.KeepVertices | src/main/java/com/couchbase/graph/CBGraph.java:219-227 | the filter loop returns GraphOps.VerticesWith |
| GraphStore.Graph.GetEdgesWith | src/main/java/com/couchbase/graph/CBGraph.java:360-379 | objects holding exactly GraphOps.EdgesWith over the listing (the matching edges in order, by EdgesWithSpec), or the first failure |
| GraphStore.Graph.KeepEdges | src/main/java/com/couchbase/graph/CBGraph.java:367-375 | the filter loop returns GraphOps.EdgesWith |

## Left out

- GraphOps.AddVertex, GraphOps.AddEdge: `addVertex` and `addEdge` write the new document with the older client's `add`, whose future is never awaited, and then read it back through the other client. The model treats the add as complete before those reads and before the adjacency updates, so a read racing the write is not modelled.
- Connection set-up, configuration files, views and their JavaScript: the configuration (`refreshEnabled`, compression mode) and the rows of the all-vertices, all-edges and edge-label views are parameters (`rows`, `allLabels`).
- ZipHelper, JSON rendering and base64: the codec is a record of functions, and its round trip is a precondition (`RoundTrips`). The gzip helper also drops line breaks, which this precondition hides.
- A `CompressionException` from compressing is never raised: the codec's encoders are total.
- The RxJava multi-get in `edgesFromJsonArr` is a sequential loop. Its asynchronous gets deliver the edges in completion order, so the key order of the fetched edges (in `EdgeOps.FetchFromKeys`, `EdgeOps.FetchEdgesKeys` and `Traversal.EdgesLoopFetches`) is the model's choice, not a guarantee of the source. `CBEdge.fromJson` and `CollectionHelper.copyIterator` are not part of this model. A key whose document is missing or not an edge is skipped; any other key is opened by key.
- The static key generators without arguments and the static `innerIdCounter` are not modelled; only `genVertexId`'s counter increment is.
- The counter is an unbounded integer; the 64-bit wrap-around of `long` is not modelled.
- Null property values and null labels are not modelled. A vertex document always has an `edges` field with `in` and `out`.
- The binary side document is never deleted, not even by `remove()`; the frame lemmas allow it to appear.
- Getting a binary document as JSON counts as not found. A missing side document is a NullPointerException, and a side document that is not binary is a ClassCastException.
- GraphOps.Matches: Integer, Long, Float and Double property values are one case `Long` of unbounded integers, and floating point is not modelled. Java's `equals` tells an Integer 8 from a Long 8, so `getVertices(k, 8L)` misses a stored Integer 8; `Matches` does not, and `ValueRoundTrip` and `SetThenGet` speak of integers only.
- GraphOps.GetVertex, GraphOps.GetEdge: ids are never null (`JavaId` has no null case), so the NullPointerException of `getVertex(null)` and `getEdge(null)` from `id.toString()` is not modelled. A null id to `addVertex` is modelled, as `None`.
- The Java objects that traversals and listings return are handle values (`VHandle`, `EHandle`, `VRef`), not new `Vertex`/`Edge` objects. `Graph.GetVertices`/`GetEdges` and the filters do return objects.
- `query()`, `shutdown()`, `getFeatures()`, `toString()`, logging and timing are left out. `getId`/`getCbKey` are the immutable fields `id`/`key` of the classes.
- `JSONHelper.sort` is `sortMap` over `toMap()`; `SortMap` models both.
- EdgeOps.RemoveUnlinks: stated without compression and with refresh on; the other modes are covered by `VertexOps.RemoveEdgeRefStored` step by step.
- GraphOps.AddEdgeLinks: stated without compression and with refresh on; the other modes are covered by `VertexOps.AddEdgeRefStored`.
- Traversal.AllEdgesMissesALabel: stated for two OUT labels; the general outcome is `Traversal.AllEdgesOutcome`.
- GraphOps.AddEdge: its own contract states only the shared cache; what it stores is stated by `AddEdgeLinks` and the self-loop lemmas.
- VertexOps.AddEdgeRef: its own contract states only the frame; the lists it stores are stated by `AddEdgeRefStored` and `AddEdgeRefInline`.
- VertexOps.RemoveEdgeRef: its own contract states only the frame; the lists it stores are stated by `RemoveEdgeRefStored` and `RemoveEdgeRefInline`.
