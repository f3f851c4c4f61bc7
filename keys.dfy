// The key codec: how vertex, edge and adjacency-list keys are generated from
// ids and parsed back (CBVertex.genVertexKey/parseVertexKey/genAdjacencyListKey,
// CBEdge.genEdgeId/genEdgeKey/parseEdgeKey).

module Keys {
  import opened Wrappers
  import opened JavaString
  import opened CBModel

  /**
   * A vertex id as the graph layer receives it: a String chosen by the caller
   * or a Long drawn from the vertex counter. Java's `equals` never holds
   * between a String and a Long, and neither does equality here.
   */
  datatype JavaId = StrId(s: string) | LongId(n: int)

  /** Object.toString of an id. */
  function IdString(id: JavaId): string
  {
    match id
    case StrId(s) => s
    case LongId(n) => LongToString(n)
  }

  /** The placeholders of the key templates. */
  predicate Placeholder(pat: string)
  {
    pat == "{1}" || pat == "{2}" || pat == "{3}"
  }

  /** A string in which the edge-key delimiters do not occur. */
  predicate Plain(s: string)
  {
    !Contains(s, EDGE_DELIM) && !Contains(s, EDGE_LABEL_DELIM)
  }

  /** A string that the later template substitutions leave alone. */
  predicate NoPlaceholder(s: string)
  {
    !Contains(s, "{2}") && !Contains(s, "{3}")
  }

  function GenVertexKey(id: JavaId): string
  {
    ReplaceAll(VERTEX_KEY, "{1}", IdString(id))
  }

  function GenAdjacencyListKey(id: JavaId): string
  {
    ReplaceAll(AL_KEY, "{1}", IdString(id))
  }

  /** The id of a vertex key: everything after the prefix, always as a String. */
  function ParseVertexKey(key: string): (r: Result<JavaId>)
    ensures r.Err? <==> |key| < |VERTEX_PREFIX|
    ensures r.Err? ==> r.failure == IndexOutOfBounds
    ensures r.Ok? ==> r.value == StrId(key[|VERTEX_PREFIX|..])
  {
    match Substring(key, |VERTEX_PREFIX|, |key|)
    case None => Err(IndexOutOfBounds)
    case Some(s) =>
      assert s == key[|VERTEX_PREFIX|..];
      Ok(StrId(s))
  }

  function GenEdgeId(vId1: JavaId, lbl: string, vId2: JavaId): string
  {
    ReplaceAll(ReplaceAll(ReplaceAll(EDGE_ID, "{1}", IdString(vId1)), "{3}", IdString(vId2)), "{2}", lbl)
  }

  function GenEdgeKey(vId1: JavaId, lbl: string, vId2: JavaId): string
  {
    ReplaceAll(ReplaceAll(ReplaceAll(EDGE_KEY, "{1}", IdString(vId1)), "{3}", IdString(vId2)), "{2}", lbl)
  }

  /** The five slots of a parsed edge key; None is a slot left null. */
  datatype EdgeKeyParts = EdgeKeyParts(
    id: string, prefix: string, from: Option<string>, lbl: Option<string>, to: Option<string>)

  /**
   * The edge key parser. The id is everything after the prefix; only when the
   * key contains both "->|" and "|->" are from (up to the first "->"), to
   * (after the last "->") and lbl (between the first and the last "|") cut
   * out, and each cut can throw.
   */
  function ParseEdgeKey(eKey: string): Result<EdgeKeyParts>
  {
    match Substring(eKey, |EDGE_PREFIX|, |eKey|)
    case None => Err(IndexOutOfBounds)
    case Some(id) =>
      if Contains(eKey, EDGE_DELIM + "|") && Contains(eKey, "|" + EDGE_DELIM) then CutEdgeId(id)
      else Ok(EdgeKeyParts(id, EDGE_PREFIX, None, None, None))
  }

  /** The cuts of a delimited edge id into from, label and to. */
  function CutEdgeId(id: string): Result<EdgeKeyParts>
  {
    CutBetween(id, IndexOf(id, EDGE_DELIM), LastIndexOf(id, EDGE_DELIM) + |EDGE_DELIM|, IndexOf(id, "|"), LastIndexOf(id, "|"))
  }

  /** The three substrings parseEdgeKey takes once it has found the delimiters. */
  function CutBetween(id: string, fromEnd: int, toStart: int, labelStart: int, labelEnd: int): Result<EdgeKeyParts>
  {
    match (Substring(id, 0, fromEnd), Substring(id, toStart, |id|), Substring(id, labelStart + 1, labelEnd))
    case (Some(from), Some(to), Some(lbl)) =>
      Ok(EdgeKeyParts(id, EDGE_PREFIX, Some(from), Some(lbl), Some(to)))
    case _ => Err(IndexOutOfBounds)
  }

  // ---------------------------------------------------------------------
  // The template substitutions

  /** The edge id layout: from, "->|", lbl, "|->", to. */
  function EdgeLayout(from: string, lbl: string, to: string): string
  {
    from + "->|" + lbl + "|->" + to
  }

  lemma EdgeIdIsLayout()
    ensures EDGE_ID == EdgeLayout("{1}", "{2}", "{3}")
    ensures EDGE_KEY == EDGE_PREFIX + EDGE_ID
  {
  }

  /** A placeholder substitution passes through the fixed parts of the edge layout. */
  lemma ReplaceInLayout(x1: string, x2: string, x3: string, pat: string, rep: string)
    requires Placeholder(pat)
    ensures ReplaceAll(EdgeLayout(x1, x2, x3), pat, rep)
         == EdgeLayout(ReplaceAll(x1, pat, rep), ReplaceAll(x2, pat, rep), ReplaceAll(x3, pat, rep))
  {
    var a := x1 + "->|";
    var b := a + x2;
    var c := b + "|->";
    assert EdgeLayout(x1, x2, x3) == c + x3;
    ReplaceJoin(c, x3, pat, rep);
    ReplaceJoin(b, "|->", pat, rep);
    ReplaceShort("|->", pat, rep);
    ReplaceJoin(a, x2, pat, rep);
    ReplaceJoin(x1, "->|", pat, rep);
    ReplaceShort("->|", pat, rep);
  }

  /** A placeholder substitution passes through a key prefix. */
  lemma ReplaceAfterPrefix(prefix: string, x: string, pat: string, rep: string)
    requires Placeholder(pat) && (prefix == VERTEX_PREFIX || prefix == EDGE_PREFIX || prefix == "al_")
    ensures ReplaceAll(prefix + x, pat, rep) == prefix + ReplaceAll(x, pat, rep)
  {
    ReplaceJoin(prefix, x, pat, rep);
    ReplaceShort(prefix, pat, rep);
  }

  /** A vertex key is the vertex prefix followed by the id's string form. */
  lemma VertexKeyShape(id: JavaId)
    ensures GenVertexKey(id) == VERTEX_PREFIX + IdString(id)
  {
    ReplaceAfterPrefix(VERTEX_PREFIX, "{1}", "{1}", IdString(id));
    ReplaceWhole("{1}", IdString(id));
  }

  /** An adjacency-list key is "al_" followed by the id's string form. */
  lemma AdjacencyListKeyShape(id: JavaId)
    ensures GenAdjacencyListKey(id) == "al_" + IdString(id)
  {
    assert AL_KEY == "al_" + "{1}";
    ReplaceAfterPrefix("al_", "{1}", "{1}", IdString(id));
    ReplaceWhole("{1}", IdString(id));
  }

  /**
   * Parsing a generated vertex key gives back the id's string form, as a
   * String id: a Long id does not survive the round trip as a Long.
   */
  lemma VertexKeyRoundTrip(id: JavaId)
    ensures ParseVertexKey(GenVertexKey(id)) == Ok(StrId(IdString(id)))
    ensures id.LongId? ==> ParseVertexKey(GenVertexKey(id)) != Ok(id)
  {
    VertexKeyShape(id);
    var key := VERTEX_PREFIX + IdString(id);
    assert key[|VERTEX_PREFIX|..] == IdString(id);
    assert Substring(key, |VERTEX_PREFIX|, |key|).value == key[|VERTEX_PREFIX|..];
  }

  /** Every key that starts with the vertex prefix is the key of its parsed id. */
  lemma VertexKeyParseGen(key: string)
    requires |key| >= |VERTEX_PREFIX| && key[..|VERTEX_PREFIX|] == VERTEX_PREFIX
    ensures ParseVertexKey(key).Ok? && GenVertexKey(ParseVertexKey(key).value) == key
  {
    var id := ParseVertexKey(key).value;
    VertexKeyShape(id);
    assert key == key[..|VERTEX_PREFIX|] + key[|VERTEX_PREFIX|..];
  }

  /**
   * The edge id is the layout filled in order {1}, {3}, {2}: a "{3}" or "{2}"
   * inside the from id and a "{2}" inside the to id are rewritten too.
   */
  lemma EdgeIdShape(vId1: JavaId, lbl: string, vId2: JavaId)
    ensures GenEdgeId(vId1, lbl, vId2)
         == EdgeLayout(ReplaceAll(ReplaceAll(IdString(vId1), "{3}", IdString(vId2)), "{2}", lbl),
                       lbl,
                       ReplaceAll(IdString(vId2), "{2}", lbl))
  {
    var f, t := IdString(vId1), IdString(vId2);
    EdgeIdIsLayout();
    ReplaceInLayout("{1}", "{2}", "{3}", "{1}", f);
    ReplaceWhole("{1}", f);
    ReplaceShort("{2}", "{1}", f);
    ReplaceShort("{3}", "{1}", f);
    ReplaceInLayout(f, "{2}", "{3}", "{3}", t);
    ReplaceShort("{2}", "{3}", t);
    ReplaceWhole("{3}", t);
    ReplaceInLayout(ReplaceAll(f, "{3}", t), "{2}", t, "{2}", lbl);
    ReplaceWhole("{2}", lbl);
  }

  /** An edge key is the edge prefix followed by the edge id. */
  lemma EdgeKeyIsPrefixedId(vId1: JavaId, lbl: string, vId2: JavaId)
    ensures GenEdgeKey(vId1, lbl, vId2) == EDGE_PREFIX + GenEdgeId(vId1, lbl, vId2)
  {
    var f, t := IdString(vId1), IdString(vId2);
    EdgeIdIsLayout();
    ReplaceAfterPrefix(EDGE_PREFIX, EDGE_ID, "{1}", f);
    var s1 := ReplaceAll(EDGE_ID, "{1}", f);
    ReplaceAfterPrefix(EDGE_PREFIX, s1, "{3}", t);
    var s2 := ReplaceAll(s1, "{3}", t);
    ReplaceAfterPrefix(EDGE_PREFIX, s2, "{2}", lbl);
  }

  /** The vertex and edge prefixes differ in their first character: no vertex key is an edge key. */
  lemma VertexKeyIsNoEdgeKey(id: JavaId, vId1: JavaId, lbl: string, vId2: JavaId)
    ensures GenVertexKey(id) != GenEdgeKey(vId1, lbl, vId2)
  {
    VertexKeyShape(id);
    EdgeKeyIsPrefixedId(vId1, lbl, vId2);
    assert GenVertexKey(id)[0] == 'v' && GenEdgeKey(vId1, lbl, vId2)[0] == 'e';
  }

  /** With no placeholder inside the ids, the edge id is the plain layout. */
  lemma PlainEdgeId(vId1: JavaId, lbl: string, vId2: JavaId)
    requires NoPlaceholder(IdString(vId1)) && NoPlaceholder(IdString(vId2))
    ensures GenEdgeId(vId1, lbl, vId2) == EdgeLayout(IdString(vId1), lbl, IdString(vId2))
  {
    var f, t := IdString(vId1), IdString(vId2);
    EdgeIdShape(vId1, lbl, vId2);
    ReplaceAbsent(f, "{3}", t);
    ReplaceAbsent(f, "{2}", lbl);
    ReplaceAbsent(t, "{2}", lbl);
  }

  /** A pattern one of whose characters is missing from `s` does not occur in it. */
  lemma AbsentChar(s: string, p: string, k: int)
    requires 0 <= k < |p| && p[k] !in s
    ensures !Contains(s, p)
  {
    forall i | 0 <= i <= |s|
      ensures !OccursAt(s, p, i)
    {
      if i + |p| <= |s| {
        assert s[i..i + |p|][k] == s[i + k];
      }
    }
  }

  /** The decimal form of a Long holds no delimiter and no placeholder. */
  lemma LongIdIsPlain(n: int)
    ensures Plain(IdString(LongId(n))) && NoPlaceholder(IdString(LongId(n)))
  {
    var s := IdString(LongId(n));
    AbsentChar(s, EDGE_DELIM, 1);
    AbsentChar(s, EDGE_LABEL_DELIM, 0);
    AbsentChar(s, "{2}", 0);
    AbsentChar(s, "{3}", 0);
  }

  // ---------------------------------------------------------------------
  // Parsing edge keys

  lemma ArrowAt(s: string, i: int)
    ensures OccursAt(s, EDGE_DELIM, i) <==> 0 <= i && i + 2 <= |s| && s[i] == '-' && s[i + 1] == '>'
  {
    if 0 <= i && i + 2 <= |s| && s[i] == '-' && s[i + 1] == '>' {
      assert s[i..i + 2] == EDGE_DELIM;
    }
  }

  lemma BarAt(s: string, i: int)
    ensures OccursAt(s, EDGE_LABEL_DELIM, i) <==> 0 <= i < |s| && s[i] == '|'
  {
    if 0 <= i < |s| && s[i] == '|' {
      assert s[i..i + 1] == EDGE_LABEL_DELIM;
    }
  }

  lemma FirstOccurrence(s: string, p: string, k: int)
    requires OccursAt(s, p, k) && forall i :: 0 <= i < k ==> !OccursAt(s, p, i)
    ensures IndexOf(s, p) == k
  {
  }

  lemma LastOccurrence(s: string, p: string, k: int)
    requires OccursAt(s, p, k) && forall i :: k < i ==> !OccursAt(s, p, i)
    ensures LastIndexOf(s, p) == k
  {
  }

  /** Where the fixed characters of the layout sit. */
  lemma LayoutChars(from: string, lbl: string, to: string)
    ensures var id, f, q := EdgeLayout(from, lbl, to), |from|, |from| + 3 + |lbl|;
      |id| == q + 3 + |to|
      && id[f] == '-' && id[f + 1] == '>' && id[f + 2] == '|'
      && id[q] == '|' && id[q + 1] == '-' && id[q + 2] == '>'
      && (forall i :: 0 <= i < f ==> id[i] == from[i])
      && (forall i :: 0 <= i < |to| ==> id[q + 3 + i] == to[i])
      && id[..f] == from && id[f + 3..q] == lbl && id[q + 3..] == to
  {
  }

  /** The three variable parts of the layout, cut out again. */
  lemma LayoutSlices(from: string, lbl: string, to: string)
    ensures var id, f, q := EdgeLayout(from, lbl, to), |from|, |from| + 3 + |lbl|;
      |id| == q + 3 + |to| && id[..f] == from && id[f + 3..q] == lbl && id[q + 3..] == to
  {
  }

  /** The first "->" of an edge id ends a plain from part. */
  lemma FromEnd(from: string, lbl: string, to: string)
    requires Plain(from)
    ensures IndexOf(EdgeLayout(from, lbl, to), EDGE_DELIM) == |from|
  {
    var id, f := EdgeLayout(from, lbl, to), |from|;
    LayoutChars(from, lbl, to);
    ArrowAt(id, f);
    forall i | 0 <= i < f
      ensures !OccursAt(id, EDGE_DELIM, i)
    {
      ArrowAt(id, i);
      if i + 1 < f {
        ArrowAt(from, i);
      }
    }
    FirstOccurrence(id, EDGE_DELIM, f);
  }

  /** The last "->" of an edge id sits just before a plain to part. */
  lemma ToStart(from: string, lbl: string, to: string)
    requires Plain(to)
    ensures LastIndexOf(EdgeLayout(from, lbl, to), EDGE_DELIM) == |from| + 3 + |lbl| + 1
  {
    var id, q := EdgeLayout(from, lbl, to), |from| + 3 + |lbl|;
    LayoutChars(from, lbl, to);
    ArrowAt(id, q + 1);
    forall i | q + 1 < i
      ensures !OccursAt(id, EDGE_DELIM, i)
    {
      ArrowAt(id, i);
      if q + 3 <= i {
        ArrowAt(to, i - q - 3);
      }
    }
    LastOccurrence(id, EDGE_DELIM, q + 1);
  }

  /** The first "|" of an edge id opens the label when the from part is plain. */
  lemma LabelStart(from: string, lbl: string, to: string)
    requires Plain(from)
    ensures IndexOf(EdgeLayout(from, lbl, to), EDGE_LABEL_DELIM) == |from| + 2
  {
    var id, f := EdgeLayout(from, lbl, to), |from|;
    LayoutChars(from, lbl, to);
    BarAt(id, f + 2);
    forall i | 0 <= i < f + 2
      ensures !OccursAt(id, EDGE_LABEL_DELIM, i)
    {
      BarAt(id, i);
      if i < f {
        BarAt(from, i);
      }
    }
    FirstOccurrence(id, EDGE_LABEL_DELIM, f + 2);
  }

  /** The last "|" of an edge id closes the label when the to part is plain. */
  lemma LabelEnd(from: string, lbl: string, to: string)
    requires Plain(to)
    ensures LastIndexOf(EdgeLayout(from, lbl, to), EDGE_LABEL_DELIM) == |from| + 3 + |lbl|
  {
    var id, q := EdgeLayout(from, lbl, to), |from| + 3 + |lbl|;
    LayoutChars(from, lbl, to);
    BarAt(id, q);
    forall i | q < i
      ensures !OccursAt(id, EDGE_LABEL_DELIM, i)
    {
      BarAt(id, i);
      if q + 3 <= i {
        BarAt(to, i - q - 3);
      }
    }
    LastOccurrence(id, EDGE_LABEL_DELIM, q);
  }

  /** Every edge key holds both "->|" and "|->". */
  lemma KeyHasDelimiters(from: string, lbl: string, to: string)
    ensures var key := EDGE_PREFIX + EdgeLayout(from, lbl, to);
      Contains(key, EDGE_DELIM + "|") && Contains(key, "|" + EDGE_DELIM)
  {
    var key, f, q := EDGE_PREFIX + EdgeLayout(from, lbl, to), |from|, |from| + 3 + |lbl|;
    LayoutChars(from, lbl, to);
    assert key[f + 2..f + 5] == EDGE_DELIM + "|";
    assert OccursAt(key, EDGE_DELIM + "|", f + 2);
    assert key[q + 2..q + 5] == "|" + EDGE_DELIM;
    assert OccursAt(key, "|" + EDGE_DELIM, q + 2);
  }

  /**
   * An edge key whose from and to parts hold no delimiter parses back into
   * exactly those parts; the label may hold anything.
   */
  lemma EdgeKeyRoundTrip(from: string, lbl: string, to: string)
    requires Plain(from) && Plain(to)
    ensures ParseEdgeKey(EDGE_PREFIX + EdgeLayout(from, lbl, to))
         == Ok(EdgeKeyParts(EdgeLayout(from, lbl, to), EDGE_PREFIX, Some(from), Some(lbl), Some(to)))
  {
    var id := EdgeLayout(from, lbl, to);
    var key := EDGE_PREFIX + id;
    assert key[|EDGE_PREFIX|..] == id;
    assert Substring(key, |EDGE_PREFIX|, |key|).value == key[|EDGE_PREFIX|..];
    KeyHasDelimiters(from, lbl, to);
    CutLayout(from, lbl, to);
  }

  /** The cuts of an edge id with plain from and to parts find exactly those parts. */
  lemma CutLayout(from: string, lbl: string, to: string)
    requires Plain(from) && Plain(to)
    ensures CutEdgeId(EdgeLayout(from, lbl, to))
         == Ok(EdgeKeyParts(EdgeLayout(from, lbl, to), EDGE_PREFIX, Some(from), Some(lbl), Some(to)))
  {
    var id, f, q := EdgeLayout(from, lbl, to), |from|, |from| + 3 + |lbl|;
    assert |id| == q + 3 + |to| && id[..f] == from && id[f + 3..q] == lbl && id[q + 3..] == to by {
      LayoutSlices(from, lbl, to);
    }
    assert IndexOf(id, EDGE_DELIM) == f by { FromEnd(from, lbl, to); }
    assert LastIndexOf(id, EDGE_DELIM) == q + 1 by { ToStart(from, lbl, to); }
    assert IndexOf(id, EDGE_LABEL_DELIM) == f + 2 by { LabelStart(from, lbl, to); }
    assert LastIndexOf(id, EDGE_LABEL_DELIM) == q by { LabelEnd(from, lbl, to); }
    CutAt(id, f, q);
  }

  /** The cuts of an id whose delimiters were found at `f` and `q`. */
  lemma CutAt(id: string, f: int, q: int)
    requires 0 <= f && f + 3 <= q && q + 3 <= |id|
    requires IndexOf(id, EDGE_DELIM) == f && LastIndexOf(id, EDGE_DELIM) == q + 1
    requires IndexOf(id, EDGE_LABEL_DELIM) == f + 2 && LastIndexOf(id, EDGE_LABEL_DELIM) == q
    ensures CutEdgeId(id) == Ok(EdgeKeyParts(id, EDGE_PREFIX, Some(id[..f]), Some(id[f + 3..q]), Some(id[q + 3..])))
  {
    assert EDGE_LABEL_DELIM == "|" && |EDGE_DELIM| == 2;
    assert CutEdgeId(id) == CutBetween(id, f, q + 3, f + 2, q);
    CutBetweenSlices(id, f, q);
  }

  lemma CutBetweenSlices(id: string, f: int, q: int)
    requires 0 <= f && f + 3 <= q && q + 3 <= |id|
    ensures CutBetween(id, f, q + 3, f + 2, q) == Ok(EdgeKeyParts(id, EDGE_PREFIX, Some(id[..f]), Some(id[f + 3..q]), Some(id[q + 3..])))
  {
    SubstringSlice(id, 0, f);
    SubstringSlice(id, q + 3, |id|);
    SubstringSlice(id, f + 3, q);
    assert id[0..f] == id[..f] && id[q + 3..|id|] == id[q + 3..];
  }

  /**
   * A generated edge key parses back into the ids it was made from, provided
   * their string forms hold neither a delimiter nor a placeholder (Long ids
   * always qualify).
   */
  lemma GeneratedEdgeKeyParses(vId1: JavaId, lbl: string, vId2: JavaId)
    requires Plain(IdString(vId1)) && NoPlaceholder(IdString(vId1))
    requires Plain(IdString(vId2)) && NoPlaceholder(IdString(vId2))
    ensures ParseEdgeKey(GenEdgeKey(vId1, lbl, vId2))
         == Ok(EdgeKeyParts(GenEdgeId(vId1, lbl, vId2), EDGE_PREFIX,
                            Some(IdString(vId1)), Some(lbl), Some(IdString(vId2))))
  {
    EdgeKeyIsPrefixedId(vId1, lbl, vId2);
    PlainEdgeId(vId1, lbl, vId2);
    EdgeKeyRoundTrip(IdString(vId1), lbl, IdString(vId2));
  }

  /** A key without both "->|" and "|->" keeps only its id and prefix. */
  lemma UndelimitedEdgeKey(eKey: string)
    requires |eKey| >= |EDGE_PREFIX| && !Contains(eKey, "|" + EDGE_DELIM)
    ensures ParseEdgeKey(eKey) == Ok(EdgeKeyParts(eKey[|EDGE_PREFIX|..], EDGE_PREFIX, None, None, None))
  {
    assert Substring(eKey, |EDGE_PREFIX|, |eKey|).value == eKey[|EDGE_PREFIX|..];
  }

  /** The key of an edge between the vertices "tae_bart" and "tae_homer". */
  lemma ExampleEdgeId()
    ensures GenEdgeId(StrId("tae_bart"), "son of", StrId("tae_homer")) == "tae_bart->|son of|->tae_homer"
  {
    AbsentChar("tae_bart", "{2}", 0);
    AbsentChar("tae_bart", "{3}", 0);
    AbsentChar("tae_homer", "{2}", 0);
    AbsentChar("tae_homer", "{3}", 0);
    PlainEdgeId(StrId("tae_bart"), "son of", StrId("tae_homer"));
  }

  /** A "{2}" inside a vertex id is overwritten by the lbl. */
  lemma PlaceholderInIdIsRewritten()
    ensures GenEdgeId(StrId("{2}"), "x", StrId("b")) == "x->|x|->b"
  {
    EdgeIdShape(StrId("{2}"), "x", StrId("b"));
    ReplaceShort("{2}", "{3}", "b");
    ReplaceWhole("{2}", "x");
    AbsentChar("b", "{2}", 0);
    ReplaceAbsent("b", "{2}", "x");
  }
}
