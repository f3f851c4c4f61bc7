// The collection helpers the graph layer relies on: removing one element from
// a JSON array (JSONHelper.remove), membership by string form
// (CollectionHelper.contains) and the recursive key sort of a JSON map
// (CollectionHelper.sortMap, which JSONHelper.sort applies to an object).

module JsonHelper {

  /** The index of the first element equal to `x`. */
  function FirstIndex<T(==)>(xs: seq<T>, x: T): (i: nat)
    requires x in xs
    ensures i < |xs| && xs[i] == x && x !in xs[..i]
  {
    if xs[0] == x then 0
    else
      var i := 1 + FirstIndex(xs[1..], x);
      assert xs[..i] == [xs[0]] + xs[1..][..i - 1];
      i
  }

  /**
   * List.remove(Object) on the array's list copy: the first element equal to
   * `x` is dropped, everything else keeps its order.
   */
  function Remove<T(==)>(xs: seq<T>, x: T): seq<T>
  {
    if xs == [] then []
    else if xs[0] == x then xs[1..]
    else [xs[0]] + Remove(xs[1..], x)
  }

  /** Exactly the first occurrence of `x` is dropped; without one the list is unchanged. */
  lemma {:induction false} RemoveFirst<T>(xs: seq<T>, x: T)
    ensures x !in xs ==> Remove(xs, x) == xs
    ensures x in xs ==> Remove(xs, x) == xs[..FirstIndex(xs, x)] + xs[FirstIndex(xs, x) + 1..]
  {
    if xs != [] && xs[0] != x {
      RemoveFirst(xs[1..], x);
      assert xs == [xs[0]] + xs[1..];
      if x in xs {
        var i := FirstIndex(xs, x);
        assert xs[..i] == [xs[0]] + xs[1..][..i - 1];
        assert xs[i + 1..] == xs[1..][i..];
      }
    }
  }

  /** Removing takes exactly one copy of `x` out of the multiset of elements, if there was one. */
  lemma {:induction false} RemoveMultiset<T>(xs: seq<T>, x: T)
    ensures multiset(Remove(xs, x)) == multiset(xs) - multiset{x}
  {
    if xs != [] {
      assert xs == [xs[0]] + xs[1..];
      if xs[0] != x {
        RemoveMultiset(xs[1..], x);
      }
    }
  }

  /** Removing an element that was just appended gives back the list, if it was not there before. */
  lemma RemoveAppended<T>(xs: seq<T>, x: T)
    requires x !in xs
    ensures Remove(xs + [x], x) == xs
  {
    RemoveFirst(xs + [x], x);
    assert (xs + [x])[|xs|] == x;
    assert (xs + [x])[..|xs|] == xs;
  }
}

module CollectionHelper {

  /**
   * contains(list, obj): whether some entry has the same string form as
   * `obj`; `show` is the elements' toString.
   */
  method Contains<T>(list: seq<T>, obj: T, show: T -> string) returns (found: bool)
    ensures found <==> exists i :: 0 <= i < |list| && show(list[i]) == show(obj)
  {
    for i := 0 to |list|
      invariant forall j :: 0 <= j < i ==> show(list[j]) != show(obj)
    {
      if show(list[i]) == show(obj) {
        return true;
      }
    }
    return false;
  }

  /** Membership by string form is implied by membership. */
  lemma ContainsMember<T>(list: seq<T>, obj: T, show: T -> string)
    requires obj in list
    ensures exists i :: 0 <= i < |list| && show(list[i]) == show(obj)
  {
    var i :| 0 <= i < |list| && list[i] == obj;
    assert show(list[i]) == show(obj);
  }

  /**
   * A JSON value as a Java map sees it: a nested map (its entries in
   * iteration order) or any other value, which the sort copies as it is.
   */
  datatype Tree<L> = Leaf(value: L) | Node(entries: seq<(string, Tree<L>)>)

  type Entries<L> = seq<(string, Tree<L>)>

  function KeysOf<L>(es: Entries<L>): set<string>
  {
    set i | 0 <= i < |es| :: es[i].0
  }

  /** The entries are in strictly ascending key order under `cmp`. */
  predicate Ascending<L>(es: Entries<L>, cmp: (string, string) -> int)
  {
    forall i, j :: 0 <= i < j < |es| ==> cmp(es[i].0, es[j].0) < 0
  }

  /** `cmp` behaves as a total order on the keys `ks`, as a TreeMap comparator must. */
  ghost predicate TotalOn(ks: set<string>, cmp: (string, string) -> int)
  {
    (forall a, b {:trigger a in ks, b in ks} ::
       a in ks && b in ks ==> (cmp(a, b) == 0 <==> a == b) && (cmp(a, b) < 0 <==> cmp(b, a) > 0))
    && (forall a, b, c {:trigger a in ks, b in ks, c in ks} ::
          (a in ks && b in ks && c in ks && cmp(a, b) < 0 && cmp(b, c) < 0) ==> cmp(a, c) < 0)
  }

  /** A map whose keys are distinct and totally ordered by `cmp`, and so are its nested maps'. */
  ghost predicate WellKeyed<L>(t: Tree<L>, cmp: (string, string) -> int)
    decreases t
  {
    match t
    case Leaf(_) => true
    case Node(es) =>
      (forall i, j :: 0 <= i < j < |es| ==> es[i].0 != es[j].0)
      && TotalOn(KeysOf(es), cmp)
      && forall i :: 0 <= i < |es| ==> WellKeyed(es[i].1, cmp)
  }

  /**
   * `b` is `a` with every map, at every depth, holding the same keys in
   * ascending order and the sorted form of the same values; other values are
   * copied.
   */
  ghost predicate SortedCopy<L>(a: Tree<L>, b: Tree<L>, cmp: (string, string) -> int)
    decreases a, 0
  {
    match a
    case Leaf(_) => b == a
    case Node(es) =>
      b.Node? && |b.entries| == |es| && Ascending(b.entries, cmp) && KeysOf(b.entries) == KeysOf(es)
      && forall i :: 0 <= i < |es| ==> HasSortedCopy(es[i], b.entries, cmp)
  }

  /** Some entry of `bs` has the key of `e` and the sorted form of its value. */
  ghost predicate HasSortedCopy<L>(e: (string, Tree<L>), bs: Entries<L>, cmp: (string, string) -> int)
    decreases e.1, 1
  {
    exists p :: 0 <= p < |bs| && bs[p].0 == e.0 && SortedCopy(e.1, bs[p].1, cmp)
  }

  /** TreeMap.put: insert in comparator order; an equal key keeps its place and takes the value. */
  function Put<L>(es: Entries<L>, k: string, v: Tree<L>, cmp: (string, string) -> int): Entries<L>
  {
    if es == [] then [(k, v)]
    else
      var c := cmp(k, es[0].0);
      if c == 0 then [(es[0].0, v)] + es[1..]
      else if c < 0 then [(k, v)] + es
      else [es[0]] + Put(es[1..], k, v, cmp)
  }

  lemma KeysOfCons<L>(e: (string, Tree<L>), es: Entries<L>)
    ensures KeysOf([e] + es) == {e.0} + KeysOf(es)
  {
    var r := [e] + es;
    assert r[0].0 == e.0;
    forall x | x in KeysOf(r) ensures x in {e.0} + KeysOf(es) {
      var i :| 0 <= i < |r| && r[i].0 == x;
      if i > 0 { assert r[i] == es[i - 1]; }
    }
    forall x | x in KeysOf(es) ensures x in KeysOf(r) {
      var i :| 0 <= i < |es| && es[i].0 == x;
      assert r[i + 1] == es[i];
    }
  }

  lemma KeysOfSnoc<L>(es: Entries<L>, i: nat)
    requires i < |es|
    ensures KeysOf(es[..i + 1]) == KeysOf(es[..i]) + {es[i].0}
  {
    assert es[..i + 1] == es[..i] + [es[i]];
    forall x | x in KeysOf(es[..i + 1]) ensures x in KeysOf(es[..i]) + {es[i].0} {
      var j :| 0 <= j < i + 1 && es[..i + 1][j].0 == x;
      if j < i { assert es[..i][j] == es[j]; }
    }
    forall x | x in KeysOf(es[..i]) ensures x in KeysOf(es[..i + 1]) {
      var j :| 0 <= j < i && es[..i][j].0 == x;
      assert es[..i + 1][j] == es[j];
    }
  }

  /** Putting a new key adds exactly that key and one entry. */
  lemma {:induction false} PutNewKeys<L>(es: Entries<L>, k: string, v: Tree<L>, cmp: (string, string) -> int)
    requires k !in KeysOf(es) && TotalOn(KeysOf(es) + {k}, cmp)
    ensures |Put(es, k, v, cmp)| == |es| + 1 && KeysOf(Put(es, k, v, cmp)) == KeysOf(es) + {k}
  {
    if es == [] {
      KeysOfCons((k, v), es);
    } else {
      var tl := es[1..];
      assert es == [es[0]] + tl;
      KeysOfCons(es[0], tl);
      assert es[0].0 in KeysOf(es) && es[0].0 != k;
      if cmp(k, es[0].0) < 0 {
        KeysOfCons((k, v), es);
      } else {
        assert cmp(k, es[0].0) != 0;
        TotalOnSubset(KeysOf(es) + {k}, KeysOf(tl) + {k}, cmp);
        PutNewKeys(tl, k, v, cmp);
        KeysOfCons(es[0], Put(tl, k, v, cmp));
      }
    }
  }

  /** Putting a new key keeps every old entry and adds the new one. */
  lemma {:induction false} PutNewKeeps<L>(es: Entries<L>, k: string, v: Tree<L>, cmp: (string, string) -> int)
    requires k !in KeysOf(es) && TotalOn(KeysOf(es) + {k}, cmp)
    ensures (k, v) in Put(es, k, v, cmp) && forall e :: e in es ==> e in Put(es, k, v, cmp)
  {
    if es != [] {
      var tl := es[1..];
      assert es == [es[0]] + tl;
      KeysOfCons(es[0], tl);
      assert es[0].0 in KeysOf(es) && es[0].0 != k;
      if cmp(k, es[0].0) >= 0 {
        TotalOnSubset(KeysOf(es) + {k}, KeysOf(tl) + {k}, cmp);
        PutNewKeeps(tl, k, v, cmp);
      }
    }
  }

  /** Putting a new key into ascending entries keeps them ascending. */
  lemma {:induction false} PutNew<L>(es: Entries<L>, k: string, v: Tree<L>, cmp: (string, string) -> int)
    requires Ascending(es, cmp) && k !in KeysOf(es) && TotalOn(KeysOf(es) + {k}, cmp)
    ensures Ascending(Put(es, k, v, cmp), cmp)
  {
    if es != [] {
      var tl := es[1..];
      assert es == [es[0]] + tl;
      KeysOfCons(es[0], tl);
      assert es[0].0 in KeysOf(es) && es[0].0 != k;
      if cmp(k, es[0].0) < 0 {
        PutFront(es, k, v, cmp);
      } else {
        TotalOnSubset(KeysOf(es) + {k}, KeysOf(tl) + {k}, cmp);
        PutNew(tl, k, v, cmp);
        PutNewKeys(tl, k, v, cmp);
        var rest := Put(tl, k, v, cmp);
        forall x | x in KeysOf(rest) ensures cmp(es[0].0, x) < 0 {
          if x == k {
            assert cmp(k, es[0].0) > 0;
          } else {
            var j :| 0 <= j < |tl| && tl[j].0 == x;
            assert es[j + 1] == tl[j];
          }
        }
        PutBehind(es[0], rest, cmp);
      }
    }
  }

  lemma PutFront<L>(es: Entries<L>, k: string, v: Tree<L>, cmp: (string, string) -> int)
    requires es != [] && Ascending(es, cmp) && TotalOn(KeysOf(es) + {k}, cmp) && cmp(k, es[0].0) < 0
    ensures Ascending([(k, v)] + es, cmp)
  {
    var r := [(k, v)] + es;
    forall i, j | 0 <= i < j < |r|
      ensures cmp(r[i].0, r[j].0) < 0
    {
      if i == 0 && j > 1 {
        assert es[0].0 in KeysOf(es) && es[j - 1].0 in KeysOf(es);
        assert r[j] == es[j - 1];
      } else if i > 0 {
        assert r[i] == es[i - 1] && r[j] == es[j - 1];
      }
    }
  }

  lemma PutBehind<L>(e: (string, Tree<L>), rest: Entries<L>, cmp: (string, string) -> int)
    requires Ascending(rest, cmp) && forall x :: x in KeysOf(rest) ==> cmp(e.0, x) < 0
    ensures Ascending([e] + rest, cmp)
  {
    var r := [e] + rest;
    forall i, j | 0 <= i < j < |r|
      ensures cmp(r[i].0, r[j].0) < 0
    {
      assert r[j] == rest[j - 1];
      if i == 0 {
        assert rest[j - 1].0 in KeysOf(rest);
      } else {
        assert r[i] == rest[i - 1];
      }
    }
  }

  /** The loop invariant of the sort: the entries seen so far are in, sorted. */
  ghost predicate SortedPrefix<L>(es: Entries<L>, i: nat, out: Entries<L>, cmp: (string, string) -> int)
    requires i <= |es|
  {
    |out| == i && Ascending(out, cmp) && KeysOf(out) == KeysOf(es[..i])
    && forall j :: 0 <= j < i ==> HasSortedCopy(es[j], out, cmp)
  }

  /** Putting the next entry, sorted, extends the invariant by one entry. */
  lemma SortStep<L>(m: Tree<L>, i: nat, out: Entries<L>, sorted: Tree<L>, cmp: (string, string) -> int)
    requires m.Node? && WellKeyed(m, cmp) && i < |m.entries|
    requires SortedPrefix(m.entries, i, out, cmp) && SortedCopy(m.entries[i].1, sorted, cmp)
    ensures SortedPrefix(m.entries, i + 1, Put(out, m.entries[i].0, sorted, cmp), cmp)
  {
    var es, k := m.entries, m.entries[i].0;
    KeysOfSnoc(es, i);
    forall j | 0 <= j < i
      ensures es[..i][j].0 != k
    {
      assert es[..i][j] == es[j];
    }
    assert KeysOf(es[..i + 1]) <= KeysOf(es) by {
      forall x | x in KeysOf(es[..i + 1]) ensures x in KeysOf(es) {
        var j :| 0 <= j < i + 1 && es[..i + 1][j].0 == x;
        assert es[j].0 == x;
      }
    }
    TotalOnSubset(KeysOf(es), KeysOf(out) + {k}, cmp);
    PutNew(out, k, sorted, cmp);
    PutNewKeys(out, k, sorted, cmp);
    PutNewKeeps(out, k, sorted, cmp);
    var r := Put(out, k, sorted, cmp);
    forall j | 0 <= j < i + 1
      ensures HasSortedCopy(es[j], r, cmp)
    {
      if j == i {
        var p :| 0 <= p < |r| && r[p] == (k, sorted);
      } else {
        var p :| 0 <= p < |out| && out[p].0 == es[j].0 && SortedCopy(es[j].1, out[p].1, cmp);
        assert out[p] in r;
        var p' :| 0 <= p' < |r| && r[p'] == out[p];
      }
    }
  }

  lemma TotalOnSubset(big: set<string>, small: set<string>, cmp: (string, string) -> int)
    requires TotalOn(big, cmp) && small <= big
    ensures TotalOn(small, cmp)
  {
    forall a, b, c | a in small && b in small && c in small
      ensures a in big && b in big && c in big
    {
    }
  }

  lemma SortDone<L>(m: Tree<L>, out: Entries<L>, cmp: (string, string) -> int)
    requires m.Node? && SortedPrefix(m.entries, |m.entries|, out, cmp)
    ensures SortedCopy(m, Node(out), cmp)
  {
    assert m.entries[..|m.entries|] == m.entries;
  }

  /**
   * sortMap: copy the map's entries, in their iteration order, into a
   * TreeMap ordered by `cmp`, sorting nested maps the same way.
   */
  method SortMap<L>(m: Tree<L>, cmp: (string, string) -> int) returns (out: Entries<L>)
    requires m.Node? && WellKeyed(m, cmp)
    ensures SortedCopy(m, Node(out), cmp)
    decreases m
  {
    var es := m.entries;
    out := [];
    var i := 0;
    while i < |es|
      invariant 0 <= i <= |es|
      invariant SortedPrefix(es, i, out, cmp)
    {
      var k := es[i].0;
      var v := es[i].1;
      var sorted := v;
      if v.Node? {
        var inner := SortMap(v, cmp);
        sorted := Node(inner);
      }
      SortStep(m, i, out, sorted, cmp);
      out := Put(out, k, sorted, cmp);
      i := i + 1;
    }
    assert es[..i] == es;
    SortDone(m, out, cmp);
  }
}
