// The loop shape shared by CBGraph's listings and property filters: walk a
// list in order, ask each element for an answer, let a failure escape at
// once, and collect the answers that keep something. The functions here
// say, once for all four loops, which elements end up in the result and
// in what order.

module Scans {
  import opened Wrappers

  /** `f` keeps `x`: it answers without failing and with something to collect. */
  predicate Keeps<T, U>(f: T -> Result<Option<U>>, x: T)
  {
    f(x).Ok? && f(x).value.Some?
  }

  /**
   * The walk over `xs` appending to `acc`: the first failure `f` answers
   * ends it, Some(u) appends u, None skips the element.
   */
  function Scan<T, U>(xs: seq<T>, f: T -> Result<Option<U>>, acc: seq<U>): Result<seq<U>>
    decreases |xs|
  {
    if xs == [] then Ok(acc)
    else
      match f(xs[0])
      case Err(e) => Err(e)
      case Ok(o) => Scan(xs[1..], f, if o.Some? then acc + [o.value] else acc)
  }

  /**
   * The positions from `i` on whose element `f` keeps: strictly
   * increasing, within `xs`, and holding every such position.
   */
  function Hits<T, U>(xs: seq<T>, f: T -> Result<Option<U>>, i: nat): (h: seq<nat>)
    ensures forall j :: 0 <= j < |h| ==> i <= h[j] < |xs|
    ensures forall j, l :: 0 <= j < l < |h| ==> h[j] < h[l]
    ensures forall n :: i <= n < |xs| ==> (n in h <==> Keeps(f, xs[n]))
    decreases |xs| - i
  {
    if i >= |xs| then []
    else
      var rest := Hits(xs, f, i + 1);
      assert i !in rest;
      (if Keeps(f, xs[i]) then [i] else []) + rest
  }

  /** The walk from position `i` succeeds exactly when no answer from there on is a failure. */
  lemma {:induction false} ScanSucceeds<T, U>(xs: seq<T>, f: T -> Result<Option<U>>, acc: seq<U>, i: nat)
    requires i <= |xs|
    decreases |xs| - i
    ensures Scan(xs[i..], f, acc).Ok? <==> forall n :: i <= n < |xs| ==> f(xs[n]).Ok?
  {
    if i < |xs| {
      assert xs[i..][0] == xs[i] && xs[i..][1..] == xs[i + 1..];
      match f(xs[i])
      case Err(e) =>
      case Ok(o) =>
        ScanSucceeds(xs, f, if o.Some? then acc + [o.value] else acc, i + 1);
    }
  }

  /** A failed walk from position `i` fails with the first failure from there on. */
  lemma {:induction false} ScanFailsFirst<T, U>(xs: seq<T>, f: T -> Result<Option<U>>, acc: seq<U>, i: nat)
    requires i <= |xs|
    decreases |xs| - i
    ensures var r := Scan(xs[i..], f, acc);
      r.Err? ==> exists n :: i <= n < |xs| && f(xs[n]) == Err(r.failure) && forall m :: i <= m < n ==> f(xs[m]).Ok?
  {
    var r := Scan(xs[i..], f, acc);
    if i < |xs| && r.Err? {
      assert xs[i..][0] == xs[i] && xs[i..][1..] == xs[i + 1..];
      match f(xs[i])
      case Err(e) =>
        assert f(xs[i]) == Err(r.failure);
      case Ok(o) =>
        var acc' := if o.Some? then acc + [o.value] else acc;
        ScanFailsFirst(xs, f, acc', i + 1);
        assert r == Scan(xs[i + 1..], f, acc');
        var n :| i + 1 <= n < |xs| && f(xs[n]) == Err(r.failure) && forall m :: i + 1 <= m < n ==> f(xs[m]).Ok?;
        assert forall m :: i <= m < n ==> f(xs[m]).Ok?;
    }
  }

  /**
   * A walk from position `i` that goes through appends to `acc`, in order,
   * what `f` keeps at each position of Hits(xs, f, i).
   */
  lemma {:induction false} ScanCollects<T, U>(xs: seq<T>, f: T -> Result<Option<U>>, acc: seq<U>, i: nat)
    requires i <= |xs|
    decreases |xs| - i
    ensures var r := Scan(xs[i..], f, acc);
      var h := Hits(xs, f, i);
      r.Ok? ==> |r.value| == |acc| + |h| && r.value[..|acc|] == acc
                && forall j :: 0 <= j < |h| ==> f(xs[h[j]]) == Ok(Some(r.value[|acc| + j]))
  {
    var r := Scan(xs[i..], f, acc);
    if i < |xs| && r.Ok? {
      assert xs[i..][0] == xs[i] && xs[i..][1..] == xs[i + 1..];
      var o := f(xs[i]).value;
      var acc' := if o.Some? then acc + [o.value] else acc;
      ScanCollects(xs, f, acc', i + 1);
      assert r == Scan(xs[i + 1..], f, acc');
      var h := Hits(xs, f, i);
      var h' := Hits(xs, f, i + 1);
      assert h == (if o.Some? then [i] else []) + h';
      CollectStep(xs, f, acc, acc', i, r.value, h, h');
    }
  }

  /**
   * One step of ScanCollects, on plain sequences: what holds of the
   * positions `h'` after `xs[i]` holds of `h`, which puts `i` before them
   * when `f` keeps `xs[i]`.
   */
  lemma CollectStep<T, U>(xs: seq<T>, f: T -> Result<Option<U>>, acc: seq<U>, acc': seq<U>, i: nat, v: seq<U>, h: seq<nat>, h': seq<nat>)
    requires i < |xs| && f(xs[i]).Ok?
    requires h == (if f(xs[i]).value.Some? then [i] else []) + h'
    requires acc' == if f(xs[i]).value.Some? then acc + [f(xs[i]).value.value] else acc
    requires forall j :: 0 <= j < |h'| ==> h'[j] < |xs|
    requires |v| == |acc'| + |h'| && v[..|acc'|] == acc'
    requires forall j :: 0 <= j < |h'| ==> f(xs[h'[j]]) == Ok(Some(v[|acc'| + j]))
    ensures |v| == |acc| + |h| && v[..|acc|] == acc
    ensures forall j :: 0 <= j < |h| ==> h[j] < |xs| && f(xs[h[j]]) == Ok(Some(v[|acc| + j]))
  {
    assert v[..|acc|] == v[..|acc'|][..|acc|];
    if f(xs[i]).value.Some? {
      forall j | 0 <= j < |h|
        ensures h[j] < |xs| && f(xs[h[j]]) == Ok(Some(v[|acc| + j]))
      {
        if j > 0 {
          assert h[j] == h'[j - 1] && |acc| + j == |acc'| + (j - 1);
        }
      }
    }
  }

  /**
   * The walk from position `i` fails exactly when some answer from there on
   * is a failure, and then with the first one; otherwise it appends, in
   * order, what `f` keeps at each position of Hits(xs, f, i).
   */
  lemma ScanExact<T, U>(xs: seq<T>, f: T -> Result<Option<U>>, acc: seq<U>, i: nat)
    requires i <= |xs|
    ensures var r := Scan(xs[i..], f, acc);
      var h := Hits(xs, f, i);
      (r.Ok? <==> forall n :: i <= n < |xs| ==> f(xs[n]).Ok?)
      && (r.Err? ==> exists n :: i <= n < |xs| && f(xs[n]) == Err(r.failure) && forall m :: i <= m < n ==> f(xs[m]).Ok?)
      && (r.Ok? ==> |r.value| == |acc| + |h| && r.value[..|acc|] == acc
                    && forall j :: 0 <= j < |h| ==> f(xs[h[j]]) == Ok(Some(r.value[|acc| + j])))
  {
    ScanSucceeds(xs, f, acc, i);
    ScanFailsFirst(xs, f, acc, i);
    ScanCollects(xs, f, acc, i);
  }
}
