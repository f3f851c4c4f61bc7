// The java.lang.String operations the key codec is built from: indexOf,
// lastIndexOf, contains, substring (with its bounds exception), replace
// (every non-overlapping occurrence, scanning left to right) and the decimal
// rendering of a long.

module JavaString {
  import opened Wrappers

  /** `p` occurs in `s` starting at index `i`. */
  predicate OccursAt(s: string, p: string, i: int)
  {
    0 <= i && i + |p| <= |s| && s[i..i + |p|] == p
  }

  /** String.contains */
  predicate Contains(s: string, p: string)
  {
    exists i :: 0 <= i <= |s| && OccursAt(s, p, i)
  }

  /** String.indexOf(p, from): the first occurrence at or after `from`, or -1. */
  function IndexOfFrom(s: string, p: string, from: nat): (r: int)
    ensures r == -1 || (from <= r && OccursAt(s, p, r))
    ensures r == -1 ==> forall i :: from <= i ==> !OccursAt(s, p, i)
    ensures r != -1 ==> forall i :: from <= i < r ==> !OccursAt(s, p, i)
    decreases |s| - from
  {
    if from + |p| > |s| then -1
    else if s[from..from + |p|] == p then from
    else IndexOfFrom(s, p, from + 1)
  }

  /** String.indexOf(p) */
  function IndexOf(s: string, p: string): (r: int)
    ensures r == -1 <==> !Contains(s, p)
    ensures r != -1 ==> OccursAt(s, p, r) && forall i :: 0 <= i < r ==> !OccursAt(s, p, i)
  {
    IndexOfFrom(s, p, 0)
  }

  /** Searches downwards from `upTo` for the last occurrence at or before it, or -1. */
  function LastIndexOfUpTo(s: string, p: string, upTo: int): (r: int)
    requires upTo + |p| <= |s|
    ensures r == -1 || (r <= upTo && OccursAt(s, p, r))
    ensures r == -1 ==> forall i :: i <= upTo ==> !OccursAt(s, p, i)
    ensures r != -1 ==> forall i :: r < i <= upTo ==> !OccursAt(s, p, i)
    decreases upTo + 1
  {
    if upTo < 0 then -1
    else if s[upTo..upTo + |p|] == p then upTo
    else LastIndexOfUpTo(s, p, upTo - 1)
  }

  /** String.lastIndexOf(p) */
  function LastIndexOf(s: string, p: string): (r: int)
    ensures r == -1 <==> !Contains(s, p)
    ensures r != -1 ==> OccursAt(s, p, r) && forall i :: r < i ==> !OccursAt(s, p, i)
  {
    if |p| > |s| then -1 else LastIndexOfUpTo(s, p, |s| - |p|)
  }

  /** String.substring(b, e); None stands for StringIndexOutOfBoundsException. */
  function Substring(s: string, b: int, e: int): (r: Option<string>)
    ensures r.Some? <==> 0 <= b <= e <= |s|
    ensures r.Some? ==> |r.value| == e - b && forall i :: 0 <= i < e - b ==> r.value[i] == s[b + i]
  {
    if 0 <= b <= e <= |s| then Some(s[b..e]) else None
  }

  /** A substring within bounds is the slice it names. */
  lemma SubstringSlice(s: string, b: int, e: int)
    requires 0 <= b <= e <= |s|
    ensures Substring(s, b, e) == Some(s[b..e])
  {
  }

  /**
   * String.replace(pat, rep): every occurrence of `pat`, found scanning from
   * the left and never inside text already replaced, becomes `rep`.
   */
  function ReplaceAll(s: string, pat: string, rep: string): string
    requires |pat| > 0
    decreases |s|
  {
    if |s| < |pat| then s
    else if s[..|pat|] == pat then rep + ReplaceAll(s[|pat|..], pat, rep)
    else [s[0]] + ReplaceAll(s[1..], pat, rep)
  }

  /** Replacing a pattern that does not occur leaves the string as it was. */
  lemma {:induction false} ReplaceAbsent(s: string, pat: string, rep: string)
    requires |pat| > 0 && !Contains(s, pat)
    ensures ReplaceAll(s, pat, rep) == s
    decreases |s|
  {
    if |s| < |pat| {
    } else {
      assert s[..|pat|] == s[0..0 + |pat|];
      assert !OccursAt(s, pat, 0);
      assert !Contains(s[1..], pat) by {
        forall i | OccursAt(s[1..], pat, i)
          ensures false
        {
          assert s[1..][i..i + |pat|] == s[i + 1..i + 1 + |pat|];
          assert OccursAt(s, pat, i + 1);
        }
      }
      ReplaceAbsent(s[1..], pat, rep);
      assert s == [s[0]] + s[1..];
    }
  }

  /**
   * No occurrence of `pat` in `a + b` can start in `a` and end in `b`: the
   * last character of `a` cannot start or continue the pattern, or the
   * first character of `b` cannot continue or end it.
   */
  predicate Blocked(a: string, b: string, pat: string)
  {
    |pat| > 0 && (a == [] || a[|a| - 1] !in pat[..|pat| - 1] || (b != [] && b[0] !in pat[1..]))
  }

  /** A join that starts with the pattern inside `a` replaces it first, on both sides. */
  lemma JoinMatchStep(a: string, b: string, pat: string, rep: string)
    requires 0 < |pat| <= |a| && a[..|pat|] == pat
    requires ReplaceAll(a[|pat|..] + b, pat, rep) == ReplaceAll(a[|pat|..], pat, rep) + ReplaceAll(b, pat, rep)
    ensures ReplaceAll(a + b, pat, rep) == ReplaceAll(a, pat, rep) + ReplaceAll(b, pat, rep)
  {
    assert (a + b)[..|pat|] == a[..|pat|];
    assert (a + b)[|pat|..] == a[|pat|..] + b;
  }

  /** A blocked join starts with the pattern only when `a` does. */
  lemma SeamHead(a: string, b: string, pat: string)
    requires 0 < |pat| <= |a + b| && 0 < |a| && Blocked(a, b, pat)
    requires |pat| <= |a| ==> a[..|pat|] != pat
    ensures (a + b)[..|pat|] != pat
  {
    var s := a + b;
    if |pat| <= |a| {
      assert a[..|pat|] == s[..|pat|];
    } else {
      var k := |a| - 1;
      assert s[k] == a[k] && s[k + 1] == b[0];
      if a[k] !in pat[..|pat| - 1] {
        assert pat[..|pat| - 1][k] == pat[k];
        assert s[..|pat|][k] != pat[k];
      } else {
        assert pat[1..][k] == pat[k + 1];
        assert s[..|pat|][k + 1] != pat[k + 1];
      }
    }
  }

  /** A string that does not start with the pattern keeps its first character. */
  lemma ReplaceSkip(s: string, pat: string, rep: string)
    requires 0 < |s| && 0 < |pat| && (|pat| <= |s| ==> s[..|pat|] != pat)
    ensures ReplaceAll(s, pat, rep) == [s[0]] + ReplaceAll(s[1..], pat, rep)
  {
    if |s| < |pat| {
      assert ReplaceAll(s[1..], pat, rep) == s[1..];
      assert s == [s[0]] + s[1..];
    }
  }

  /** A join that does not start with the pattern keeps the first character, on both sides. */
  lemma JoinSkipStep(a: string, b: string, pat: string, rep: string)
    requires 0 < |pat| <= |a + b| && 0 < |a| && (a + b)[..|pat|] != pat
    requires ReplaceAll(a[1..] + b, pat, rep) == ReplaceAll(a[1..], pat, rep) + ReplaceAll(b, pat, rep)
    ensures ReplaceAll(a + b, pat, rep) == ReplaceAll(a, pat, rep) + ReplaceAll(b, pat, rep)
  {
    ReplaceSkip(a + b, pat, rep);
    assert (a + b)[0] == a[0] && (a + b)[1..] == a[1..] + b;
    assert |pat| <= |a| ==> a[..|pat|] == (a + b)[..|pat|];
    ReplaceSkip(a, pat, rep);
    ConsAssoc(a[0], ReplaceAll(a[1..], pat, rep), ReplaceAll(b, pat, rep));
  }

  lemma ConsAssoc(c: char, x: string, y: string)
    ensures [c] + (x + y) == ([c] + x) + y
  {
  }

  /** Replacing over a blocked concatenation works piecewise. */
  lemma {:induction false} ReplaceJoin(a: string, b: string, pat: string, rep: string)
    requires Blocked(a, b, pat)
    ensures ReplaceAll(a + b, pat, rep) == ReplaceAll(a, pat, rep) + ReplaceAll(b, pat, rep)
    decreases |a|
  {
    if |a| == 0 {
      assert a + b == b;
    } else if |a + b| < |pat| {
    } else if |pat| <= |a| && a[..|pat|] == pat {
      var a' := a[|pat|..];
      assert a' == [] || a'[|a'| - 1] == a[|a| - 1];
      ReplaceJoin(a', b, pat, rep);
      JoinMatchStep(a, b, pat, rep);
    } else {
      var a' := a[1..];
      assert a' == [] || a'[|a'| - 1] == a[|a| - 1];
      ReplaceJoin(a', b, pat, rep);
      SeamHead(a, b, pat);
      JoinSkipStep(a, b, pat, rep);
    }
  }

  /** The pattern itself is replaced whole. */
  lemma ReplaceWhole(pat: string, rep: string)
    requires |pat| > 0
    ensures ReplaceAll(pat, pat, rep) == rep
  {
    assert pat[..|pat|] == pat;
    assert pat[|pat|..] == [];
  }

  /** A string no longer than a different pattern is left alone. */
  lemma ReplaceShort(s: string, pat: string, rep: string)
    requires |pat| > 0 && |s| <= |pat| && s != pat
    ensures ReplaceAll(s, pat, rep) == s
  {
    if |s| == |pat| {
      assert s[..|pat|] == s;
      assert ReplaceAll(s[1..], pat, rep) == s[1..];
      assert s == [s[0]] + s[1..];
    }
  }

  /** The decimal digits of a natural number, most significant first. */
  function NatDigits(n: nat): (r: string)
    ensures |r| > 0 && forall i :: 0 <= i < |r| ==> '0' <= r[i] <= '9'
    decreases n
  {
    var d := [(('0' as int) + n % 10) as char];
    if n < 10 then d else NatDigits(n / 10) + d
  }

  /** Long.toString: optional minus sign, then the decimal digits. */
  function LongToString(n: int): (r: string)
    ensures |r| > 0 && forall i :: 0 <= i < |r| ==> ('0' <= r[i] <= '9' || (i == 0 && r[i] == '-'))
  {
    if n < 0 then "-" + NatDigits(-n) else NatDigits(n)
  }
}
