/**
 * The array combinator the todo list is built on, `Array.prototype.filter`,
 * and the vocabulary for saying that a filter keeps the original order:
 * subsequences and interleavings.
 */
module Sequences {

  /** `s.filter(keep)`: the elements of `s` that satisfy `keep`, in their original order. */
  function Filter<T(==)>(s: seq<T>, keep: T -> bool): (r: seq<T>)
    ensures |r| <= |s|
    ensures forall i :: 0 <= i < |r| ==> keep(r[i])
  {
    if s == [] then []
    else if keep(s[0]) then [s[0]] + Filter(s[1..], keep)
    else Filter(s[1..], keep)
  }

  /** What a filter returns are elements of its input, and every element that passes the test is returned. */
  lemma {:induction false} FilterMembers<T>(s: seq<T>, keep: T -> bool)
    ensures forall i :: 0 <= i < |Filter(s, keep)| ==> Filter(s, keep)[i] in s
    ensures forall j :: 0 <= j < |s| && keep(s[j]) ==> s[j] in Filter(s, keep)
  {
    if s != [] {
      FilterMembers(s[1..], keep);
      var r, rest := Filter(s, keep), Filter(s[1..], keep);
      forall i | 0 <= i < |r| ensures r[i] in s {
        if keep(s[0]) && i == 0 {
        } else {
          var k := if keep(s[0]) then i - 1 else i;
          assert r[i] == rest[k] && rest[k] in s[1..];
        }
      }
      forall j | 0 <= j < |s| && keep(s[j]) ensures s[j] in r {
        if j > 0 {
          assert s[j] == s[1..][j - 1];
        }
      }
    }
  }

  /** Number of elements of `s` that satisfy `p`. */
  function CountWhere<T>(s: seq<T>, p: T -> bool): (n: nat)
    ensures n <= |s|
  {
    if s == [] then 0
    else (if p(s[0]) then 1 else 0) + CountWhere(s[1..], p)
  }

  /** `a` is obtained from `b` by deleting some elements, without reordering the rest. */
  predicate IsSubsequence<T(==)>(a: seq<T>, b: seq<T>)
    decreases |b|
  {
    a == [] ||
    (b != [] &&
     ((a[0] == b[0] && IsSubsequence(a[1..], b[1..])) || IsSubsequence(a, b[1..])))
  }

  /** `s` is a merge of `a` and `b`: every element of `s` is taken, in order, from the front of one of them. */
  predicate Interleaves<T(==)>(s: seq<T>, a: seq<T>, b: seq<T>)
    decreases |s|
  {
    if s == [] then a == [] && b == []
    else
      (a != [] && a[0] == s[0] && Interleaves(s[1..], a[1..], b)) ||
      (b != [] && b[0] == s[0] && Interleaves(s[1..], a, b[1..]))
  }

  /** Filtering keeps the relative order of what it keeps. */
  lemma {:induction false} FilterIsSubsequence<T>(s: seq<T>, keep: T -> bool)
    ensures IsSubsequence(Filter(s, keep), s)
  {
    if s != [] {
      FilterIsSubsequence(s[1..], keep);
      if keep(s[0]) {
        assert Filter(s, keep)[1..] == Filter(s[1..], keep);
      }
    }
  }

  /** A filter and its complement split `s` into two interleaved parts. */
  lemma {:induction false} FilterSplitInterleaves<T>(s: seq<T>, keep: T -> bool, drop: T -> bool)
    requires forall x :: drop(x) == !keep(x)
    ensures Interleaves(s, Filter(s, keep), Filter(s, drop))
  {
    if s != [] {
      FilterSplitInterleaves(s[1..], keep, drop);
      if keep(s[0]) {
        assert Filter(s, keep)[1..] == Filter(s[1..], keep);
      } else {
        assert Filter(s, drop)[1..] == Filter(s[1..], drop);
      }
    }
  }

  /** The parts of an interleaving are order-preserving subsequences of the whole. */
  lemma {:induction false} InterleavingSubsequences<T>(s: seq<T>, a: seq<T>, b: seq<T>)
    requires Interleaves(s, a, b)
    ensures IsSubsequence(a, s) && IsSubsequence(b, s)
    decreases |s|
  {
    if s != [] {
      if a != [] && a[0] == s[0] && Interleaves(s[1..], a[1..], b) {
        InterleavingSubsequences(s[1..], a[1..], b);
      } else {
        InterleavingSubsequences(s[1..], a, b[1..]);
      }
    }
  }

  /**
   * The parts of an interleaving together hold exactly the elements of the
   * whole, with multiplicity, so their lengths add up to its length.
   */
  lemma {:induction false} InterleavingMultiset<T>(s: seq<T>, a: seq<T>, b: seq<T>)
    requires Interleaves(s, a, b)
    ensures multiset(a) + multiset(b) == multiset(s)
    ensures |a| + |b| == |s|
    decreases |s|
  {
    if s != [] {
      assert s == [s[0]] + s[1..];
      if a != [] && a[0] == s[0] && Interleaves(s[1..], a[1..], b) {
        InterleavingMultiset(s[1..], a[1..], b);
        assert a == [a[0]] + a[1..];
      } else {
        InterleavingMultiset(s[1..], a, b[1..]);
        assert b == [b[0]] + b[1..];
      }
    }
  }

  /** Filtering `a + b` filters each part. */
  lemma {:induction false} FilterAppend<T>(a: seq<T>, b: seq<T>, keep: T -> bool)
    ensures Filter(a + b, keep) == Filter(a, keep) + Filter(b, keep)
  {
    if a == [] {
      assert a + b == b;
    } else {
      assert (a + b)[0] == a[0] && (a + b)[1..] == a[1..] + b;
      FilterAppend(a[1..], b, keep);
    }
  }

  /** Filtering twice with the same test is the same as filtering once. */
  lemma {:induction false} FilterIdempotent<T>(s: seq<T>, keep: T -> bool)
    ensures Filter(Filter(s, keep), keep) == Filter(s, keep)
  {
    if s != [] {
      FilterIdempotent(s[1..], keep);
      if keep(s[0]) {
        assert Filter(s, keep)[1..] == Filter(s[1..], keep);
      }
    }
  }

  /** Filtering drops exactly the elements that fail the test. */
  lemma {:induction false} FilterLength<T>(s: seq<T>, keep: T -> bool, drop: T -> bool)
    requires forall x :: drop(x) == !keep(x)
    ensures |Filter(s, keep)| == |s| - CountWhere(s, drop)
  {
    if s != [] {
      FilterLength(s[1..], keep, drop);
    }
  }

  /** A filter returns its input unchanged exactly when every element passes the test. */
  lemma {:induction false} FilterUnchangedIffAllKept<T>(s: seq<T>, keep: T -> bool)
    ensures Filter(s, keep) == s <==> forall i :: 0 <= i < |s| ==> keep(s[i])
  {
    if s != [] && forall i :: 0 <= i < |s| ==> keep(s[i]) {
      assert keep(s[0]);
      assert forall i :: 0 <= i < |s[1..]| ==> keep(s[1..][i]) by {
        forall i | 0 <= i < |s[1..]| ensures keep(s[1..][i]) {
          assert s[1..][i] == s[i + 1];
        }
      }
      FilterUnchangedIffAllKept(s[1..], keep);
    }
  }
}
