/** Sequence combinators the client code uses through `Array.prototype.filter`
    and `Array.prototype.reduce`, with the facts the rest of the model needs. */
module Seqs {

  /** `a` can be obtained from `b` by deleting elements (order preserved). */
  ghost predicate IsSubsequence<T>(a: seq<T>, b: seq<T>)
    decreases |b|
  {
    |a| == 0 || (|b| > 0 && ((a[0] == b[0] && IsSubsequence(a[1..], b[1..])) || IsSubsequence(a, b[1..])))
  }

  /** `Array.prototype.filter`: the elements of `s` that `keep` accepts, in order. */
  function Filter<T>(s: seq<T>, keep: T -> bool): (r: seq<T>)
    ensures |r| <= |s|
    ensures forall i :: 0 <= i < |r| ==> r[i] in s && keep(r[i])
  {
    if |s| == 0 then []
    else if keep(s[0]) then [s[0]] + Filter(s[1..], keep)
    else Filter(s[1..], keep)
  }

  lemma {:induction false} FilterIsSubsequence<T>(s: seq<T>, keep: T -> bool)
    ensures IsSubsequence(Filter(s, keep), s)
  {
    if |s| > 0 {
      FilterIsSubsequence(s[1..], keep);
      var r := Filter(s, keep);
      if keep(s[0]) {
        assert r[0] == s[0] && r[1..] == Filter(s[1..], keep);
      }
    }
  }

  /** Filtering keeps every accepted element as often as it occurs, and drops
      every rejected one: together with `FilterIsSubsequence` this says the
      result is exactly the accepted elements in their original order. */
  lemma {:induction false} FilterMultiset<T>(s: seq<T>, keep: T -> bool)
    ensures forall x :: multiset(Filter(s, keep))[x] == if keep(x) then multiset(s)[x] else 0
  {
    if |s| > 0 {
      FilterMultiset(s[1..], keep);
      assert s == [s[0]] + s[1..];
      assert multiset(s) == multiset{s[0]} + multiset(s[1..]);
    }
  }

  lemma {:induction false} FilterAppend<T>(a: seq<T>, b: seq<T>, keep: T -> bool)
    ensures Filter(a + b, keep) == Filter(a, keep) + Filter(b, keep)
  {
    if |a| == 0 {
      assert a + b == b;
    } else {
      assert (a + b)[1..] == a[1..] + b;
      FilterAppend(a[1..], b, keep);
    }
  }

  lemma {:induction false} FilterKeepsAll<T>(s: seq<T>, keep: T -> bool)
    requires forall i :: 0 <= i < |s| ==> keep(s[i])
    ensures Filter(s, keep) == s
  {
    if |s| > 0 {
      FilterKeepsAll(s[1..], keep);
    }
  }

  lemma {:induction false} FilterDropsAll<T>(s: seq<T>, keep: T -> bool)
    requires forall i :: 0 <= i < |s| ==> !keep(s[i])
    ensures Filter(s, keep) == []
  {
    if |s| > 0 {
      FilterDropsAll(s[1..], keep);
    }
  }

  lemma FilterRejectsOne<T>(x: T, keep: T -> bool)
    requires !keep(x)
    ensures Filter([x], keep) == []
  {
    assert [x][1..] == [];
    assert Filter([x][1..], keep) == [];
  }

  /** Filtering drops a single rejected element between two runs of accepted ones. */
  lemma FilterDropsOne<T>(pre: seq<T>, x: T, post: seq<T>, keep: T -> bool)
    requires forall k :: 0 <= k < |pre| ==> keep(pre[k])
    requires !keep(x)
    requires forall k :: 0 <= k < |post| ==> keep(post[k])
    ensures Filter(pre + [x] + post, keep) == pre + post
  {
    FilterRejectsOne(x, keep);
    FilterKeepsAll(pre, keep);
    FilterAppend(pre, [x], keep);
    assert Filter(pre + [x], keep) == pre;
    FilterKeepsAll(post, keep);
    FilterAppend(pre + [x], post, keep);
  }

  lemma FilterIdempotent<T>(s: seq<T>, keep: T -> bool)
    ensures Filter(Filter(s, keep), keep) == Filter(s, keep)
  {
    FilterKeepsAll(Filter(s, keep), keep);
  }

  /** `Array.prototype.reduce((sum, x) => sum + f(x), 0)`, folding from the left. */
  function SumOf<T>(s: seq<T>, f: T -> int): int
  {
    if |s| == 0 then 0 else SumOf(s[..|s| - 1], f) + f(s[|s| - 1])
  }

  lemma SumOfAppendOne<T>(s: seq<T>, x: T, f: T -> int)
    ensures SumOf(s + [x], f) == SumOf(s, f) + f(x)
  {
    assert (s + [x])[..|s|] == s;
  }

  lemma SumOfSingleton<T>(x: T, f: T -> int)
    ensures SumOf([x], f) == f(x)
  {
    assert [x][..0] == [];
  }

  lemma {:induction false} SumOfConcat<T>(a: seq<T>, b: seq<T>, f: T -> int)
    ensures SumOf(a + b, f) == SumOf(a, f) + SumOf(b, f)
  {
    if |b| == 0 {
      assert a + b == a;
    } else {
      var b' := b[..|b| - 1];
      assert a + b == (a + b') + [b[|b| - 1]];
      SumOfAppendOne(a + b', b[|b| - 1], f);
      SumOfConcat(a, b', f);
    }
  }

  /** Replacing one element changes the sum by exactly the difference of the two terms. */
  lemma {:induction false} SumOfUpdate<T>(s: seq<T>, i: nat, x: T, f: T -> int)
    requires i < |s|
    ensures SumOf(s[i := x], f) == SumOf(s, f) - f(s[i]) + f(x)
  {
    var n := |s| - 1;
    if i == n {
      assert s[i := x][..n] == s[..n];
    } else {
      assert s[i := x][..n] == s[..n][i := x];
      SumOfUpdate(s[..n], i, x, f);
    }
  }

  /** Two sequences of equal length whose elements contribute equal terms
      position by position have equal sums. */
  lemma {:induction false} SumOfPointwise<A, B>(a: seq<A>, f: A -> int, b: seq<B>, g: B -> int)
    requires |a| == |b|
    requires forall i :: 0 <= i < |a| ==> f(a[i]) == g(b[i])
    ensures SumOf(a, f) == SumOf(b, g)
  {
    if |a| > 0 {
      var n := |a| - 1;
      SumOfPointwise(a[..n], f, b[..n], g);
    }
  }

  /** The term of a plain sum of numbers: `SumOf(xs, Identity)`. */
  function Identity(x: int): int
  {
    x
  }

  /** A sum of terms that are each at least `lo` is at least `lo` per term. */
  lemma {:induction false} SumOfAtLeast<T>(s: seq<T>, f: T -> int, lo: int)
    ensures (forall k :: 0 <= k < |s| ==> f(s[k]) >= lo) ==> SumOf(s, f) >= lo * |s|
  {
    if |s| > 0 {
      var n := |s| - 1;
      SumOfAtLeast(s[..n], f, lo);
      if forall k :: 0 <= k < |s| ==> f(s[k]) >= lo {
        assert forall k :: 0 <= k < n ==> s[..n][k] == s[k];
        assert lo * |s| == lo * n + lo;
      }
    }
  }
}
