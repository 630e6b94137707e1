/**
 Sequence helpers shared by the projections: `Array.prototype.filter`,
 subsequence, duplicate-freedom, first-seen deduplication and a left-fold sum.
 */
module Seqs {

  /** `a` can be obtained from `b` by deleting elements (order is kept). */
  predicate SubseqOf<T(==)>(a: seq<T>, b: seq<T>)
    decreases |b|
  {
    |a| == 0 ||
    (|b| > 0 &&
     ((a[0] == b[0] && SubseqOf(a[1..], b[1..])) || SubseqOf(a, b[1..])))
  }

  /** No element occurs twice. */
  predicate NoDup<T(==)>(s: seq<T>) {
    forall i, j :: 0 <= i < j < |s| ==> s[i] != s[j]
  }

  /** The elements of `s` that satisfy `p`, in their original order. */
  function Filter<T>(s: seq<T>, p: T -> bool): (r: seq<T>)
    ensures |r| <= |s|
    ensures forall i :: 0 <= i < |r| ==> r[i] in s && p(r[i])
    ensures forall i :: 0 <= i < |s| && p(s[i]) ==> s[i] in r
    ensures SubseqOf(r, s)
  {
    if |s| == 0 then []
    else if p(s[0]) then [s[0]] + Filter(s[1..], p)
    else Filter(s[1..], p)
  }

  /** Filtering a sequence with a known first element. */
  lemma {:induction false} FilterCons<T>(x: T, t: seq<T>, p: T -> bool)
    ensures Filter([x] + t, p) == if p(x) then [x] + Filter(t, p) else Filter(t, p)
  {
    assert ([x] + t)[0] == x && ([x] + t)[1..] == t;
  }

  /** Filtering by `p` and by its complement `q` splits `s` without loss or duplication. */
  lemma {:induction false} FilterPartition<T>(s: seq<T>, p: T -> bool, q: T -> bool)
    requires forall i :: 0 <= i < |s| ==> q(s[i]) == !p(s[i])
    ensures multiset(Filter(s, p)) + multiset(Filter(s, q)) == multiset(s)
  {
    if |s| > 0 {
      var x, t := s[0], s[1..];
      assert forall i :: 0 <= i < |t| ==> t[i] == s[i + 1];
      FilterPartition(t, p, q);
      assert s == [x] + t;
      FilterCons(x, t, p);
      FilterCons(x, t, q);
      PartitionStep(x, t, Filter(t, p), Filter(t, q), p(x));
    }
  }

  /** Adding `x` to one side of a split of `t` splits `[x] + t`. */
  lemma PartitionStep<T>(x: T, t: seq<T>, a: seq<T>, b: seq<T>, left: bool)
    requires multiset(a) + multiset(b) == multiset(t)
    ensures left ==> multiset([x] + a) + multiset(b) == multiset([x] + t)
    ensures !left ==> multiset(a) + multiset([x] + b) == multiset([x] + t)
  {
  }

  /** The two halves of a partition have the original length between them. */
  lemma {:induction false} FilterPartitionLength<T>(s: seq<T>, p: T -> bool, q: T -> bool)
    requires forall i :: 0 <= i < |s| ==> q(s[i]) == !p(s[i])
    ensures |Filter(s, p)| + |Filter(s, q)| == |s|
  {
    FilterPartition(s, p, q);
    assert |multiset(Filter(s, p)) + multiset(Filter(s, q))| == |multiset(s)|;
  }

  /** Two predicates that agree on the elements of `s` filter it identically. */
  lemma {:induction false} FilterCongruent<T>(s: seq<T>, p: T -> bool, q: T -> bool)
    requires forall x :: x in s ==> p(x) == q(x)
    ensures Filter(s, p) == Filter(s, q)
  {
    if |s| > 0 {
      assert forall x :: x in s[1..] ==> x in s;
      FilterCongruent(s[1..], p, q);
    }
  }

  /** Filtering keeps every element exactly when every element satisfies `p`. */
  lemma {:induction false} FilterKeepsAll<T>(s: seq<T>, p: T -> bool)
    ensures |Filter(s, p)| == |s| <==> forall x :: x in s ==> p(x)
    ensures (forall x :: x in s ==> p(x)) ==> Filter(s, p) == s
  {
    if |s| > 0 {
      FilterKeepsAll(s[1..], p);
      assert forall x :: x in s[1..] ==> x in s;
      assert s[0] in s;
      if !p(s[0]) {
        assert |Filter(s, p)| <= |s[1..]|;
      }
      if forall x :: x in s ==> p(x) {
        assert s == [s[0]] + s[1..];
      }
    }
  }

  /** Filtering drops everything exactly when no element satisfies `p`. */
  lemma {:induction false} FilterKeepsNone<T>(s: seq<T>, p: T -> bool)
    ensures |Filter(s, p)| == 0 <==> forall x :: x in s ==> !p(x)
  {
    if exists x :: x in s && p(x) {
      var x :| x in s && p(x);
      assert x in Filter(s, p);
    }
  }

  /** Filtering keeps every copy of an element it keeps: `x` occurs in the
      result as often as in `s` when `p(x)`, and not at all otherwise. */
  lemma {:induction false} FilterMultiplicity<T>(s: seq<T>, p: T -> bool, x: T)
    ensures multiset(Filter(s, p))[x] == if p(x) then multiset(s)[x] else 0
  {
    if |s| > 0 {
      var h, t := s[0], s[1..];
      FilterMultiplicity(t, p, x);
      assert s == [h] + t;
      FilterCons(h, t, p);
      assert multiset(s)[x] == multiset([h])[x] + multiset(t)[x];
      if p(h) {
        assert multiset(Filter(s, p))[x] == multiset([h])[x] + multiset(Filter(t, p))[x];
      } else {
        assert multiset(Filter(s, p))[x] == multiset(Filter(t, p))[x];
        assert p(x) ==> multiset([h])[x] == 0;
      }
    }
  }

  /** Filtering distributes over concatenation. */
  lemma {:induction false} FilterAppend<T>(a: seq<T>, b: seq<T>, p: T -> bool)
    ensures Filter(a + b, p) == Filter(a, p) + Filter(b, p)
  {
    if |a| > 0 {
      assert (a + b)[0] == a[0] && (a + b)[1..] == a[1..] + b;
      FilterAppend(a[1..], b, p);
    } else {
      assert a + b == b;
    }
  }

  /** The total of a sequence of numbers. */
  function Sum(s: seq<int>): (r: int) {
    if |s| == 0 then 0 else s[0] + Sum(s[1..])
  }

  /** The total of a concatenation is the sum of the totals. */
  lemma {:induction false} SumAppend(a: seq<int>, b: seq<int>)
    ensures Sum(a + b) == Sum(a) + Sum(b)
  {
    if |a| > 0 {
      assert (a + b)[0] == a[0] && (a + b)[1..] == a[1..] + b;
      SumAppend(a[1..], b);
    } else {
      assert a + b == b;
    }
  }

  /** Extending a prefix by one element adds that element to its total, as
      each step of `reduce((acc, v) => acc + v, 0)` does. */
  lemma {:induction false} SumPrefixStep(s: seq<int>, i: nat)
    requires i < |s|
    ensures Sum(s[..i + 1]) == Sum(s[..i]) + s[i]
  {
    assert s[..i + 1] == s[..i] + [s[i]];
    SumAppend(s[..i], [s[i]]);
  }

  /**
   Distinct elements of `s` in the order of their first occurrence, as the
   keys of a JavaScript object filled left to right come out.
   */
  function FirstSeen<T(==)>(s: seq<T>): (r: seq<T>)
    ensures NoDup(r)
    ensures forall i :: 0 <= i < |r| ==> r[i] in s
    ensures forall i :: 0 <= i < |s| ==> s[i] in r
  {
    if |s| == 0 then []
    else
      var d := FirstSeen(s[..|s| - 1]);
      if s[|s| - 1] in d then d else d + [s[|s| - 1]]
  }
}
