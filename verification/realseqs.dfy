/** Sums, sortedness and ascending sorting over sequences of reals: the
    array primitives (`sum`, `np.sort`) the forecasting code relies on. */
module RealSeqs {

  /** Sum of a sequence, peeling the last element. */
  function Sum(s: seq<real>): real
  {
    if |s| == 0 then 0.0 else Sum(s[..|s| - 1]) + s[|s| - 1]
  }

  lemma {:induction false} SumAppend(s: seq<real>, x: real)
    ensures Sum(s + [x]) == Sum(s) + x
  {
    assert (s + [x])[..|s|] == s;
  }

  lemma {:induction false} SumNonNegative(s: seq<real>)
    requires forall i :: 0 <= i < |s| ==> s[i] >= 0.0
    ensures Sum(s) >= 0.0
  {
    if |s| > 0 {
      SumNonNegative(s[..|s| - 1]);
    }
  }

  /** Ascending order, stated pairwise. */
  predicate Sorted(s: seq<real>)
  {
    forall i, j :: 0 <= i < j < |s| ==> s[i] <= s[j]
  }

  /** Places `x` in front of the first element not smaller than it. */
  function Insert(x: real, s: seq<real>): (r: seq<real>)
    requires Sorted(s)
    ensures Sorted(r)
    ensures multiset(r) == multiset(s) + multiset{x}
    ensures |r| == |s| + 1
  {
    if |s| == 0 then [x]
    else if x <= s[0] then [x] + s
    else
      var t := Insert(x, s[1..]);
      assert s == [s[0]] + s[1..];
      LowerBoundKept(s[0], t, s[1..], x);
      PrependSorted(s[0], t);
      [s[0]] + t
  }

  /** A lower bound of `u` and of `x` bounds every element of a sequence
      holding exactly `u` and `x`. */
  lemma LowerBoundKept(a: real, t: seq<real>, u: seq<real>, x: real)
    requires multiset(t) == multiset(u) + multiset{x}
    requires a <= x && forall k :: 0 <= k < |u| ==> a <= u[k]
    ensures forall k :: 0 <= k < |t| ==> a <= t[k]
  {
    forall k | 0 <= k < |t|
      ensures a <= t[k]
    {
      assert t[k] in multiset(t);
      if t[k] != x {
        assert t[k] in multiset(u);
        var m :| 0 <= m < |u| && u[m] == t[k];
      }
    }
  }

  lemma PrependSorted(a: real, t: seq<real>)
    requires Sorted(t) && forall k :: 0 <= k < |t| ==> a <= t[k]
    ensures Sorted([a] + t)
  {
    forall i, j | 0 <= i < j < |t| + 1
      ensures ([a] + t)[i] <= ([a] + t)[j]
    {
      if i > 0 {
        assert ([a] + t)[i] == t[i - 1];
      }
      assert ([a] + t)[j] == t[j - 1];
    }
  }

  /** Ascending sort: a sorted permutation of the input. */
  function Sort(s: seq<real>): (r: seq<real>)
    ensures Sorted(r)
    ensures multiset(r) == multiset(s)
    ensures |r| == |s|
  {
    if |s| == 0 then []
    else
      assert s == [s[0]] + s[1..];
      Insert(s[0], Sort(s[1..]))
  }

  /** The least element of a non-empty sorted sequence comes first. */
  lemma FirstIsLeast(s: seq<real>, x: real)
    requires Sorted(s) && x in multiset(s)
    ensures s[0] <= x
  {
    var k :| 0 <= k < |s| && s[k] == x;
  }

  /** A sorted arrangement of a multiset is unique, so anything computed from
      the sorted sample does not depend on the order of the input. */
  lemma {:induction false} SortedUnique(a: seq<real>, b: seq<real>)
    requires Sorted(a) && Sorted(b)
    requires multiset(a) == multiset(b)
    ensures a == b
  {
    if |a| == 0 {
      assert |multiset(b)| == 0;
    } else {
      assert |b| == |multiset(b)| == |multiset(a)| == |a|;
      assert a[0] in multiset(b);
      FirstIsLeast(b, a[0]);
      assert b[0] in multiset(a);
      FirstIsLeast(a, b[0]);
      assert a[0] == b[0];
      assert a == [a[0]] + a[1..];
      assert b == [b[0]] + b[1..];
      assert multiset(a) == multiset{a[0]} + multiset(a[1..]);
      assert multiset(b) == multiset{b[0]} + multiset(b[1..]);
      assert multiset(a[1..]) == multiset(a) - multiset{a[0]};
      assert multiset(b[1..]) == multiset(b) - multiset{b[0]};
      SortedUnique(a[1..], b[1..]);
    }
  }

  /** Sorting two permutations of one sample gives the same sequence. */
  lemma SortPermutationInvariant(a: seq<real>, b: seq<real>)
    requires multiset(a) == multiset(b)
    ensures Sort(a) == Sort(b)
  {
    SortedUnique(Sort(a), Sort(b));
  }

  /** Number of entries at most `bound`. */
  function CountAtMost(s: seq<real>, bound: real): (r: nat)
    ensures r <= |s|
  {
    if |s| == 0 then 0
    else CountAtMost(s[..|s| - 1], bound) + (if s[|s| - 1] <= bound then 1 else 0)
  }

  /** Number of entries strictly above `bound`. */
  function CountAbove(s: seq<real>, bound: real): (r: nat)
    ensures r <= |s|
  {
    if |s| == 0 then 0
    else CountAbove(s[..|s| - 1], bound) + (if s[|s| - 1] > bound then 1 else 0)
  }

  /** Largest entry of a non-empty sequence (`ndarray.max`). */
  function Max(s: seq<real>): (r: real)
    requires |s| > 0
    ensures r in s
    ensures forall i :: 0 <= i < |s| ==> s[i] <= r
  {
    if |s| == 1 then s[0]
    else
      var m := Max(s[..|s| - 1]);
      assert forall i :: 0 <= i < |s| - 1 ==> s[..|s| - 1][i] == s[i];
      if s[|s| - 1] > m then s[|s| - 1] else m
  }

  /** No entry exceeds the bound exactly when the largest entry meets it:
      the two readings of "this path finishes in time" agree. */
  lemma {:induction false} MaxWithinIffNoneAbove(s: seq<real>, bound: real)
    requires |s| > 0
    ensures Max(s) <= bound <==> CountAbove(s, bound) == 0
  {
    NoneAboveIffAllWithin(s, bound);
  }

  lemma {:induction false} NoneAboveIffAllWithin(s: seq<real>, bound: real)
    ensures CountAbove(s, bound) == 0 <==> forall i :: 0 <= i < |s| ==> s[i] <= bound
  {
    if |s| > 0 {
      var p := s[..|s| - 1];
      NoneAboveIffAllWithin(p, bound);
      assert forall i :: 0 <= i < |p| ==> p[i] == s[i];
    }
  }

  function Abs(x: real): real
  {
    if x < 0.0 then -x else x
  }

  /** Sum of `f` over the entries of `s`, peeling the last element. */
  function SumOf(f: real -> real, s: seq<real>): real
  {
    if |s| == 0 then 0.0 else SumOf(f, s[..|s| - 1]) + f(s[|s| - 1])
  }

  lemma {:induction false} SumOfAppend(f: real -> real, s: seq<real>, x: real)
    ensures SumOf(f, s + [x]) == SumOf(f, s) + f(x)
  {
    assert (s + [x])[..|s|] == s;
  }

  lemma {:induction false} SumOfNonNegative(f: real -> real, s: seq<real>)
    requires forall i :: 0 <= i < |s| ==> f(s[i]) >= 0.0
    ensures SumOf(f, s) >= 0.0
  {
    if |s| > 0 {
      SumOfNonNegative(f, s[..|s| - 1]);
    }
  }

  /** Two functions that agree on the entries of `s` have the same sum. */
  lemma {:induction false} SumOfPointwise(f: real -> real, g: real -> real, s: seq<real>)
    requires forall i :: 0 <= i < |s| ==> f(s[i]) == g(s[i])
    ensures SumOf(f, s) == SumOf(g, s)
  {
    if |s| > 0 {
      SumOfPointwise(f, g, s[..|s| - 1]);
    }
  }

  /** Taking one entry out of the sum. */
  lemma {:induction false} SumOfRemove(f: real -> real, s: seq<real>, k: nat)
    requires k < |s|
    ensures SumOf(f, s) == SumOf(f, s[..k] + s[k + 1..]) + f(s[k])
    decreases |s|
  {
    var last := |s| - 1;
    var p := s[..last];
    if k == last {
      assert s[..k] + s[k + 1..] == p;
    } else {
      SumOfRemove(f, p, k);
      assert s[..k] + s[k + 1..] == (p[..k] + p[k + 1..]) + [s[last]];
      SumOfAppend(f, p[..k] + p[k + 1..], s[last]);
    }
  }

  /** A sum over the entries does not depend on their order. */
  lemma {:induction false} SumOfPermutation(f: real -> real, a: seq<real>, b: seq<real>)
    requires multiset(a) == multiset(b)
    ensures SumOf(f, a) == SumOf(f, b)
    decreases |a|
  {
    if |a| == 0 {
      assert |b| == |multiset(b)| == 0;
    } else {
      var last := |a| - 1;
      var x := a[last];
      assert a == a[..last] + [x];
      assert x in multiset(b);
      var k :| 0 <= k < |b| && b[k] == x;
      var rest := b[..k] + b[k + 1..];
      assert b == b[..k] + [b[k]] + b[k + 1..];
      assert multiset(rest) == multiset(b) - multiset{x};
      assert multiset(a[..last]) == multiset(a) - multiset{x};
      SumOfPermutation(f, a[..last], rest);
      SumOfRemove(f, b, k);
    }
  }

  /** Sign facts about products of reals, kept apart so that each nonlinear
      step is proved once, in a small context. */
  lemma NonNegativeProduct(a: real, b: real)
    requires 0.0 <= a && 0.0 <= b
    ensures 0.0 <= a * b
  {
  }

  lemma PositiveProduct(a: real, b: real)
    requires a > 0.0 && b > 0.0
    ensures a * b > 0.0
  {
  }

  lemma NonNegativeSquare(d: real)
    ensures d * d >= 0.0
  {
    if d < 0.0 {
      PositiveProduct(-d, -d);
      assert d * d == (-d) * (-d);
    } else if d > 0.0 {
      PositiveProduct(d, d);
    }
  }
}
