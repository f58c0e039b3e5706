/** The two statistics the resampler computes per bucket: the arithmetic mean and the standard median. */
module Stats {

  function Sum(s: seq<real>): real {
    if s == [] then 0.0 else s[0] + Sum(s[1..])
  }

  function Min(s: seq<real>): (m: real)
    requires s != []
    ensures m in s && forall x :: x in s ==> m <= x
  {
    if |s| == 1 then s[0]
    else
      var m := Min(s[1..]);
      assert forall x :: x in s ==> x == s[0] || x in s[1..];
      if s[0] <= m then s[0] else m
  }

  function Max(s: seq<real>): (m: real)
    requires s != []
    ensures m in s && forall x :: x in s ==> x <= m
  {
    if |s| == 1 then s[0]
    else
      var m := Max(s[1..]);
      assert forall x :: x in s ==> x == s[0] || x in s[1..];
      if s[0] >= m then s[0] else m
  }

  /** The arithmetic mean (pandas `mean`). */
  function Mean(s: seq<real>): real
    requires s != []
  {
    Sum(s) / |s| as real
  }

  predicate Sorted(s: seq<real>) {
    forall i, j :: 0 <= i < j < |s| ==> s[i] <= s[j]
  }

  function InsertSorted(x: real, s: seq<real>): (r: seq<real>)
    requires Sorted(s)
    ensures Sorted(r) && multiset(r) == multiset(s) + multiset{x}
  {
    if s == [] || x <= s[0] then
      SortedCons(x, s);
      [x] + s
    else
      var t := InsertSorted(x, s[1..]);
      assert s == [s[0]] + s[1..];
      LowerBound(s[0], x, s[1..], t);
      SortedCons(s[0], t);
      [s[0]] + t
  }

  /** A value no larger than the first of a sorted sequence can be put in front of it. */
  lemma SortedCons(x: real, s: seq<real>)
    requires Sorted(s) && (s != [] ==> x <= s[0])
    ensures Sorted([x] + s)
  {
    var r := [x] + s;
    forall i, j | 0 <= i < j < |r|
      ensures r[i] <= r[j]
    {
      assert r[j] == s[j - 1];
      if i > 0 {
        assert r[i] == s[i - 1];
      }
    }
  }

  /** A rearrangement of `u` plus `x` starts with a value at least any lower bound of `u` and `x`. */
  lemma LowerBound(lo: real, x: real, u: seq<real>, t: seq<real>)
    requires lo <= x && forall i :: 0 <= i < |u| ==> lo <= u[i]
    requires multiset(t) == multiset(u) + multiset{x}
    ensures t != [] ==> lo <= t[0]
  {
    if t != [] {
      assert t[0] in multiset(t);
      if t[0] != x {
        assert t[0] in multiset(u);
        var k :| 0 <= k < |u| && u[k] == t[0];
      }
    }
  }

  /** Ascending order of the values (insertion sort). */
  function Sort(s: seq<real>): (r: seq<real>)
    ensures Sorted(r) && multiset(r) == multiset(s)
  {
    if s == [] then []
    else
      assert s == [s[0]] + s[1..];
      InsertSorted(s[0], Sort(s[1..]))
  }

  /** The standard median (pandas `median`): the middle value, or the mean of the two middle values. */
  function Median(s: seq<real>): real
    requires s != []
  {
    var t := Sort(s);
    assert |t| == |multiset(t)| == |s|;
    Middle(t)
  }

  /** The middle element of a sequence of odd length, or the mean of the two middle elements. */
  function Middle(t: seq<real>): real
    requires t != []
  {
    var n := |t|;
    if n % 2 == 1 then t[n / 2] else (t[n / 2 - 1] + t[n / 2]) / 2.0
  }

  lemma {:induction false} SumBounds(s: seq<real>, lo: real, hi: real)
    requires forall x :: x in s ==> lo <= x <= hi
    ensures |s| as real * lo <= Sum(s) <= |s| as real * hi
  {
    if s != [] {
      var tail := s[1..];
      assert s[0] in s;
      assert forall x :: x in tail ==> x in s;
      SumBounds(tail, lo, hi);
      assert Sum(s) == s[0] + Sum(tail);
      SumStep(|tail| as real, lo, hi, Sum(tail), s[0], Sum(s));
    }
  }

  /** Adding one value within `[lo, hi]` to a sum of `n` such values. */
  lemma SumStep(n: real, lo: real, hi: real, t: real, x: real, total: real)
    requires n * lo <= t <= n * hi && lo <= x <= hi && total == x + t
    ensures (n + 1.0) * lo <= total <= (n + 1.0) * hi
  {
    OneMore(n, lo);
    OneMore(n, hi);
  }

  lemma OneMore(n: real, x: real)
    ensures (n + 1.0) * x == n * x + x
  {
  }

  /** The mean lies between the smallest and the largest value. */
  lemma MeanBounds(s: seq<real>)
    requires s != []
    ensures Min(s) <= Mean(s) <= Max(s)
  {
    SumBounds(s, Min(s), Max(s));
    QuotientBounds(Sum(s), |s| as real, Min(s), Max(s));
  }

  lemma QuotientBounds(total: real, n: real, lo: real, hi: real)
    requires n > 0.0 && n * lo <= total <= n * hi
    ensures lo <= total / n <= hi
  {
    var q := total / n;
    assert q * n == total;
  }

  /** The median lies between the smallest and the largest value. */
  lemma MedianBounds(s: seq<real>)
    requires s != []
    ensures Min(s) <= Median(s) <= Max(s)
  {
    var t := Sort(s);
    var lo, hi := Min(s), Max(s);
    assert |t| == |s| by {
      assert |t| == |multiset(t)|;
    }
    forall i | 0 <= i < |t|
      ensures lo <= t[i] <= hi
    {
      InSortedIsIn(s, i);
    }
    MiddleBounds(t, lo, hi);
  }

  /** The middle of values that all lie in `[lo, hi]` lies there too. */
  lemma MiddleBounds(t: seq<real>, lo: real, hi: real)
    requires t != [] && forall i :: 0 <= i < |t| ==> lo <= t[i] <= hi
    ensures lo <= Middle(t) <= hi
  {
    var n := |t|;
    assert lo <= t[n / 2] <= hi;
    if n % 2 == 0 {
      assert lo <= t[n / 2 - 1] <= hi;
    }
  }

  /** Every position of the sorted values holds one of the values. */
  lemma InSortedIsIn(s: seq<real>, i: nat)
    requires i < |s|
    ensures |Sort(s)| == |s| && Sort(s)[i] in s
  {
    var t := Sort(s);
    assert |t| == |multiset(t)|;
    assert t[i] in multiset(t);
  }

  /** Two sorted orderings of the same values are the same sequence. */
  lemma {:induction false} SortedUnique(a: seq<real>, b: seq<real>)
    requires Sorted(a) && Sorted(b) && multiset(a) == multiset(b)
    ensures a == b
  {
    if a == [] {
      assert |multiset(b)| == 0;
    } else {
      SortedHeads(a, b);
      SortedTail(a);
      SortedTail(b);
      TailMultiset(a);
      TailMultiset(b);
      SortedUnique(a[1..], b[1..]);
      SameHeadAndTail(a, b);
    }
  }

  lemma SameHeadAndTail(a: seq<real>, b: seq<real>)
    requires a != [] && b != [] && a[0] == b[0] && a[1..] == b[1..]
    ensures a == b
  {
    assert a == [a[0]] + a[1..];
    assert b == [b[0]] + b[1..];
  }

  /** Two sorted orderings of the same values start with the same (smallest) value. */
  lemma SortedHeads(a: seq<real>, b: seq<real>)
    requires a != [] && Sorted(a) && Sorted(b) && multiset(a) == multiset(b)
    ensures b != [] && a[0] == b[0]
  {
    assert a[0] in multiset(b);
    var i :| 0 <= i < |b| && b[i] == a[0];
    assert b[0] in multiset(a);
    var j :| 0 <= j < |a| && a[j] == b[0];
    assert a[0] <= a[j];
    assert b[0] <= b[i];
  }

  lemma SortedTail(a: seq<real>)
    requires a != [] && Sorted(a)
    ensures Sorted(a[1..])
  {
    forall i, j | 0 <= i < j < |a[1..]|
      ensures a[1..][i] <= a[1..][j]
    {
      assert a[1..][i] == a[i + 1] && a[1..][j] == a[j + 1];
    }
  }

  lemma TailMultiset(a: seq<real>)
    requires a != []
    ensures multiset(a[1..]) == multiset(a) - multiset{a[0]}
  {
    assert a == [a[0]] + a[1..];
  }

  /** The median does not depend on the order of the values. */
  lemma MedianOfPermutation(a: seq<real>, b: seq<real>)
    requires a != [] && multiset(a) == multiset(b)
    ensures b != [] && Median(a) == Median(b)
  {
    assert |a| == |multiset(a)| == |b|;
    SortedUnique(Sort(a), Sort(b));
  }

  lemma {:induction false} SumAppend(a: seq<real>, b: seq<real>)
    ensures Sum(a + b) == Sum(a) + Sum(b)
  {
    if a == [] {
      assert a + b == b;
    } else {
      assert (a + b)[0] == a[0];
      assert (a + b)[1..] == a[1..] + b;
      SumAppend(a[1..], b);
    }
  }

  lemma {:induction false} SumOfPermutation(a: seq<real>, b: seq<real>)
    requires multiset(a) == multiset(b)
    ensures Sum(a) == Sum(b)
    decreases |a|
  {
    assert |a| == |multiset(a)| == |b|;
    if a != [] {
      assert a == [a[0]] + a[1..];
      assert a[0] in multiset(b);
      var k :| 0 <= k < |b| && b[k] == a[0];
      var rest := b[..k] + b[k + 1..];
      SumRemove(b, k);
      assert multiset(rest) == multiset(b) - multiset{b[k]} by {
        assert b == b[..k] + [b[k]] + b[k + 1..];
      }
      SumOfPermutation(a[1..], rest);
    }
  }

  lemma SumRemove(b: seq<real>, k: nat)
    requires k < |b|
    ensures Sum(b) == b[k] + Sum(b[..k] + b[k + 1..])
  {
    var pre, post := b[..k], b[k + 1..];
    var mid := [b[k]] + post;
    assert b == pre + mid;
    SumAppend(pre, mid);
    SumCons(b[k], post);
    SumAppend(pre, post);
  }

  lemma SumCons(x: real, t: seq<real>)
    ensures Sum([x] + t) == x + Sum(t)
  {
    assert ([x] + t)[1..] == t;
  }

  /** The mean does not depend on the order of the values. */
  lemma MeanOfPermutation(a: seq<real>, b: seq<real>)
    requires a != [] && multiset(a) == multiset(b)
    ensures b != [] && Mean(a) == Mean(b)
  {
    assert |a| == |multiset(a)| == |b|;
    SumOfPermutation(a, b);
  }

  /** A bucket holding one value has that value as its mean and its median. */
  lemma SingletonStats(x: real)
    ensures Mean([x]) == x && Median([x]) == x
  {
    assert Sum([x]) == x + Sum([]);
  }

  /** A bucket holding two values has their midpoint as its mean and its median. */
  lemma PairStats(x: real, y: real)
    ensures Mean([x, y]) == (x + y) / 2.0 && Median([x, y]) == (x + y) / 2.0
  {
    assert Sum([x, y]) == x + Sum([y]);
    assert Sum([y]) == y + Sum([]);
    var t := Sort([x, y]);
    assert |t| == |multiset(t)| == 2;
    assert multiset(t) == multiset{x, y};
    assert t[0] in multiset(t) && t[1] in multiset(t);
    assert t[0] + t[1] == x + y by {
      if t[0] == x { assert multiset{t[1]} == multiset(t) - multiset{t[0]}; }
      else { assert t[0] == y; assert multiset{t[1]} == multiset(t) - multiset{t[0]}; }
    }
  }
}
