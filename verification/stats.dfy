/**
 * The two reductions the scorer applies: `np.median` of a band's residuals
 * and `np.mean` of the per-band accuracies.
 */
module Stats {
  import opened Grid

  predicate Sorted(s: seq<real>) {
    forall i, j :: 0 <= i < j < |s| ==> s[i] <= s[j]
  }

  /** Inserts `x` into the sorted sequence `s`, keeping it sorted. */
  function Insert(x: real, s: seq<real>): (r: seq<real>)
    requires Sorted(s)
    ensures Sorted(r)
    ensures multiset(r) == multiset(s) + multiset{x}
  {
    if |s| == 0 then [x]
    else if x <= s[0] then [x] + s
    else
      assert s == [s[0]] + s[1..];
      var t := Insert(x, s[1..]);
      BoundedAbove(t, s[1..], x, s[0]);
      SortedCons(s[0], t);
      [s[0]] + t
  }

  /** Putting a lower bound of a sorted sequence in front keeps it sorted. */
  lemma SortedCons(a: real, t: seq<real>)
    requires Sorted(t)
    requires forall k :: 0 <= k < |t| ==> a <= t[k]
    ensures Sorted([a] + t)
  {
    var r := [a] + t;
    forall i, j | 0 <= i < j < |r|
      ensures r[i] <= r[j]
    {
      assert r[j] == t[j - 1];
      if i > 0 {
        assert r[i] == t[i - 1];
      }
    }
  }

  /** A rearrangement of `u` plus `x` keeps every lower bound of `u` and `x`. */
  lemma BoundedAbove(t: seq<real>, u: seq<real>, x: real, lo: real)
    requires multiset(t) == multiset(u) + multiset{x}
    requires lo <= x && forall k :: 0 <= k < |u| ==> lo <= u[k]
    ensures forall k :: 0 <= k < |t| ==> lo <= t[k]
  {
    forall k | 0 <= k < |t|
      ensures lo <= t[k]
    {
      assert t[k] in multiset(t);
      if t[k] != x {
        assert t[k] in multiset(u);
      }
    }
  }

  /** The ascending rearrangement of `xs` that `np.median` reads its middle from. */
  function Sort(xs: seq<real>): (s: seq<real>)
    ensures Sorted(s)
    ensures multiset(s) == multiset(xs)
  {
    if |xs| == 0 then []
    else
      assert xs == [xs[0]] + xs[1..];
      Insert(xs[0], Sort(xs[1..]))
  }

  /** The middle of an already sorted sequence, as `np.median` reads it. */
  function MiddleOf(s: seq<real>): Option<real> {
    if |s| == 0 then None
    else if |s| % 2 == 1 then Some(s[|s| / 2])
    else Some((s[|s| / 2 - 1] + s[|s| / 2]) / 2.0)
  }

  /**
   * `np.median`: the middle element of the sorted values, or the mean of the
   * two middle elements when there is an even number of them. numpy's median
   * of no values is NaN; here it is `None`.
   */
  function Median(xs: seq<real>): (m: Option<real>)
    ensures m.None? <==> |xs| == 0
    ensures m.Some? && |xs| % 2 == 1 ==> m.value in xs
    ensures m.Some? && |xs| % 2 == 0 ==>
      exists a, b :: a in xs && b in xs && a <= m.value <= b && m.value == (a + b) / 2.0
  {
    var s := Sort(xs);
    var n := |s|;
    assert |s| == |xs| by {
      assert |multiset(s)| == |s| && |multiset(xs)| == |xs|;
    }
    assert n > 0 ==> s[n / 2] in multiset(xs);
    assert n > 0 && n % 2 == 0 ==> s[n / 2 - 1] in multiset(xs) && s[n / 2 - 1] <= s[n / 2];
    assert n > 0 && n % 2 == 0 ==> s[n / 2 - 1] in xs && s[n / 2] in xs;
    MiddleOf(s)
  }

  /** A median is bounded by any bounds on all the values. */
  lemma MedianWithin(xs: seq<real>, lo: real, hi: real)
    requires |xs| > 0
    requires forall k :: 0 <= k < |xs| ==> lo <= xs[k] <= hi
    ensures Median(xs).Some?
    ensures lo <= Median(xs).value <= hi
  {
    var s := Sort(xs);
    forall k | 0 <= k < |s|
      ensures lo <= s[k] <= hi
    {
      assert s[k] in multiset(xs);
      var t :| 0 <= t < |xs| && xs[t] == s[k];
    }
  }

  /** The median of values that all equal `v` is `v`. */
  lemma MedianConstant(xs: seq<real>, v: real)
    requires |xs| > 0
    requires forall k :: 0 <= k < |xs| ==> xs[k] == v
    ensures Median(xs) == Some(v)
  {
    MedianWithin(xs, v, v);
  }

  /** The median lies between the least and the greatest value. */
  lemma MedianBetweenExtremes(xs: seq<real>)
    requires |xs| > 0
    ensures exists i, j :: 0 <= i < |xs| && 0 <= j < |xs| && xs[i] <= Median(xs).value <= xs[j]
  {
    var s := Sort(xs);
    assert |s| == |xs| by {
      assert |multiset(s)| == |s| && |multiset(xs)| == |xs|;
    }
    MiddleWithin(s);
    assert s[0] in multiset(xs) && s[|s| - 1] in multiset(xs);
    var i :| 0 <= i < |xs| && xs[i] == s[0];
    var j :| 0 <= j < |xs| && xs[j] == s[|s| - 1];
  }

  /** The middle of a sorted sequence lies between its first and last elements. */
  lemma MiddleWithin(s: seq<real>)
    requires Sorted(s) && |s| > 0
    ensures MiddleOf(s).Some? && s[0] <= MiddleOf(s).value <= s[|s| - 1]
  {
    var n := |s|;
    assert s[0] <= s[n / 2] <= s[n - 1];
    assert n % 2 == 0 ==> s[0] <= s[n / 2 - 1] <= s[n - 1];
  }

  /** Two sorted arrangements of the same values are the same sequence. */
  lemma {:induction false} SortedUnique(a: seq<real>, b: seq<real>)
    requires Sorted(a) && Sorted(b)
    requires multiset(a) == multiset(b)
    ensures a == b
    decreases |a|
  {
    assert |a| == |b| by {
      assert |multiset(a)| == |a| && |multiset(b)| == |b|;
    }
    if |a| > 0 {
      SortedHeadsEqual(a, b);
      MultisetTail(a);
      MultisetTail(b);
      SortedTail(a);
      SortedTail(b);
      SortedUnique(a[1..], b[1..]);
      assert a == [a[0]] + a[1..];
      assert b == [b[0]] + b[1..];
    }
  }

  /** Sorted arrangements of the same non-empty values start with the same (least) value. */
  lemma SortedHeadsEqual(a: seq<real>, b: seq<real>)
    requires Sorted(a) && Sorted(b)
    requires multiset(a) == multiset(b) && |a| == |b| > 0
    ensures a[0] == b[0]
  {
    assert a[0] in multiset(b);
    assert b[0] in multiset(a);
    var i :| 0 <= i < |b| && b[i] == a[0];
    var j :| 0 <= j < |a| && a[j] == b[0];
  }

  lemma MultisetTail(a: seq<real>)
    requires |a| > 0
    ensures multiset(a[1..]) == multiset(a) - multiset{a[0]}
  {
    assert a == [a[0]] + a[1..];
    assert multiset(a) == multiset{a[0]} + multiset(a[1..]);
  }

  lemma SortedTail(s: seq<real>)
    requires Sorted(s) && |s| > 0
    ensures Sorted(s[1..])
  {
    forall i, j | 0 <= i < j < |s| - 1
      ensures s[1..][i] <= s[1..][j]
    {
      assert s[1..][i] == s[i + 1] && s[1..][j] == s[j + 1];
    }
  }

  /** The median depends only on the multiset of values, not on their order. */
  /**
   * The median is the middle of every ascending arrangement of the values:
   * the middle element for an odd count, the mean of the two middle ones for
   * an even count.
   */
  lemma MedianOfSorted(xs: seq<real>, s: seq<real>)
    requires Sorted(s) && multiset(s) == multiset(xs)
    ensures Median(xs) == MiddleOf(s)
  {
    SortedUnique(Sort(xs), s);
  }

  /** The median of 5, 1, 1 is the middle order statistic 1, not the first value. */
  lemma MedianPicksMiddle()
    ensures Median([5.0, 1.0, 1.0]) == Some(1.0)
  {
    var xs := [5.0, 1.0, 1.0];
    var s := [1.0, 1.0, 5.0];
    assert multiset(s) == multiset(xs);
    MedianOfSorted(xs, s);
  }

  lemma MedianPermutationInvariant(xs: seq<real>, ys: seq<real>)
    requires multiset(xs) == multiset(ys)
    ensures Median(xs) == Median(ys)
  {
    SortedUnique(Sort(xs), Sort(ys));
  }

  function Sum(xs: seq<real>): real {
    if |xs| == 0 then 0.0 else xs[0] + Sum(xs[1..])
  }

  /** `np.mean` of a non-empty list. */
  function Mean(xs: seq<real>): (m: real)
    requires |xs| > 0
    ensures m * |xs| as real == Sum(xs)
    ensures (forall k :: 0 <= k < |xs| ==> xs[k] == xs[0]) ==> m == xs[0]
  {
    var n := |xs| as real;
    assert (forall k :: 0 <= k < |xs| ==> xs[k] == xs[0]) ==> Sum(xs) == n * xs[0] by {
      if forall k :: 0 <= k < |xs| ==> xs[k] == xs[0] {
        SumAtMost(xs, xs[0]);
        SumAtLeast(xs, xs[0]);
      }
    }
    Sum(xs) / n
  }

  lemma {:induction false} SumAtMost(xs: seq<real>, hi: real)
    requires forall k :: 0 <= k < |xs| ==> xs[k] <= hi
    ensures Sum(xs) <= |xs| as real * hi
  {
    if |xs| > 0 {
      SumAtMost(xs[1..], hi);
    }
  }

  lemma {:induction false} SumAtLeast(xs: seq<real>, lo: real)
    requires forall k :: 0 <= k < |xs| ==> lo <= xs[k]
    ensures |xs| as real * lo <= Sum(xs)
  {
    if |xs| > 0 {
      SumAtLeast(xs[1..], lo);
    }
  }

  /** The mean of values within bounds is within the same bounds. */
  lemma MeanWithin(xs: seq<real>, lo: real, hi: real)
    requires |xs| > 0
    requires forall k :: 0 <= k < |xs| ==> lo <= xs[k] <= hi
    ensures lo <= Mean(xs) <= hi
  {
    SumAtMost(xs, hi);
    SumAtLeast(xs, lo);
    var n := |xs| as real;
    DivBounds(Sum(xs), n, lo, hi);
  }

  lemma DivBounds(s: real, n: real, lo: real, hi: real)
    requires n > 0.0
    requires n * lo <= s <= n * hi
    ensures lo <= s / n <= hi
  {
    assert s / n * n == s;
  }

  /** A sum of values at most `hi` reaches `|xs| * hi` only if every value is `hi`. */
  lemma {:induction false} SumAtTop(xs: seq<real>, hi: real)
    requires forall k :: 0 <= k < |xs| ==> xs[k] <= hi
    requires Sum(xs) == |xs| as real * hi
    ensures forall k :: 0 <= k < |xs| ==> xs[k] == hi
  {
    if |xs| > 0 {
      SumAtMost(xs[1..], hi);
      assert xs[0] == hi;
      SumAtTop(xs[1..], hi);
      forall k | 1 <= k < |xs|
        ensures xs[k] == hi
      {
        assert xs[k] == xs[1..][k - 1];
      }
    }
  }

  /**
   * The mean of values bounded by `hi` equals `hi` exactly when every value
   * equals `hi`.
   */
  lemma MeanAtTopIff(xs: seq<real>, hi: real)
    requires |xs| > 0
    requires forall k :: 0 <= k < |xs| ==> xs[k] <= hi
    ensures Mean(xs) == hi <==> forall k :: 0 <= k < |xs| ==> xs[k] == hi
  {
    var n := |xs| as real;
    if Mean(xs) == hi {
      assert Sum(xs) == Sum(xs) / n * n;
      SumAtTop(xs, hi);
    }
    if forall k :: 0 <= k < |xs| ==> xs[k] == hi {
      SumAtMost(xs, hi);
      SumAtLeast(xs, hi);
      DivCancel(Sum(xs), hi, n);
    }
  }
}
