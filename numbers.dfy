/** The three summary statistics of utils/estatisticas.py: `calcular_media`,
    `calcular_mediana` and `calcular_moda`, over exact reals. */
module Numbers {
  import opened Base

  function Sum(s: seq<real>): real {
    if |s| == 0 then 0.0 else Sum(s[..|s| - 1]) + s[|s| - 1]
  }

  /** `calcular_media`: `statistics.mean` of a non-empty list, 0 otherwise. */
  function Mean(s: seq<real>): real {
    if |s| == 0 then 0.0 else Sum(s) / (|s| as real)
  }

  predicate Between(s: seq<real>, lo: real, hi: real) {
    forall i :: 0 <= i < |s| ==> lo <= s[i] <= hi
  }

  lemma {:induction false} SumBetween(s: seq<real>, lo: real, hi: real)
    requires Between(s, lo, hi)
    ensures (|s| as real) * lo <= Sum(s) <= (|s| as real) * hi
  {
    if |s| > 0 {
      var n := |s| - 1;
      SumBetween(s[..n], lo, hi);
      assert lo <= s[n] <= hi;
      assert (|s| as real) * lo == (n as real) * lo + lo;
      assert (|s| as real) * hi == (n as real) * hi + hi;
    }
  }

  /** The mean of a non-empty list lies between any bounds of its elements
      (in particular between its minimum and its maximum). */
  lemma MeanBetween(s: seq<real>, lo: real, hi: real)
    requires |s| > 0 && Between(s, lo, hi)
    ensures lo <= Mean(s) <= hi
  {
    SumBetween(s, lo, hi);
    var n := |s| as real;
    assert Mean(s) * n == Sum(s);
  }

  /** The mean of a list of one repeated value is that value. */
  lemma {:induction false} MeanOfConstant(s: seq<real>, v: real)
    requires |s| > 0 && forall i :: 0 <= i < |s| ==> s[i] == v
    ensures Mean(s) == v
  {
    SumBetween(s, v, v);
  }

  // ---------------------------------------------------------------------
  // Median over a sorted copy

  predicate Sorted(s: seq<real>) {
    forall i, j :: 0 <= i < j < |s| ==> s[i] <= s[j]
  }

  lemma MultisetSplitHead(a: seq<real>)
    requires |a| > 0
    ensures multiset(a) == multiset{a[0]} + multiset(a[1..])
  {
    assert a == [a[0]] + a[1..];
  }

  /** A lower bound of a list and of one more value bounds every element of
      any arrangement of them together. */
  lemma LowerBoundOfPermutation(a: seq<real>, b: seq<real>, x: real, lo: real)
    requires multiset(a) == multiset(b) + multiset{x}
    requires lo <= x && forall i :: 0 <= i < |b| ==> lo <= b[i]
    ensures forall k :: 0 <= k < |a| ==> lo <= a[k]
  {
    forall k | 0 <= k < |a| ensures lo <= a[k] {
      assert a[k] in multiset(a);
      if a[k] != x {
        assert a[k] in multiset(b);
      }
    }
  }

  function Insert(x: real, s: seq<real>): (r: seq<real>)
    requires Sorted(s)
    ensures Sorted(r) && multiset(r) == multiset(s) + multiset{x}
  {
    if |s| == 0 then [x]
    else if x <= s[0] then [x] + s
    else
      var rest := Insert(x, s[1..]);
      MultisetSplitHead(s);
      LowerBoundOfPermutation(rest, s[1..], x, s[0]);
      [s[0]] + rest
  }

  /** `sorted(values)`: an ascending arrangement of the same elements. */
  function SortedCopy(s: seq<real>): (r: seq<real>)
    ensures Sorted(r) && multiset(r) == multiset(s)
  {
    if |s| == 0 then []
    else
      assert s == s[..|s| - 1] + [s[|s| - 1]];
      Insert(s[|s| - 1], SortedCopy(s[..|s| - 1]))
  }

  /** A middle element of a sorted list, or the mean of the two middle ones. */
  function Middle(t: seq<real>): real
    requires |t| > 0
  {
    var n := |t|;
    if n % 2 == 1 then t[n / 2] else (t[n / 2 - 1] + t[n / 2]) / 2.0
  }

  /** `calcular_mediana`: `statistics.median` of a non-empty list, 0 otherwise. */
  function Median(s: seq<real>): real {
    if |s| == 0 then 0.0 else Middle(SortedCopy(s))
  }

  lemma SortedHeadIsLeast(a: seq<real>, x: real)
    requires Sorted(a) && x in multiset(a)
    ensures |a| > 0 && a[0] <= x
  {
    var i :| 0 <= i < |a| && a[i] == x;
  }

  /** Two ascending arrangements of the same elements start alike. */
  lemma SortedSameHead(a: seq<real>, b: seq<real>)
    requires Sorted(a) && Sorted(b) && multiset(a) == multiset(b) && |a| > 0
    ensures |b| > 0 && a[0] == b[0]
  {
    assert a[0] in multiset(a);
    SortedHeadIsLeast(b, a[0]);
    assert b[0] in multiset(b);
    SortedHeadIsLeast(a, b[0]);
  }

  lemma SameHeadTails(a: seq<real>, b: seq<real>)
    requires multiset(a) == multiset(b) && |a| > 0 && |b| > 0 && a[0] == b[0]
    ensures multiset(a[1..]) == multiset(b[1..])
  {
    MultisetSplitHead(a);
    MultisetSplitHead(b);
    assert multiset(a[1..]) == multiset(a) - multiset{a[0]};
    assert multiset(b[1..]) == multiset(b) - multiset{b[0]};
  }

  /** Two ascending arrangements of the same elements are the same list. */
  lemma {:induction false} SortedPermutationUnique(a: seq<real>, b: seq<real>)
    requires Sorted(a) && Sorted(b) && multiset(a) == multiset(b)
    ensures a == b
    decreases |a|
  {
    if |a| > 0 {
      SortedSameHead(a, b);
      SameHeadTails(a, b);
      SortedPermutationUnique(a[1..], b[1..]);
      assert a == [a[0]] + a[1..];
      assert b == [b[0]] + b[1..];
    } else {
      assert |multiset(b)| == 0;
    }
  }

  /** The median is the middle of ANY ascending arrangement of the list. */
  lemma MedianOfArrangement(s: seq<real>, t: seq<real>)
    requires |s| > 0 && Sorted(t) && multiset(t) == multiset(s)
    ensures |t| == |s| && Median(s) == Middle(t)
  {
    SortedPermutationUnique(SortedCopy(s), t);
  }

  /** The median does not depend on the order of the input. */
  lemma MedianIgnoresOrder(s: seq<real>, u: seq<real>)
    requires multiset(s) == multiset(u)
    ensures Median(s) == Median(u)
  {
    assert |s| == |u| by {
      assert |multiset(s)| == |s| && |multiset(u)| == |u|;
    }
    if |s| > 0 {
      MedianOfArrangement(u, SortedCopy(s));
    }
  }

  /** The median of a non-empty list lies between any bounds of its elements. */
  lemma MedianBetween(s: seq<real>, lo: real, hi: real)
    requires |s| > 0 && Between(s, lo, hi)
    ensures lo <= Median(s) <= hi
  {
    var t := SortedCopy(s);
    assert |t| == |s| by {
      assert |multiset(t)| == |t| && |multiset(s)| == |s|;
    }
    forall k | 0 <= k < |t| ensures lo <= t[k] <= hi {
      assert t[k] in multiset(s);
    }
  }

  /** Median([1, 2, 3, 4]) is 2.5: the mean of the two middle values. */
  lemma MedianEvenExample(t: seq<real>)
    requires t == [1.0, 2.0, 3.0, 4.0]
    ensures Median(t) == 2.5
  {
    assert Middle(t) == 2.5;
    assert Sorted(t);
    MedianOfArrangement(t, t);
  }

  /** Median([3, 1, 2]) is 2: the middle of the sorted copy, not of the input. */
  lemma MedianOddExample(s: seq<real>)
    requires s == [3.0, 1.0, 2.0]
    ensures Median(s) == 2.0
  {
    var t := [s[1], s[2], s[0]];
    assert multiset(t) == multiset(s) by {
      assert s == [s[0]] + [s[1]] + [s[2]];
    }
    assert Sorted(t);
    MedianOfArrangement(s, t);
  }

  // ---------------------------------------------------------------------
  // Mode: Python 3.8+ `statistics.mode` returns the value of highest
  // frequency, the first encountered on ties, and raises only on empty data.

  function ModeIndex(s: seq<real>, i: nat, k: nat): (r: nat)
    requires k < i <= |s|
    requires forall j :: 0 <= j < i ==> Occurrences(s, s[j]) <= Occurrences(s, s[k])
    requires forall j :: 0 <= j < k ==> Occurrences(s, s[j]) < Occurrences(s, s[k])
    ensures r < |s|
    ensures forall j :: 0 <= j < |s| ==> Occurrences(s, s[j]) <= Occurrences(s, s[r])
    ensures forall j :: 0 <= j < r ==> Occurrences(s, s[j]) < Occurrences(s, s[r])
    decreases |s| - i
  {
    if i == |s| then k
    else if Occurrences(s, s[i]) > Occurrences(s, s[k]) then ModeIndex(s, i + 1, i)
    else ModeIndex(s, i + 1, k)
  }

  /** `calcular_moda`: None stands for the text 'Sem moda'. */
  function Mode(s: seq<real>): (r: Option<real>)
    ensures r.None? <==> |s| == 0
    ensures r.Some? ==> r.value in s
    ensures r.Some? ==> forall j :: 0 <= j < |s| ==> Occurrences(s, s[j]) <= Occurrences(s, r.value)
    ensures r.Some? ==> exists k :: 0 <= k < |s| && s[k] == r.value &&
                          forall j :: 0 <= j < k ==> Occurrences(s, s[j]) < Occurrences(s, r.value)
  {
    if |s| == 0 then None else Some(s[ModeIndex(s, 1, 0)])
  }

  /** The three properties of Mode pin its result down: no other value is as
      frequent and occurs first. */
  lemma ModeUnique(s: seq<real>, m: real, k: nat)
    requires 0 <= k < |s| && s[k] == m
    requires forall j :: 0 <= j < |s| ==> Occurrences(s, s[j]) <= Occurrences(s, m)
    requires forall j :: 0 <= j < k ==> Occurrences(s, s[j]) < Occurrences(s, m)
    ensures Mode(s) == Some(m)
  {
    var r := Mode(s).value;
    var k' :| 0 <= k' < |s| && s[k'] == r &&
              forall j :: 0 <= j < k' ==> Occurrences(s, s[j]) < Occurrences(s, r);
    assert Occurrences(s, s[k]) == Occurrences(s, s[k']);
    assert !(k < k') && !(k' < k);
  }

  /** On a tie the first value reached wins: the mode of [1, 1, 2, 2, 3] is 1. */
  lemma ModeTieExample(s: seq<real>)
    requires s == [1.0, 1.0, 2.0, 2.0, 3.0]
    ensures Mode(s) == Some(1.0)
  {
    assert multiset(s) == multiset{1.0, 1.0, 2.0, 2.0, 3.0};
    ModeUnique(s, 1.0, 0);
  }

  /** The most frequent value wins even when it is not the first: the mode of
      [3, 2, 2] is 2. */
  lemma ModeMostFrequentExample(s: seq<real>)
    requires s == [3.0, 2.0, 2.0]
    ensures Mode(s) == Some(2.0)
  {
    assert multiset(s) == multiset{3.0, 2.0, 2.0};
    ModeUnique(s, 2.0, 1);
  }
}
