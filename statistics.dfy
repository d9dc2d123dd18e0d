/** The five statistics `mcp-json-analyzer` offers, on exact reals: Python's
    `sum`, `min` and `max` builtins and `statistics.mean` and
    `statistics.median`. */
module Statistics {

  predicate IsSorted(xs: seq<real>)
  {
    forall i, j :: 0 <= i < j < |xs| ==> xs[i] <= xs[j]
  }

  /** `sum(xs)`: 0 for the empty list. */
  function Sum(xs: seq<real>): real
  {
    if xs == [] then 0.0 else xs[0] + Sum(xs[1..])
  }

  /** `min(xs)`: an element of `xs` no larger than any other. */
  function Min(xs: seq<real>): (m: real)
    requires xs != []
    ensures m in xs
    ensures forall i :: 0 <= i < |xs| ==> m <= xs[i]
  {
    if |xs| == 1 then xs[0]
    else
      var rest := Min(xs[1..]);
      assert forall i :: 1 <= i < |xs| ==> xs[i] == xs[1..][i - 1];
      if rest < xs[0] then rest else xs[0]
  }

  /** `max(xs)`: an element of `xs` no smaller than any other. */
  function Max(xs: seq<real>): (m: real)
    requires xs != []
    ensures m in xs
    ensures forall i :: 0 <= i < |xs| ==> xs[i] <= m
  {
    if |xs| == 1 then xs[0]
    else
      var rest := Max(xs[1..]);
      assert forall i :: 1 <= i < |xs| ==> xs[i] == xs[1..][i - 1];
      if rest > xs[0] then rest else xs[0]
  }

  /** `statistics.mean(xs)`: the sum divided by the count. */
  function Mean(xs: seq<real>): (m: real)
    requires xs != []
    ensures m * (|xs| as real) == Sum(xs)
  {
    Sum(xs) / (|xs| as real)
  }

  /** `x` inserted into sorted `xs` before the first element not smaller. */
  function Insert(x: real, xs: seq<real>): (r: seq<real>)
    requires IsSorted(xs)
    ensures IsSorted(r)
    ensures multiset(r) == multiset(xs) + multiset{x}
    ensures r[0] == x || r[0] == xs[0]
  {
    if xs == [] || x <= xs[0] then
      SortedCons(x, xs);
      [x] + xs
    else
      SortedTail(xs);
      var rest := Insert(x, xs[1..]);
      InsertBehindHead(x, xs, rest);
      [xs[0]] + rest
  }

  /** The step of `Insert` that keeps the head: `x` went into the tail. */
  lemma InsertBehindHead(x: real, xs: seq<real>, rest: seq<real>)
    requires IsSorted(xs) && xs != [] && xs[0] < x
    requires IsSorted(rest) && multiset(rest) == multiset(xs[1..]) + multiset{x}
    requires rest[0] == x || rest[0] == xs[1..][0]
    ensures IsSorted([xs[0]] + rest)
    ensures multiset([xs[0]] + rest) == multiset(xs) + multiset{x}
  {
    assert xs[0] <= rest[0];
    SortedCons(xs[0], rest);
    MultisetTail(xs);
  }

  /** `sorted(xs)`: the ascending permutation of `xs`. */
  function Sort(xs: seq<real>): (r: seq<real>)
    ensures IsSorted(r)
    ensures multiset(r) == multiset(xs)
    ensures |r| == |xs|
  {
    if xs == [] then []
    else
      assert xs == [xs[0]] + xs[1..];
      var r := Insert(xs[0], Sort(xs[1..]));
      assert |r| == |multiset(r)| == |multiset(xs)| == |xs|;
      r
  }

  /** `statistics.median(xs)`: the middle of the sorted list, or the average
      of the two middle values when the length is even. */
  function Median(xs: seq<real>): (m: real)
    requires xs != []
    ensures |xs| % 2 == 1 ==> m in xs
  {
    var s := Sort(xs);
    assert |xs| % 2 == 1 ==> s[|s| / 2] in multiset(s);
    Middle(s)
  }

  /** The middle element of a list of odd length; the average of the two
      middle elements of a list of even length. */
  function Middle(s: seq<real>): real
    requires s != []
  {
    var n := |s|;
    if n % 2 == 1 then s[n / 2] else (s[n / 2 - 1] + s[n / 2]) / 2.0
  }

  lemma SortedTail(xs: seq<real>)
    requires IsSorted(xs) && xs != []
    ensures IsSorted(xs[1..])
  {
    forall i, j | 0 <= i < j < |xs| - 1
      ensures xs[1..][i] <= xs[1..][j]
    {
      assert xs[1..][i] == xs[i + 1] && xs[1..][j] == xs[j + 1];
    }
  }

  lemma SortedCons(h: real, xs: seq<real>)
    requires IsSorted(xs) && (xs != [] ==> h <= xs[0])
    ensures IsSorted([h] + xs)
  {
    var r := [h] + xs;
    forall i, j | 0 <= i < j < |r|
      ensures r[i] <= r[j]
    {
      assert r[j] == xs[j - 1];
      if i > 0 {
        assert r[i] == xs[i - 1];
      } else {
        assert xs[0] <= xs[j - 1];
      }
    }
  }

  lemma MultisetTail(a: seq<real>)
    requires a != []
    ensures multiset(a[1..]) == multiset(a) - multiset{a[0]}
  {
    assert a == [a[0]] + a[1..];
  }

  lemma SortedHeadIsLeast(a: seq<real>, x: real)
    requires IsSorted(a) && x in multiset(a)
    ensures a != [] && a[0] <= x
  {
    var i :| 0 <= i < |a| && a[i] == x;
  }

  /** Two non-empty sorted lists with the same elements start alike and
      continue with sorted tails holding the same elements. */
  lemma HeadsAndTails(a: seq<real>, b: seq<real>)
    requires IsSorted(a) && IsSorted(b)
    requires multiset(a) == multiset(b)
    requires a != [] && b != []
    ensures a[0] == b[0] && multiset(a[1..]) == multiset(b[1..])
    ensures IsSorted(a[1..]) && IsSorted(b[1..])
  {
    assert a[0] in multiset(a) && b[0] in multiset(b);
    SortedHeadIsLeast(a, b[0]);
    SortedHeadIsLeast(b, a[0]);
    MultisetTail(a);
    MultisetTail(b);
    SortedTail(a);
    SortedTail(b);
  }

  /** Two sorted lists holding the same elements are the same list: sorting
      has only one possible result. */
  lemma {:induction false} SortedUnique(a: seq<real>, b: seq<real>)
    requires IsSorted(a) && IsSorted(b)
    requires multiset(a) == multiset(b)
    ensures a == b
  {
    if a != [] && b != [] {
      HeadsAndTails(a, b);
      SortedUnique(a[1..], b[1..]);
      assert a == [a[0]] + a[1..] && b == [b[0]] + b[1..];
    } else {
      assert |a| == |multiset(a)| == |multiset(b)| == |b|;
    }
  }

  /** Sorting depends only on the elements, not on their order. */
  lemma SortPermutation(xs: seq<real>, ys: seq<real>)
    requires multiset(xs) == multiset(ys)
    ensures Sort(xs) == Sort(ys)
  {
    SortedUnique(Sort(xs), Sort(ys));
  }

  lemma {:induction false} SumInsert(x: real, xs: seq<real>)
    requires IsSorted(xs)
    ensures Sum(Insert(x, xs)) == x + Sum(xs)
  {
    if xs != [] && x > xs[0] {
      SumInsert(x, xs[1..]);
      assert ([xs[0]] + Insert(x, xs[1..]))[1..] == Insert(x, xs[1..]);
    }
  }

  lemma {:induction false} SumSort(xs: seq<real>)
    ensures Sum(Sort(xs)) == Sum(xs)
  {
    if xs != [] {
      SumSort(xs[1..]);
      SumInsert(xs[0], Sort(xs[1..]));
    }
  }

  /** `sum` does not depend on the order of the list. */
  lemma SumPermutation(xs: seq<real>, ys: seq<real>)
    requires multiset(xs) == multiset(ys)
    ensures Sum(xs) == Sum(ys)
  {
    SumSort(xs);
    SumSort(ys);
    SortPermutation(xs, ys);
  }

  /** `min` and `max` do not depend on the order of the list. */
  lemma MinMaxPermutation(xs: seq<real>, ys: seq<real>)
    requires xs != [] && multiset(xs) == multiset(ys)
    ensures ys != [] && Min(xs) == Min(ys) && Max(xs) == Max(ys)
  {
    assert |ys| == |multiset(ys)| == |xs|;
    var a, b := Min(xs), Min(ys);
    assert a in multiset(ys) && b in multiset(xs);
    var c, d := Max(xs), Max(ys);
    assert c in multiset(ys) && d in multiset(xs);
  }

  /** `statistics.median` does not depend on the order of the list. */
  lemma MedianPermutation(xs: seq<real>, ys: seq<real>)
    requires xs != [] && multiset(xs) == multiset(ys)
    ensures ys != [] && Median(xs) == Median(ys)
  {
    SortPermutation(xs, ys);
    assert |ys| == |Sort(ys)| == |Sort(xs)| == |xs|;
  }

  /** `statistics.mean` does not depend on the order of the list. */
  lemma MeanPermutation(xs: seq<real>, ys: seq<real>)
    requires xs != [] && multiset(xs) == multiset(ys)
    ensures ys != [] && Mean(xs) == Mean(ys)
  {
    assert |ys| == |multiset(ys)| == |multiset(xs)| == |xs|;
    SumPermutation(xs, ys);
  }

  /** The median lies between the minimum and the maximum. */
  lemma MedianBounds(xs: seq<real>)
    requires xs != []
    ensures Min(xs) <= Median(xs) <= Max(xs)
  {
    var s := Sort(xs);
    forall i | 0 <= i < |s|
      ensures Min(xs) <= s[i] <= Max(xs)
    {
      assert s[i] in multiset(s);
    }
    MiddleBetween(s, Min(xs), Max(xs));
  }

  lemma MiddleBetween(s: seq<real>, lo: real, hi: real)
    requires s != []
    requires forall i :: 0 <= i < |s| ==> lo <= s[i] <= hi
    ensures lo <= Middle(s) <= hi
  {
  }

  lemma {:induction false} SumBounds(xs: seq<real>, lo: real, hi: real)
    requires forall i :: 0 <= i < |xs| ==> lo <= xs[i] <= hi
    ensures (|xs| as real) * lo <= Sum(xs) <= (|xs| as real) * hi
  {
    if xs != [] {
      assert forall i :: 0 <= i < |xs[1..]| ==> xs[1..][i] == xs[i + 1];
      SumBounds(xs[1..], lo, hi);
      var m := (|xs| - 1) as real;
      assert (|xs| as real) == m + 1.0;
      assert (m + 1.0) * lo == m * lo + lo;
      assert (m + 1.0) * hi == m * hi + hi;
    }
  }

  /** The mean lies between the minimum and the maximum. */
  lemma MeanBounds(xs: seq<real>)
    requires xs != []
    ensures Min(xs) <= Mean(xs) <= Max(xs)
  {
    MeanBetween(xs, Min(xs), Max(xs));
  }

  lemma MeanBetween(xs: seq<real>, lo: real, hi: real)
    requires xs != []
    requires forall i :: 0 <= i < |xs| ==> lo <= xs[i] <= hi
    ensures lo <= Mean(xs) <= hi
  {
    SumBounds(xs, lo, hi);
    QuotientBounds(Sum(xs), |xs| as real, lo, hi);
  }

  lemma QuotientBounds(s: real, n: real, lo: real, hi: real)
    requires n > 0.0 && n * lo <= s <= n * hi
    ensures lo <= s / n <= hi
  {
    var q := s / n;
    assert s == n * q;
    assert n * lo <= n * q <= n * hi;
  }

  /** How many elements of `xs` are at most `v`. */
  function CountAtMost(xs: seq<real>, v: real): nat
  {
    if xs == [] then 0 else (if xs[0] <= v then 1 else 0) + CountAtMost(xs[1..], v)
  }

  /** How many elements of `xs` are at least `v`. */
  function CountAtLeast(xs: seq<real>, v: real): nat
  {
    if xs == [] then 0 else (if xs[0] >= v then 1 else 0) + CountAtLeast(xs[1..], v)
  }

  /** Both counts of a list with `x` in front. */
  lemma CountCons(x: real, xs: seq<real>, v: real)
    ensures CountAtMost([x] + xs, v) == (if x <= v then 1 else 0) + CountAtMost(xs, v)
    ensures CountAtLeast([x] + xs, v) == (if x >= v then 1 else 0) + CountAtLeast(xs, v)
  {
    assert ([x] + xs)[1..] == xs;
  }

  /** Inserting `x` adds it to the counts it belongs to. */
  lemma {:induction false} CountInsert(x: real, xs: seq<real>, v: real)
    requires IsSorted(xs)
    ensures CountAtMost(Insert(x, xs), v) == (if x <= v then 1 else 0) + CountAtMost(xs, v)
    ensures CountAtLeast(Insert(x, xs), v) == (if x >= v then 1 else 0) + CountAtLeast(xs, v)
  {
    if xs == [] || x <= xs[0] {
      CountCons(x, xs, v);
    } else {
      SortedTail(xs);
      CountInsert(x, xs[1..], v);
      CountCons(xs[0], Insert(x, xs[1..]), v);
      CountCons(xs[0], xs[1..], v);
      assert xs == [xs[0]] + xs[1..];
    }
  }

  /** Sorting keeps both counts. */
  lemma {:induction false} CountSort(xs: seq<real>, v: real)
    ensures CountAtMost(Sort(xs), v) == CountAtMost(xs, v)
    ensures CountAtLeast(Sort(xs), v) == CountAtLeast(xs, v)
  {
    if xs != [] {
      CountSort(xs[1..], v);
      CountInsert(xs[0], Sort(xs[1..]), v);
    }
  }

  /** When the first `k` elements are at most `v`, at least `k` are counted. */
  lemma {:induction false} CountAtMostPrefix(xs: seq<real>, k: nat, v: real)
    requires k <= |xs|
    requires forall i :: 0 <= i < k ==> xs[i] <= v
    ensures CountAtMost(xs, v) >= k
  {
    if k > 0 {
      assert forall i :: 0 <= i < k - 1 ==> xs[1..][i] == xs[i + 1];
      CountAtMostPrefix(xs[1..], k - 1, v);
    }
  }

  /** When every element from index `k` on is at least `v`, at least
      `|xs| - k` are counted. */
  lemma {:induction false} CountAtLeastSuffix(xs: seq<real>, k: nat, v: real)
    requires k <= |xs|
    requires forall i :: k <= i < |xs| ==> xs[i] >= v
    ensures CountAtLeast(xs, v) >= |xs| - k
  {
    if xs != [] {
      if k == 0 {
        assert forall i :: 0 <= i < |xs| - 1 ==> xs[1..][i] == xs[i + 1];
        CountAtLeastSuffix(xs[1..], 0, v);
      } else {
        assert forall i :: k - 1 <= i < |xs| - 1 ==> xs[1..][i] == xs[i + 1];
        CountAtLeastSuffix(xs[1..], k - 1, v);
      }
    }
  }

  /** The middle of a sorted list has at least half of the list at or below
      it and at least half at or above it. */
  lemma MiddleHalves(s: seq<real>)
    requires s != [] && IsSorted(s)
    ensures 2 * CountAtMost(s, Middle(s)) >= |s|
    ensures 2 * CountAtLeast(s, Middle(s)) >= |s|
  {
    var n, m := |s|, Middle(s);
    var h := n / 2;
    if n % 2 == 1 {
      CountAtMostPrefix(s, h + 1, m);
      CountAtLeastSuffix(s, h, m);
    } else {
      assert s[h - 1] <= m <= s[h];
      CountAtMostPrefix(s, h, m);
      CountAtLeastSuffix(s, h, m);
    }
  }

  /** What makes the median a median: at least half of the list is at or
      below it and at least half is at or above it. */
  lemma MedianHalves(xs: seq<real>)
    requires xs != []
    ensures 2 * CountAtMost(xs, Median(xs)) >= |xs|
    ensures 2 * CountAtLeast(xs, Median(xs)) >= |xs|
  {
    MiddleHalves(Sort(xs));
    CountSort(xs, Median(xs));
  }

  /** The sum of two lists one after the other is the sum of their sums. */
  lemma {:induction false} SumAppend(xs: seq<real>, ys: seq<real>)
    ensures Sum(xs + ys) == Sum(xs) + Sum(ys)
  {
    if xs == [] {
      assert xs + ys == ys;
    } else {
      assert (xs + ys)[1..] == xs[1..] + ys;
      SumAppend(xs[1..], ys);
    }
  }
}
