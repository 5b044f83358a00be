/** The two-sample Kolmogorov-Smirnov statistic of the drift detector. */
module Drift {

  function Abs(x: real): real { if x < 0.0 then -x else x }

  // ---- Sorting and searching ----

  predicate IsSorted(s: seq<real>) { forall i, j :: 0 <= i < j < |s| ==> s[i] <= s[j] }

  function Insert(x: real, s: seq<real>): seq<real>
    decreases |s|
  {
    if s == [] then [x] else if x <= s[0] then [x] + s else [s[0]] + Insert(x, s[1..])
  }

  function Sort(s: seq<real>): seq<real>
    decreases |s|
  {
    if s == [] then [] else Insert(s[|s| - 1], Sort(s[..|s| - 1]))
  }

  lemma {:induction false} InsertKeeps(x: real, s: seq<real>)
    ensures multiset(Insert(x, s)) == multiset(s) + multiset{x} && |Insert(x, s)| == |s| + 1
    decreases |s|
  {
    if s != [] && x > s[0] {
      assert s == [s[0]] + s[1..];
      InsertKeeps(x, s[1..]);
    }
  }

  lemma {:induction false} InsertSorts(x: real, s: seq<real>)
    requires IsSorted(s)
    ensures Insert(x, s) != [] && Insert(x, s)[0] == if s == [] || x <= s[0] then x else s[0]
    ensures IsSorted(Insert(x, s))
    decreases |s|
  {
    if s == [] {
    } else if x <= s[0] {
      Prepended(x, s);
    } else {
      InsertSorts(x, s[1..]);
      Prepended(s[0], Insert(x, s[1..]));
    }
  }

  lemma Prepended(x: real, s: seq<real>)
    requires IsSorted(s) && (s != [] ==> x <= s[0])
    ensures IsSorted([x] + s)
  {}

  lemma {:induction false} SortSorts(s: seq<real>)
    ensures IsSorted(Sort(s)) && multiset(Sort(s)) == multiset(s) && |Sort(s)| == |s|
    decreases |s|
  {
    if s != [] {
      var n := |s| - 1;
      assert s == s[..n] + [s[n]];
      SortSorts(s[..n]);
      InsertSorts(s[n], Sort(s[..n]));
      InsertKeeps(s[n], Sort(s[..n]));
    }
  }

  /** `searchsorted(side="right")`: how many leading values are at most x. */
  function SearchRight(s: seq<real>, x: real): (r: nat)
    ensures r <= |s|
    decreases |s|
  {
    if s == [] || s[0] > x then 0 else 1 + SearchRight(s[1..], x)
  }

  // ---- The statistic, on the samples ----

  function GapAt(reference: seq<real>, current: seq<real>, x: real): real
    requires reference != [] && current != []
  {
    Abs(SearchRight(reference, x) as real / |reference| as real - SearchRight(current, x) as real / |current| as real)
  }

  /** The largest gap over the grid. */
  function MaxGap(reference: seq<real>, current: seq<real>, grid: seq<real>): (r: real)
    requires reference != [] && current != [] && grid != []
    ensures exists i :: 0 <= i < |grid| && r == GapAt(reference, current, grid[i])
    ensures forall i :: 0 <= i < |grid| ==> GapAt(reference, current, grid[i]) <= r
    decreases |grid|
  {
    var n := |grid| - 1;
    var here := GapAt(reference, current, grid[n]);
    if n == 0 then here
    else
      var rest := MaxGap(reference, current, grid[..n]);
      if here > rest then here else rest
  }

  function KsStatistic(reference: seq<real>, current: seq<real>): real {
    if reference == [] || current == [] then 0.0
    else
      SortSorts(reference);
      SortSorts(current);
      MaxGap(Sort(reference), Sort(current), Sort(reference) + Sort(current))
  }

  // ---- The definition, on all reals ----

  function CountLe(s: seq<real>, x: real): (r: nat)
    ensures r <= |s|
  {
    if s == [] then 0 else CountLe(s[..|s| - 1], x) + if s[|s| - 1] <= x then 1 else 0
  }

  /** The empirical distribution: the share of the sample at or below x. */
  function Cdf(s: seq<real>, x: real): real
    requires s != []
  {
    CountLe(s, x) as real / |s| as real
  }

  function Gap(reference: seq<real>, current: seq<real>, x: real): real
    requires reference != [] && current != []
  {
    Abs(Cdf(reference, x) - Cdf(current, x))
  }

  // ---- Counting ----

  lemma {:induction false} CountAppend(s: seq<real>, t: seq<real>, x: real)
    ensures CountLe(s + t, x) == CountLe(s, x) + CountLe(t, x)
  {
    if t == [] {
      assert s + t == s;
    } else {
      assert (s + t)[..|s + t| - 1] == s + t[..|t| - 1];
      CountAppend(s, t[..|t| - 1], x);
    }
  }

  lemma CountOne(y: real, x: real)
    ensures CountLe([y], x) == if y <= x then 1 else 0
  {
    assert [y][..0] == [];
  }

  /** Reordering a sample does not change its counts. */
  lemma {:induction false} CountPermutes(s: seq<real>, t: seq<real>, x: real)
    requires multiset(s) == multiset(t)
    ensures CountLe(s, x) == CountLe(t, x)
    decreases |s|
  {
    if s == [] {
      assert |multiset(t)| == 0;
    } else {
      var n, y := |s| - 1, s[|s| - 1];
      assert s == s[..n] + [y];
      assert y in multiset(t);
      var k :| 0 <= k < |t| && t[k] == y;
      var u := t[..k] + t[k + 1..];
      assert t == t[..k] + [y] + t[k + 1..];
      assert multiset(t) == multiset(t[..k]) + multiset{y} + multiset(t[k + 1..]);
      assert multiset(s) == multiset(s[..n]) + multiset{y};
      assert multiset(u) == multiset(t) - multiset{y};
      assert multiset(s[..n]) == multiset(s) - multiset{y};
      CountPermutes(s[..n], u, x);
      CountAppend(t[..k], t[k + 1..], x);
      CountAppend(t[..k] + [y], t[k + 1..], x);
      CountAppend(t[..k], [y], x);
      CountOne(y, x);
    }
  }

  lemma {:induction false} CountNone(s: seq<real>, x: real)
    requires forall i :: 0 <= i < |s| ==> s[i] > x
    ensures CountLe(s, x) == 0
  {
    if s != [] { CountNone(s[..|s| - 1], x); }
  }

  /** On a sorted sample the insertion point is the count. */
  lemma {:induction false} SearchCounts(s: seq<real>, x: real)
    requires IsSorted(s)
    ensures SearchRight(s, x) == CountLe(s, x)
    decreases |s|
  {
    if s != [] {
      assert s == [s[0]] + s[1..];
      CountAppend([s[0]], s[1..], x);
      CountOne(s[0], x);
      if s[0] > x { CountNone(s[1..], x); } else { SearchCounts(s[1..], x); }
    }
  }

  /** So what is evaluated at a point is the gap between the empirical distributions there. */
  lemma GapAtIsGap(reference: seq<real>, current: seq<real>, x: real)
    requires reference != [] && current != []
    ensures Sort(reference) != [] && Sort(current) != []
    ensures GapAt(Sort(reference), Sort(current), x) == Gap(reference, current, x)
  {
    SortSorts(reference);
    SortSorts(current);
    SearchCounts(Sort(reference), x);
    SearchCounts(Sort(current), x);
    CountPermutes(Sort(reference), reference, x);
    CountPermutes(Sort(current), current, x);
  }

  // ---- The supremum ----

  lemma {:induction false} CountSame(s: seq<real>, x: real, g: real)
    requires forall i :: 0 <= i < |s| ==> (s[i] <= x <==> s[i] <= g)
    ensures CountLe(s, x) == CountLe(s, g)
  {
    if s != [] { CountSame(s[..|s| - 1], x, g); }
  }

  /** The largest value at or below x, if there is one. */
  lemma {:induction false} LargestBelow(s: seq<real>, x: real) returns (k: int)
    ensures -1 <= k < |s|
    ensures k == -1 ==> forall i :: 0 <= i < |s| ==> s[i] > x
    ensures k >= 0 ==> s[k] <= x && forall i :: 0 <= i < |s| && s[i] <= x ==> s[i] <= s[k]
  {
    k := -1;
    for n := 0 to |s|
      invariant -1 <= k < n
      invariant k == -1 ==> forall i :: 0 <= i < n ==> s[i] > x
      invariant k >= 0 ==> s[k] <= x && forall i :: 0 <= i < n && s[i] <= x ==> s[i] <= s[k]
    {
      if s[n] <= x && (k == -1 || s[k] < s[n]) { k := n; }
    }
  }

  lemma GapBounds(reference: seq<real>, current: seq<real>, x: real)
    requires reference != [] && current != []
    ensures 0.0 <= Cdf(reference, x) <= 1.0 && 0.0 <= Cdf(current, x) <= 1.0
    ensures 0.0 <= Gap(reference, current, x) <= 1.0
  {
    Share(CountLe(reference, x), |reference|);
    Share(CountLe(current, x), |current|);
  }

  lemma Share(a: nat, n: nat)
    requires 0 < n && a <= n
    ensures 0.0 <= a as real / n as real <= 1.0
    ensures a as real / n as real == 0.0 <==> a == 0
    ensures a as real / n as real == 1.0 <==> a == n
  {
    var q := a as real / n as real;
    assert q * n as real == a as real;
  }

  /** Every real has a sample point with the same gap, or none of the samples at or below it. */
  lemma SamplePoint(reference: seq<real>, current: seq<real>, x: real) returns (k: int)
    requires reference != [] && current != []
    ensures -1 <= k < |reference + current|
    ensures k == -1 ==> Gap(reference, current, x) == 0.0
    ensures k >= 0 ==> Gap(reference, current, x) == Gap(reference, current, (reference + current)[k])
  {
    var grid := reference + current;
    k := LargestBelow(grid, x);
    assert forall i :: 0 <= i < |reference| ==> reference[i] == grid[i];
    assert forall i :: 0 <= i < |current| ==> current[i] == grid[|reference| + i];
    if k == -1 {
      CountNone(reference, x);
      CountNone(current, x);
    } else {
      CountSame(reference, x, grid[k]);
      CountSame(current, x, grid[k]);
    }
  }

  lemma SortedGrid(reference: seq<real>, current: seq<real>, y: real)
    ensures y in Sort(reference) + Sort(current) <==> y in reference + current
  {
    SortSorts(reference);
    SortSorts(current);
    assert y in Sort(reference) <==> y in multiset(Sort(reference));
    assert y in reference <==> y in multiset(reference);
    assert y in Sort(current) <==> y in multiset(Sort(current));
    assert y in current <==> y in multiset(current);
  }

  /** The statistic bounds the gap at every real, is the gap at some sample point, and lies in 0..1. */
  lemma KsIsSupremum(reference: seq<real>, current: seq<real>)
    requires reference != [] && current != []
    ensures forall x :: Gap(reference, current, x) <= KsStatistic(reference, current)
    ensures exists x :: x in reference + current && Gap(reference, current, x) == KsStatistic(reference, current)
    ensures 0.0 <= KsStatistic(reference, current) <= 1.0
  {
    SortSorts(reference);
    SortSorts(current);
    var r, c := Sort(reference), Sort(current);
    var ks, grid := KsStatistic(reference, current), r + c;
    var i :| 0 <= i < |grid| && ks == GapAt(r, c, grid[i]);
    GapAtIsGap(reference, current, grid[i]);
    SortedGrid(reference, current, grid[i]);
    assert grid[i] in reference + current && Gap(reference, current, grid[i]) == ks;
    GapBounds(reference, current, grid[i]);
    forall x ensures Gap(reference, current, x) <= ks {
      var k := SamplePoint(reference, current, x);
      if k >= 0 {
        var y := (reference + current)[k];
        SortedGrid(reference, current, y);
        var j :| 0 <= j < |grid| && grid[j] == y;
        GapAtIsGap(reference, current, y);
        assert GapAt(r, c, grid[j]) <= ks;
      }
    }
  }

  lemma GapSwaps(reference: seq<real>, current: seq<real>, x: real)
    requires reference != [] && current != []
    ensures Gap(reference, current, x) == Gap(current, reference, x)
  {
    var a, b := Cdf(reference, x), Cdf(current, x);
    assert Abs(a - b) == Abs(b - a);
  }

  lemma KsAtMost(reference: seq<real>, current: seq<real>, bound: real)
    requires reference != [] && current != [] && forall x :: Gap(reference, current, x) <= bound
    ensures KsStatistic(reference, current) <= bound
  {
    KsIsSupremum(reference, current);
  }

  lemma KsSwapped(reference: seq<real>, current: seq<real>)
    requires reference != [] && current != []
    ensures KsStatistic(reference, current) <= KsStatistic(current, reference)
  {
    forall x ensures Gap(reference, current, x) <= KsStatistic(current, reference) {
      GapSwaps(reference, current, x);
      KsIsSupremum(current, reference);
    }
    KsAtMost(reference, current, KsStatistic(current, reference));
  }

  /** The supremum is unique, so the statistic is symmetric in its samples. */
  lemma KsIsSymmetric(reference: seq<real>, current: seq<real>)
    ensures KsStatistic(reference, current) == KsStatistic(current, reference)
  {
    if reference != [] && current != [] {
      KsSwapped(reference, current);
      KsSwapped(current, reference);
    }
  }

  predicate AllBelow(s: seq<real>, t: seq<real>) {
    forall i, j :: 0 <= i < |s| && 0 <= j < |t| ==> s[i] < t[j]
  }

  lemma {:induction false} CountAll(s: seq<real>, x: real)
    ensures CountLe(s, x) == |s| <==> forall i :: 0 <= i < |s| ==> s[i] <= x
    ensures CountLe(s, x) == 0 <==> forall i :: 0 <= i < |s| ==> s[i] > x
  {
    if s != [] {
      var init := s[..|s| - 1];
      CountAll(init, x);
      assert forall i :: 0 <= i < |init| ==> init[i] == s[i];
      assert s[|s| - 1] in s;
    }
  }

  lemma {:induction false} GreatestOf(s: seq<real>) returns (k: nat)
    requires s != []
    ensures k < |s| && forall i :: 0 <= i < |s| ==> s[i] <= s[k]
  {
    k := 0;
    for n := 0 to |s|
      invariant k < |s| && forall i :: 0 <= i < n ==> s[i] <= s[k]
    {
      if s[n] > s[k] { k := n; }
    }
  }

  predicate SplitsAt(s: seq<real>, t: seq<real>, x: real) {
    (forall i :: 0 <= i < |s| ==> s[i] <= x) && (forall j :: 0 <= j < |t| ==> t[j] > x)
  }

  lemma GapOne(reference: seq<real>, current: seq<real>, x: real)
    requires reference != [] && current != []
    ensures Gap(reference, current, x) == 1.0 <==> SplitsAt(reference, current, x) || SplitsAt(current, reference, x)
  {
    GapBounds(reference, current, x);
    Share(CountLe(reference, x), |reference|);
    Share(CountLe(current, x), |current|);
    CountAll(reference, x);
    CountAll(current, x);
  }

  lemma SplitGives(reference: seq<real>, current: seq<real>, x: real)
    requires reference != [] && current != []
    requires SplitsAt(reference, current, x) || SplitsAt(current, reference, x)
    ensures KsStatistic(reference, current) == 1.0
  {
    GapOne(reference, current, x);
    KsIsSupremum(reference, current);
  }

  lemma SplitOf(s: seq<real>, t: seq<real>) returns (x: real)
    requires s != [] && AllBelow(s, t)
    ensures SplitsAt(s, t, x)
  {
    var k := GreatestOf(s);
    x := s[k];
  }

  ghost predicate SameDistribution(reference: seq<real>, current: seq<real>)
    requires reference != [] && current != []
  {
    forall x :: Cdf(reference, x) == Cdf(current, x)
  }

  /** The statistic is 0 exactly when the distributions agree everywhere or a sample is missing. */
  lemma KsZeroIffSame(reference: seq<real>, current: seq<real>)
    ensures KsStatistic(reference, current) == 0.0 <==>
      reference == [] || current == [] || SameDistribution(reference, current)
  {
    if reference != [] && current != [] {
      KsIsSupremum(reference, current);
      if KsStatistic(reference, current) == 0.0 {
        forall x ensures Cdf(reference, x) == Cdf(current, x) {
          assert Gap(reference, current, x) <= 0.0;
        }
      }
    }
  }

  /** The statistic is 1 exactly when the samples do not interleave at all. */
  lemma KsOneIffSeparated(reference: seq<real>, current: seq<real>)
    requires reference != [] && current != []
    ensures KsStatistic(reference, current) == 1.0 <==> AllBelow(reference, current) || AllBelow(current, reference)
  {
    if AllBelow(reference, current) {
      var x := SplitOf(reference, current);
      SplitGives(reference, current, x);
    } else if AllBelow(current, reference) {
      var x := SplitOf(current, reference);
      SplitGives(reference, current, x);
    } else if KsStatistic(reference, current) == 1.0 {
      KsIsSupremum(reference, current);
      var x :| x in reference + current && Gap(reference, current, x) == 1.0;
      GapOne(reference, current, x);
      assert false;
    }
  }
}
