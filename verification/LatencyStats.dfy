/**
 Percentiles of a benchmark run, read off a sorted copy of the latencies.
 */
module LatencyStats {

  datatype Stats = Stats(p50: real, p95: real, p99: real, max: real)

  function Insert(x: real, sorted: seq<real>): seq<real> {
    if sorted == [] || x <= sorted[0] then [x] + sorted else [sorted[0]] + Insert(x, sorted[1..])
  }

  function Sort(s: seq<real>): seq<real> {
    if s == [] then [] else Insert(s[0], Sort(s[1..]))
  }

  /** The index of a percentile: the given share of n, in per cent, rounded down. */
  function Index(n: nat, percent: nat): nat {
    n * percent / 100
  }

  function AtOrLast(sorted: seq<real>, i: nat): real
    requires sorted != []
  {
    if i < |sorted| then sorted[i] else sorted[|sorted| - 1]
  }

  function Compute(latencies: seq<real>): Stats {
    if latencies == [] then Stats(0.0, 0.0, 0.0, 0.0)
    else
      SortFacts(latencies);
      var sorted, n := Sort(latencies), |latencies|;
      Stats(AtOrLast(sorted, Index(n, 50)), AtOrLast(sorted, Index(n, 95)),
            AtOrLast(sorted, Index(n, 99)), sorted[n - 1])
  }

  // ---- Sorting ----------------------------------------------------------------------

  predicate Sorted(s: seq<real>) {
    forall i, j :: 0 <= i < j < |s| ==> s[i] <= s[j]
  }

  lemma {:induction false} InsertMultiset(x: real, s: seq<real>)
    ensures multiset(Insert(x, s)) == multiset(s) + multiset{x}
  {
    if s != [] {
      InsertMultiset(x, s[1..]);
      MultisetHead(s);
    }
  }

  lemma MultisetHead(s: seq<real>)
    requires s != []
    ensures multiset(s) == multiset{s[0]} + multiset(s[1..])
  {
    assert s == [s[0]] + s[1..];
  }

  lemma {:induction false} InsertSorted(x: real, s: seq<real>)
    requires Sorted(s)
    ensures Sorted(Insert(x, s))
    ensures Insert(x, s)[0] == x || (s != [] && Insert(x, s)[0] == s[0])
  {
    if s != [] && s[0] < x {
      var rest := s[1..];
      assert forall j :: 0 <= j < |rest| ==> rest[j] == s[j + 1];
      InsertSorted(x, rest);
      var r, ins := Insert(x, s), Insert(x, rest);
      assert r[0] <= ins[0];
      assert forall j :: 0 < j < |r| ==> r[j] == ins[j - 1];
    }
  }

  lemma {:induction false} SortFacts(s: seq<real>)
    ensures Sorted(Sort(s)) && multiset(Sort(s)) == multiset(s) && |Sort(s)| == |s|
  {
    if s != [] {
      SortFacts(s[1..]);
      InsertSorted(s[0], Sort(s[1..]));
      InsertMultiset(s[0], Sort(s[1..]));
      MultisetHead(s);
    }
    assert |multiset(Sort(s))| == |multiset(s)|;
  }

  // ---- Ranks ------------------------------------------------------------------------

  function CountBelow(s: seq<real>, x: real): nat {
    if s == [] then 0 else (if s[0] < x then 1 else 0) + CountBelow(s[1..], x)
  }

  function CountUpTo(s: seq<real>, x: real): nat {
    if s == [] then 0 else (if s[0] <= x then 1 else 0) + CountUpTo(s[1..], x)
  }

  lemma {:induction false} InsertCounts(y: real, s: seq<real>, x: real)
    ensures CountBelow(Insert(y, s), x) == CountBelow(s, x) + if y < x then 1 else 0
    ensures CountUpTo(Insert(y, s), x) == CountUpTo(s, x) + if y <= x then 1 else 0
  {
    if s == [] || y <= s[0] {
      assert ([y] + s)[1..] == s;
    } else {
      InsertCounts(y, s[1..], x);
      assert Insert(y, s)[1..] == Insert(y, s[1..]);
    }
  }

  lemma {:induction false} SortCounts(s: seq<real>, x: real)
    ensures CountBelow(Sort(s), x) == CountBelow(s, x) && CountUpTo(Sort(s), x) == CountUpTo(s, x)
  {
    if s != [] {
      SortCounts(s[1..], x);
      InsertCounts(s[0], Sort(s[1..]), x);
    }
  }

  /** In a sorted list at most i values lie below entry i, and more than i are up to it. */
  lemma {:induction false} SortedCounts(s: seq<real>, i: nat, x: real)
    requires Sorted(s) && i < |s| && x == s[i]
    ensures CountBelow(s, x) <= i < CountUpTo(s, x)
    decreases i
  {
    var rest := s[1..];
    assert forall j :: 0 <= j < |rest| ==> rest[j] == s[j + 1];
    if i == 0 {
      NoneBelow(rest, x);
    } else {
      SortedCounts(rest, i - 1, x);
    }
  }

  lemma {:induction false} NoneBelow(s: seq<real>, x: real)
    requires forall j :: 0 <= j < |s| ==> x <= s[j]
    ensures CountBelow(s, x) == 0
  {
    if s != [] {
      NoneBelow(s[1..], x);
    }
  }

  /** The value of rank i: an input with at most i inputs below it and more than i up to it. */
  predicate HasRank(s: seq<real>, i: nat, x: real) {
    x in s && CountBelow(s, x) <= i < CountUpTo(s, x)
  }

  lemma {:induction false} BelowIsUpTo(s: seq<real>, x: real, y: real)
    requires x < y
    ensures CountUpTo(s, x) <= CountBelow(s, y)
  {
    if s != [] {
      BelowIsUpTo(s[1..], x, y);
    }
  }

  /** There is only one value of a rank. */
  lemma RankUnique(s: seq<real>, i: nat, x: real, y: real)
    requires HasRank(s, i, x) && HasRank(s, i, y)
    ensures x == y
  {
    if x < y {
      BelowIsUpTo(s, x, y);
    } else if y < x {
      BelowIsUpTo(s, y, x);
    }
  }

  lemma SortedHasRank(s: seq<real>, i: nat)
    requires i < |s|
    ensures i < |Sort(s)| && HasRank(s, i, Sort(s)[i])
  {
    SortFacts(s);
    SortedCounts(Sort(s), i, Sort(s)[i]);
    SortCounts(s, Sort(s)[i]);
    assert Sort(s)[i] in multiset(Sort(s));
  }

  /**
   A q-percentile, in numbers: an input that at most q per cent of the inputs lie below, and
   that more than q per cent of them are up to.
   */
  predicate IsPercentile(s: seq<real>, q: nat, x: real) {
    x in s && 100 * CountBelow(s, x) <= q * |s| < 100 * CountUpTo(s, x)
  }

  lemma RankIsPercentile(s: seq<real>, q: nat, x: real)
    requires HasRank(s, Index(|s|, q), x)
    ensures IsPercentile(s, q, x)
  {
    var i := Index(|s|, q);
    assert |s| * q == q * |s|;
    assert 100 * i <= q * |s| < 100 * (i + 1);
  }

  lemma SortedIsPercentile(s: seq<real>, q: nat)
    requires s != [] && q < 100
    ensures Index(|s|, q) < |Sort(s)| && IsPercentile(s, q, Sort(s)[Index(|s|, q)])
  {
    assert |s| * q <= |s| * 99;
    SortedHasRank(s, Index(|s|, q));
    RankIsPercentile(s, q, Sort(s)[Index(|s|, q)]);
  }

  /** There is only one. */
  lemma PercentileUnique(s: seq<real>, q: nat, x: real, y: real)
    requires IsPercentile(s, q, x) && IsPercentile(s, q, y)
    ensures x == y
  {
    if x < y {
      BelowIsUpTo(s, x, y);
    } else if y < x {
      BelowIsUpTo(s, y, x);
    }
  }

  /**
   For any non-empty run: each percentile is the one input that is that percentile (so the
   fallback to the last entry is never taken), the maximum is an input that none exceeds, and
   they are ordered.
   */
  lemma PercentilesHaveRank(latencies: seq<real>)
    requires latencies != []
    ensures var st := Compute(latencies);
            && IsPercentile(latencies, 50, st.p50)
            && IsPercentile(latencies, 95, st.p95)
            && IsPercentile(latencies, 99, st.p99)
            && st.max in latencies && (forall x :: x in latencies ==> x <= st.max)
            && st.p50 <= st.p95 <= st.p99 <= st.max
  {
    var n := |latencies|;
    SortedIsPercentile(latencies, 50);
    SortedIsPercentile(latencies, 95);
    SortedIsPercentile(latencies, 99);
    SortFacts(latencies);
    LastIsMax(latencies);
    IndicesOrdered(n);
    SortedOrdered(Sort(latencies), Index(n, 50), Index(n, 95));
    SortedOrdered(Sort(latencies), Index(n, 95), Index(n, 99));
    SortedOrdered(Sort(latencies), Index(n, 99), n - 1);
  }

  lemma IndicesOrdered(n: nat)
    requires n > 0
    ensures Index(n, 50) <= Index(n, 95) <= Index(n, 99) <= n - 1
  {
  }

  lemma LastIsMax(s: seq<real>)
    requires s != []
    ensures |Sort(s)| == |s|
    ensures var last := Sort(s)[|s| - 1]; last in s && forall x :: x in s ==> x <= last
  {
    SortFacts(s);
    var sorted := Sort(s);
    assert sorted[|s| - 1] in multiset(sorted);
    forall x | x in s ensures x <= sorted[|s| - 1] {
      assert x in multiset(sorted);
      var i :| 0 <= i < |sorted| && sorted[i] == x;
    }
  }

  lemma SortedOrdered(s: seq<real>, i: nat, j: nat)
    requires Sorted(s) && i <= j < |s|
    ensures s[i] <= s[j]
  {
  }

  /** The result depends on the latencies as a multiset: the order of the run does not matter. */
  lemma {:induction false} OrderIrrelevant(a: seq<real>, b: seq<real>)
    requires multiset(a) == multiset(b)
    ensures Compute(a) == Compute(b)
  {
    SortFacts(a);
    SortFacts(b);
    SortedUnique(Sort(a), Sort(b));
    SameLength(a, b);
  }

  lemma {:induction false} SortedUnique(a: seq<real>, b: seq<real>)
    requires Sorted(a) && Sorted(b) && multiset(a) == multiset(b)
    ensures a == b
  {
    SameLength(a, b);
    if a != [] {
      HeadIsLeast(a, b);
      HeadIsLeast(b, a);
      SameTails(a, b);
      SortedTail(a);
      SortedTail(b);
      SortedUnique(a[1..], b[1..]);
      assert a == [a[0]] + a[1..] && b == [b[0]] + b[1..];
    }
  }

  lemma SameLength(a: seq<real>, b: seq<real>)
    requires multiset(a) == multiset(b)
    ensures |a| == |b|
  {
    assert |a| == |multiset(a)| && |b| == |multiset(b)|;
  }

  lemma SameTails(a: seq<real>, b: seq<real>)
    requires a != [] && b != [] && a[0] == b[0] && multiset(a) == multiset(b)
    ensures multiset(a[1..]) == multiset(b[1..])
  {
    MultisetHead(a);
    MultisetHead(b);
    assert multiset(a[1..]) == multiset(a) - multiset{a[0]};
    assert multiset(b[1..]) == multiset(b) - multiset{b[0]};
  }

  lemma SortedTail(s: seq<real>)
    requires Sorted(s) && s != []
    ensures Sorted(s[1..])
  {
  }

  lemma HeadIsLeast(a: seq<real>, b: seq<real>)
    requires Sorted(a) && a != [] && b != [] && multiset(a) == multiset(b)
    ensures a[0] <= b[0]
  {
    assert b[0] in multiset(a);
    var i :| 0 <= i < |a| && a[i] == b[0];
    assert a[0] <= a[i];
  }
}
