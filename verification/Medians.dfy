/** The backend's and the program's medians: one value, whatever the order, that a minority cannot move out of range. */
module Medians {
  import opened Options
  import opened StableSort
  import opened Arithmetic

  // ----- Averages ------------------------------------------------------------------------------

  /** The backend's: the lower value plus half the difference, shifted right. */
  function HalfWay(a: int, b: int): int {
    var low, high := if a > b then b else a, if a > b then a else b;
    low + (high - low) / 2
  }

  /** Bitwise conjunction and exclusive or of naturals. */
  function And(a: nat, b: nat): nat {
    if a == 0 || b == 0 then 0 else 2 * And(a / 2, b / 2) + if a % 2 == 1 && b % 2 == 1 then 1 else 0
  }

  function Xor(a: nat, b: nat): nat
    decreases a + b
  {
    if a == 0 && b == 0 then 0 else 2 * Xor(a / 2, b / 2) + if a % 2 != b % 2 then 1 else 0
  }

  /** What the two values share counts twice in their sum, what they differ in once. */
  lemma {:induction false} SumByBits(a: nat, b: nat)
    ensures a + b == 2 * And(a, b) + Xor(a, b)
    decreases a + b
  {
    if a == 0 || b == 0 {
      XorWithZero(a + b);
    } else {
      SumByBits(a / 2, b / 2);
    }
  }

  lemma {:induction false} XorWithZero(n: nat)
    ensures Xor(n, 0) == n && Xor(0, n) == n
  {
    if n > 0 { XorWithZero(n / 2); }
  }

  /** Both forms are the floor of the mean, and neither goes outside the two values. */
  lemma AveragesAgree(a: nat, b: nat)
    ensures HalfWay(a, b) == And(a, b) + Xor(a, b) / 2 == (a + b) / 2
    ensures And(a, b) + Xor(a, b) / 2 <= if a > b then a else b
  {
    SumByBits(a, b);
  }

  // ----- The median ----------------------------------------------------------------------------

  function Self(n: int): int {
    n
  }

  lemma SortedFacts(values: seq<int>)
    ensures |Sorted(values, Self)| == |values| && Ascending(Sorted(values, Self), Self)
    ensures forall v | v in Sorted(values, Self) :: v in values
  {
    SortIsStable(values, Self);
    var sorted := Sorted(values, Self);
    assert |multiset(sorted)| == |multiset(values)|;
    forall v | v in sorted ensures v in values {
      assert v in multiset(sorted);
      assert v in multiset(values);
    }
  }

  /** The middle value in order, or the floor of the mean of the two middle values. */
  function MedianOf(values: seq<int>): int
    requires values != []
  {
    var sorted := Sorted(values, Self);
    SortedFacts(values);
    var mid := |values| / 2;
    if |values| % 2 == 1 then sorted[mid] else (sorted[mid - 1] + sorted[mid]) / 2
  }

  /** The backend's: an empty round gives the zero value. */
  method Median(values: seq<int>) returns (m: int)
    ensures m == if values == [] then 0 else MedianOf(values)
  {
    if |values| == 0 {
      return 0;
    }
    var sorted := Sorted(values, Self);
    SortedFacts(values);
    var mid := |sorted| / 2;
    if |sorted| % 2 == 1 {
      return sorted[mid];
    }
    return HalfWay(sorted[mid - 1], sorted[mid]);
  }

  /** The program's, on u128 values: no step leaves that range. */
  method ProgramMedian(values: seq<int>) returns (m: Option<int>)
    requires forall v | v in values :: 0 <= v < 0x1_0000_0000_0000_0000_0000_0000_0000_0000
    ensures m == if values == [] then None else Some(MedianOf(values))
    ensures m.Some? ==> 0 <= m.value < 0x1_0000_0000_0000_0000_0000_0000_0000_0000
  {
    if |values| == 0 {
      return None;
    }
    hide Sorted;
    var sorted := Sorted(values, Self);
    SortedFacts(values);
    var mid := |sorted| / 2;
    if |sorted| % 2 == 1 {
      assert sorted[mid] in sorted;
      return Some(sorted[mid]);
    }
    var a, b := sorted[mid - 1], sorted[mid];
    assert a in sorted && b in sorted;
    AveragesAgree(a, b);
    return Some(And(a, b) + Xor(a, b) / 2);
  }

  // ----- Order does not matter -----------------------------------------------------------------

  lemma {:induction false} KeyIsCount(s: seq<int>, k: int)
    ensures WithKey(s, Self, k) == seq(multiset(s)[k], _ => k)
  {
    if s != [] {
      assert s == s[..|s| - 1] + [s[|s| - 1]];
      KeyIsCount(s[..|s| - 1], k);
    }
  }

  lemma OrderDoesNotMatter(a: seq<int>, b: seq<int>)
    requires multiset(a) == multiset(b) && a != []
    ensures b != [] && MedianOf(a) == MedianOf(b)
  {
    hide Sorted, WithKey;
    assert |multiset(a)| == |a| && |multiset(b)| == |b|;
    SortIsStable(a, Self);
    SortIsStable(b, Self);
    forall k ensures WithKey(Sorted(a, Self), Self, k) == WithKey(Sorted(b, Self), Self, k) {
      KeyIsCount(Sorted(a, Self), k);
      KeyIsCount(Sorted(b, Self), k);
    }
    StableOrderIsUnique(Sorted(a, Self), Sorted(b, Self), Self);
  }

  // ----- Which value it is ---------------------------------------------------------------------

  /** How many values lie below `x`. */
  function Below(values: seq<int>, x: int): (count: nat)
    ensures count <= |values|
  {
    if values == [] then 0
    else Below(values[..|values| - 1], x) + if values[|values| - 1] < x then 1 else 0
  }

  /** `x` is one of the values, and in order it stands at place `k`, counted from zero. */
  predicate IsPlace(values: seq<int>, k: nat, x: int) {
    x in values && Below(values, x) <= k < Below(values, x + 1)
  }

  lemma {:induction false} BelowInserted(s: seq<int>, n: int, x: int)
    ensures Below(Insert(s, Self, n), x) == Below(s, x) + if n < x then 1 else 0
  {
    if s == [] || s[|s| - 1] <= n {
      assert (s + [n])[..|s|] == s;
    } else {
      BelowInserted(s[..|s| - 1], n, x);
      var inner := Insert(s[..|s| - 1], Self, n);
      assert (inner + [s[|s| - 1]])[..|inner|] == inner;
    }
  }

  lemma {:induction false} BelowSorted(s: seq<int>, x: int)
    ensures Below(Sorted(s, Self), x) == Below(s, x)
  {
    if s != [] {
      BelowSorted(s[..|s| - 1], x);
      BelowInserted(Sorted(s[..|s| - 1], Self), s[|s| - 1], x);
    }
  }

  lemma {:induction false} BelowInOrder(s: seq<int>, k: nat, x: int)
    requires Ascending(s, Self) && k < |s|
    ensures s[k] >= x ==> Below(s, x) <= k
    ensures s[k] < x ==> Below(s, x) > k
    decreases |s|
  {
    var n := |s| - 1;
    assert Self(s[k]) <= Self(s[n]) by { assert k < n ==> Self(s[k]) <= Self(s[n]); }
    if n > 0 {
      BelowInOrder(s[..n], if k < n then k else n - 1, x);
      assert Self(s[n - 1]) <= Self(s[n]);
    }
  }

  lemma SortedPlaces(values: seq<int>, k: nat)
    requires k < |values|
    ensures |Sorted(values, Self)| == |values| && IsPlace(values, k, Sorted(values, Self)[k])
  {
    hide Sorted, Below;
    var sorted := Sorted(values, Self);
    SortedFacts(values);
    BelowSorted(values, sorted[k]);
    BelowSorted(values, sorted[k] + 1);
    BelowInOrder(sorted, k, sorted[k]);
    BelowInOrder(sorted, k, sorted[k] + 1);
    assert sorted[k] in sorted;
  }

  /** The value in the middle; of an even number, the floor of the mean of the two in the middle. */
  lemma MedianInFull(values: seq<int>) returns (a: int, b: int)
    requires values != []
    ensures IsPlace(values, (|values| - 1) / 2, a) && IsPlace(values, |values| / 2, b)
    ensures 2 * MedianOf(values) <= a + b < 2 * MedianOf(values) + 2
    ensures |values| % 2 == 1 ==> MedianOf(values) == a == b
  {
    SortedFacts(values);
    SortedPlaces(values, (|values| - 1) / 2);
    SortedPlaces(values, |values| / 2);
    hide Sorted, IsPlace;
    a, b := Sorted(values, Self)[(|values| - 1) / 2], Sorted(values, Self)[|values| / 2];
  }

  /** No other value stands at the place. */
  lemma {:induction false} PlacesAreUnique(values: seq<int>, k: nat, x: int, y: int)
    requires IsPlace(values, k, x) && IsPlace(values, k, y)
    ensures x == y
  {
    if x < y { BelowGrows(values, x + 1, y); }
    if y < x { BelowGrows(values, y + 1, x); }
  }

  lemma {:induction false} BelowGrows(values: seq<int>, x: int, y: int)
    requires x <= y
    ensures Below(values, x) <= Below(values, y)
  {
    if values != [] { BelowGrows(values[..|values| - 1], x, y); }
  }

  // ----- A minority cannot move it -------------------------------------------------------------

  function Outside(values: seq<int>, lo: int, hi: int): nat {
    if values == [] then 0
    else
      var v := values[|values| - 1];
      Outside(values[..|values| - 1], lo, hi) + if lo <= v <= hi then 0 else 1
  }

  lemma {:induction false} OutsideInserted(s: seq<int>, x: int, lo: int, hi: int)
    ensures Outside(Insert(s, Self, x), lo, hi) == Outside(s, lo, hi) + if lo <= x <= hi then 0 else 1
  {
    if s == [] || s[|s| - 1] <= x {
      assert (s + [x])[..|s|] == s;
    } else {
      OutsideInserted(s[..|s| - 1], x, lo, hi);
      var inner := Insert(s[..|s| - 1], Self, x);
      assert (inner + [s[|s| - 1]])[..|inner|] == inner;
    }
  }

  lemma {:induction false} OutsideSorted(s: seq<int>, lo: int, hi: int)
    ensures Outside(Sorted(s, Self), lo, hi) == Outside(s, lo, hi)
  {
    if s != [] {
      OutsideSorted(s[..|s| - 1], lo, hi);
      OutsideInserted(Sorted(s[..|s| - 1], Self), s[|s| - 1], lo, hi);
    }
  }

  lemma {:induction false} OutsideStretch(s: seq<int>, lo: int, hi: int, i: nat, j: nat)
    requires i <= j <= |s| && forall k | i <= k < j :: s[k] < lo || s[k] > hi
    ensures Outside(s, lo, hi) >= j - i
    decreases |s|
  {
    if i < j {
      var n := |s| - 1;
      OutsideStretch(s[..n], lo, hi, i, if j == |s| then n else j);
    }
  }

  /** With fewer than half of the values outside [lo, hi], the median is inside. */
  lemma MinorityCannotMoveIt(values: seq<int>, lo: int, hi: int)
    requires 2 * Outside(values, lo, hi) < |values|
    ensures lo <= MedianOf(values) <= hi
  {
    hide Sorted, Outside;
    var sorted, n := Sorted(values, Self), |values|;
    SortedFacts(values);
    OutsideSorted(values, lo, hi);
    var below := if n % 2 == 1 then n / 2 else n / 2 - 1;
    if sorted[below] < lo {
      OutsideStretch(sorted, lo, hi, 0, below + 1);
    }
    if sorted[n / 2] > hi {
      OutsideStretch(sorted, lo, hi, n / 2, n);
    }
    assert Ascending(sorted, Self);
    if n % 2 == 0 {
      assert Self(sorted[below]) <= Self(sorted[n / 2]);
    }
  }

  lemma {:induction false} OutsideFrom(s: seq<int>, lo: int, hi: int, n: nat)
    requires n <= |s| && forall i | 0 <= i < |s| :: lo <= s[i] <= hi <==> i < n
    ensures Outside(s, lo, hi) == |s| - n
  {
    if s != [] {
      OutsideFrom(s[..|s| - 1], lo, hi, if n == |s| then n - 1 else n);
    }
  }

  /** Half is enough: beside `n` values at `lo` there are `n` others that put the median outside. */
  lemma HalfCanMoveIt(n: nat, lo: int, hi: int) returns (values: seq<int>)
    requires n > 0 && lo <= hi
    ensures |values| == 2 * n && Outside(values, lo, hi) == n && MedianOf(values) > hi
  {
    hide Sorted, Outside, WithKey;
    var far := 2 * hi - lo + 2;
    values := seq(2 * n, i => if i < n then lo else far);
    SortIsStable(values, Self);
    StableOrderIsUnique(Sorted(values, Self), values, Self);
    OutsideFrom(values, lo, hi, n);
  }

  // ----- Outliers ------------------------------------------------------------------------------

  function Abs(n: int): nat {
    if n < 0 then -n else n
  }

  /** In basis points of the median, rounded down; nothing is far from a median of zero. */
  function Deviation(value: int, median: int): int {
    if median == 0 then 0 else Abs(value - median) * 10_000 / median
  }

  datatype Submission = Submission(node: string, value: int)
  datatype Outlier = Outlier(node: string, value: int, deviation: int)

  function OutliersOf(submissions: seq<Submission>, median: int, threshold: int): seq<Outlier> {
    if submissions == [] then []
    else
      var s := submissions[|submissions| - 1];
      OutliersOf(submissions[..|submissions| - 1], median, threshold)
      + if Deviation(s.value, median) > threshold then [Outlier(s.node, s.value, Deviation(s.value, median))] else []
  }

  method DetectOutliers(submissions: seq<Submission>, median: int, threshold: int) returns (outliers: seq<Outlier>)
    ensures outliers == if median == 0 then [] else OutliersOf(submissions, median, threshold)
  {
    if median == 0 {
      return [];
    }
    outliers := [];
    for i := 0 to |submissions|
      invariant outliers == OutliersOf(submissions[..i], median, threshold)
    {
      var s := submissions[i];
      assert submissions[..i + 1][..i] == submissions[..i];
      var deviation := Deviation(s.value, median);
      if deviation > threshold {
        outliers := outliers + [Outlier(s.node, s.value, deviation)];
      }
    }
    assert submissions[..|submissions|] == submissions;
  }

  /** A submission is an outlier exactly when it lies a whole basis point or more beyond the threshold: one at the
      boundary, or past it by less than that, is not. */
  lemma OutlierExactlyWhen(value: int, median: int, threshold: nat)
    requires median > 0
    ensures Deviation(value, median) > threshold <==> Abs(value - median) * 10_000 >= (threshold + 1) * median
  {
    var scaled := Abs(value - median) * 10_000;
    if scaled >= (threshold + 1) * median {
      QuotientAtLeast(scaled, median, threshold + 1);
    } else {
      QuotientBelow(scaled, median, threshold + 1);
    }
  }

  /** The places of the submissions listed, in submission order: those at least a whole basis point beyond the
      threshold, each under its own node, with its value and its deviation rounded down. */
  lemma {:induction false} OutliersInFull(submissions: seq<Submission>, median: int, threshold: nat)
    returns (places: seq<nat>)
    requires median > 0
    ensures var outliers := OutliersOf(submissions, median, threshold);
            && |places| == |outliers|
            && (forall k | 0 <= k < |places| ::
                places[k] < |submissions| && Lists(outliers[k], submissions[places[k]], median))
            && (forall k, l | 0 <= k < l < |places| :: places[k] < places[l])
    ensures forall i | 0 <= i < |submissions| ::
              i in places <==> Abs(submissions[i].value - median) * 10_000 >= (threshold + 1) * median
  {
    places := [];
    if submissions != [] {
      var n := |submissions| - 1;
      places := OutliersInFull(submissions[..n], median, threshold);
      OutlierExactlyWhen(submissions[n].value, median, threshold);
      FloorBelow(Abs(submissions[n].value - median) * 10_000, median);
      assert forall p | p in places :: p < n by {
        assert forall k | 0 <= k < |places| :: places[k] < n;
      }
      hide Deviation, Abs;
      if Deviation(submissions[n].value, median) > threshold {
        places := places + [n];
      }
    }
  }

  predicate Lists(o: Outlier, s: Submission, median: int) {
    && o.node == s.node && o.value == s.value
    && o.deviation * median <= Abs(s.value - median) * 10_000 < (o.deviation + 1) * median
  }
}
