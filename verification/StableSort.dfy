/** Stable sorting by a key, and why its result is the only one possible. */
module StableSort {
  ghost predicate Ascending<T>(s: seq<T>, key: T -> int) {
    forall i, j | 0 <= i < j < |s| :: key(s[i]) <= key(s[j])
  }

  /** The elements of one key, in their order. */
  function WithKey<T>(s: seq<T>, key: T -> int, k: int): seq<T> {
    if s == [] then []
    else WithKey(s[..|s| - 1], key, k) + if key(s[|s| - 1]) == k then [s[|s| - 1]] else []
  }

  /** `x` after every element whose key is not greater. */
  function Insert<T>(s: seq<T>, key: T -> int, x: T): seq<T> {
    if s == [] || key(s[|s| - 1]) <= key(x) then s + [x]
    else Insert(s[..|s| - 1], key, x) + [s[|s| - 1]]
  }

  /** Insertion sort, taking the elements in order. */
  function Sorted<T>(s: seq<T>, key: T -> int): seq<T> {
    if s == [] then [] else Insert(Sorted(s[..|s| - 1], key), key, s[|s| - 1])
  }

  lemma Snoc<T>(s: seq<T>, x: T, key: T -> int, k: int)
    ensures WithKey(s + [x], key, k) == WithKey(s, key, k) + if key(x) == k then [x] else []
  {
  }

  lemma {:induction false} WithKeyConcat<T>(a: seq<T>, b: seq<T>, key: T -> int, k: int)
    ensures WithKey(a + b, key, k) == WithKey(a, key, k) + WithKey(b, key, k)
  {
    if b == [] {
      assert a + b == a;
    } else {
      var init, last := b[..|b| - 1], b[|b| - 1];
      WithKeyConcat(a, init, key, k);
      assert a + b == (a + init) + [last];
      Snoc(a + init, last, key, k);
    }
  }

  lemma {:induction false} NoneWithKey<T>(s: seq<T>, key: T -> int, k: int)
    requires forall i | 0 <= i < |s| :: key(s[i]) != k
    ensures WithKey(s, key, k) == []
  {
    if s != [] { NoneWithKey(s[..|s| - 1], key, k); }
  }

  lemma {:induction false} SomeWithKey<T>(s: seq<T>, key: T -> int, i: nat)
    requires i < |s|
    ensures WithKey(s, key, key(s[i])) != []
  {
    if i < |s| - 1 { SomeWithKey(s[..|s| - 1], key, i); }
  }

  /** Every key's elements are the same, in the same order. */
  ghost predicate SameByKey<T>(a: seq<T>, b: seq<T>, key: T -> int) {
    forall k :: WithKey(a, key, k) == WithKey(b, key, k)
  }

  lemma {:induction false} InsertKeepsElements<T>(s: seq<T>, key: T -> int, x: T)
    ensures multiset(Insert(s, key, x)) == multiset(s) + multiset{x}
  {
    if s != [] && key(s[|s| - 1]) > key(x) {
      assert s == s[..|s| - 1] + [s[|s| - 1]];
      InsertKeepsElements(s[..|s| - 1], key, x);
    }
  }

  lemma {:induction false} InsertOrders<T>(s: seq<T>, key: T -> int, x: T)
    requires Ascending(s, key)
    ensures Ascending(Insert(s, key, x), key)
  {
    if s != [] && key(s[|s| - 1]) > key(x) {
      var init, last := s[..|s| - 1], s[|s| - 1];
      InsertOrders(init, key, x);
      InsertKeepsElements(init, key, x);
      var inner := Insert(init, key, x);
      forall i | 0 <= i < |inner| ensures key(inner[i]) <= key(last) {
        assert inner[i] in multiset(inner);
        assert inner[i] in init || inner[i] == x;
      }
    }
  }

  lemma {:induction false} InsertIsStable<T>(s: seq<T>, key: T -> int, x: T, k: int)
    ensures WithKey(Insert(s, key, x), key, k) == WithKey(s + [x], key, k)
  {
    hide WithKey;
    if s != [] && key(s[|s| - 1]) > key(x) {
      var init, last := s[..|s| - 1], s[|s| - 1];
      assert s == init + [last];
      InsertIsStable(init, key, x, k);
      Snoc(Insert(init, key, x), last, key, k);
      Snoc(init, x, key, k);
      Snoc(s, x, key, k);
      Snoc(init, last, key, k);
    }
  }

  /** Sorting permutes, orders by key, and keeps elements of one key in their order. */
  lemma {:induction false} SortIsStable<T>(s: seq<T>, key: T -> int)
    ensures Ascending(Sorted(s, key), key) && multiset(Sorted(s, key)) == multiset(s)
    ensures SameByKey(Sorted(s, key), s, key)
  {
    if s != [] {
      var init, last := s[..|s| - 1], s[|s| - 1];
      assert s == init + [last];
      SortIsStable(init, key);
      InsertOrders(Sorted(init, key), key, last);
      InsertKeepsElements(Sorted(init, key), key, last);
      forall k ensures WithKey(Sorted(s, key), key, k) == WithKey(s, key, k) {
        InsertIsStable(Sorted(init, key), key, last, k);
        Snoc(Sorted(init, key), last, key, k);
        Snoc(init, last, key, k);
        assert WithKey(Sorted(init, key), key, k) == WithKey(init, key, k);
      }
    }
  }

  lemma LastKeyIsLargest<T>(a: seq<T>, b: seq<T>, key: T -> int)
    requires a != [] && Ascending(b, key) && SameByKey(a, b, key)
    ensures b != [] && key(a[|a| - 1]) <= key(b[|b| - 1])
  {
    var x := key(a[|a| - 1]);
    SomeWithKey(a, key, |a| - 1);
    assert WithKey(b, key, x) == WithKey(a, key, x);
    if forall i | 0 <= i < |b| :: key(b[i]) != x {
      NoneWithKey(b, key, x);
    }
  }

  /** No other sequence does. */
  lemma {:induction false} StableOrderIsUnique<T>(a: seq<T>, b: seq<T>, key: T -> int)
    requires Ascending(a, key) && Ascending(b, key) && SameByKey(a, b, key)
    ensures a == b
    decreases |a| + |b|
  {
    if a == [] && b != [] {
      LastKeyIsLargest(b, a, key);
    } else if a != [] {
      LastKeyIsLargest(a, b, key);
      LastKeyIsLargest(b, a, key);
      DropLast(a, b, key);
      StableOrderIsUnique(a[..|a| - 1], b[..|b| - 1], key);
      assert a == a[..|a| - 1] + [a[|a| - 1]] && b == b[..|b| - 1] + [b[|b| - 1]];
    }
  }

  lemma DropLast<T>(a: seq<T>, b: seq<T>, key: T -> int)
    requires a != [] && b != [] && SameByKey(a, b, key) && key(a[|a| - 1]) == key(b[|b| - 1])
    ensures a[|a| - 1] == b[|b| - 1] && SameByKey(a[..|a| - 1], b[..|b| - 1], key)
  {
    var c, d, x, y := a[..|a| - 1], b[..|b| - 1], a[|a| - 1], b[|b| - 1];
    assert WithKey(a, key, key(x)) == WithKey(b, key, key(x));
    assert WithKey(a, key, key(x)) == WithKey(c, key, key(x)) + [x];
    assert WithKey(b, key, key(x)) == WithKey(d, key, key(x)) + [y];
    assert x == (WithKey(c, key, key(x)) + [x])[|WithKey(a, key, key(x))| - 1];
    forall k ensures WithKey(c, key, k) == WithKey(d, key, k) {
      assert WithKey(a, key, k) == WithKey(b, key, k);
      var last := if key(x) == k then [x] else [];
      assert WithKey(a, key, k) == WithKey(c, key, k) + last && WithKey(b, key, k) == WithKey(d, key, k) + last;
      assert WithKey(c, key, k) == WithKey(a, key, k)[..|WithKey(a, key, k)| - |last|];
    }
  }

  lemma Stacked<T>(a: seq<T>, b: seq<T>, key: T -> int)
    requires Ascending(a, key) && Ascending(b, key) && forall x, y | x in a && y in b :: key(x) < key(y)
    ensures Ascending(a + b, key)
  {
  }

  /** Two stretches with every key of the first below every key of the second sort separately. */
  lemma SortsInTwoParts<T>(whole: seq<T>, low: seq<T>, high: seq<T>, key: T -> int)
    requires forall x, y | x in low && y in high :: key(x) < key(y)
    requires SameByKey(whole, low + high, key)
    ensures Sorted(whole, key) == Sorted(low, key) + Sorted(high, key)
  {
    hide Ascending, Sorted, WithKey;
    SortIsStable(whole, key);
    SortIsStable(low, key);
    SortIsStable(high, key);
    var a, b := Sorted(low, key), Sorted(high, key);
    forall x, y | x in a && y in b ensures key(x) < key(y) {
      assert x in multiset(a) && y in multiset(b);
      assert x in multiset(low) && y in multiset(high);
    }
    Stacked(a, b, key);
    forall k ensures WithKey(a + b, key, k) == WithKey(Sorted(whole, key), key, k) {
      WithKeyConcat(a, b, key, k);
      WithKeyConcat(low, high, key, k);
    }
    StableOrderIsUnique(a + b, Sorted(whole, key), key);
  }
}
