/** The stable sort that the JavaScript runtime provides, written as insertion from the right, and the facts that pin
    it down. */
module Sorting {
  /** Places `x` after every element whose key is not larger, scanning from the right. */
  function Insert<T(!new)>(s: seq<T>, x: T, key: T -> int): seq<T> {
    if s == [] then [x]
    else if key(s[|s| - 1]) <= key(x) then s + [x]
    else Insert(s[..|s| - 1], x, key) + [s[|s| - 1]]
  }

  function StableSort<T(!new)>(s: seq<T>, key: T -> int): seq<T> {
    if s == [] then [] else Insert(StableSort(s[..|s| - 1], key), s[|s| - 1], key)
  }

  ghost predicate Sorted<T(!new)>(s: seq<T>, key: T -> int) {
    forall i, j | 0 <= i < j < |s| :: key(s[i]) <= key(s[j])
  }

  /** The elements with key `k`, in the order they stand in `s`. */
  ghost function WithKey<T(!new)>(s: seq<T>, key: T -> int, k: int): seq<T> {
    if s == [] then []
    else WithKey(s[..|s| - 1], key, k) + if key(s[|s| - 1]) == k then [s[|s| - 1]] else []
  }

  lemma {:induction false} InsertPermutes<T(!new)>(s: seq<T>, x: T, key: T -> int)
    ensures multiset(Insert(s, x, key)) == multiset(s) + multiset{x}
  {
    if s != [] {
      assert s == s[..|s| - 1] + [s[|s| - 1]];
      InsertPermutes(s[..|s| - 1], x, key);
    }
  }

  lemma {:induction false} InsertSorted<T(!new)>(s: seq<T>, x: T, key: T -> int)
    requires Sorted(s, key)
    ensures Sorted(Insert(s, x, key), key)
  {
    if s != [] && key(s[|s| - 1]) > key(x) {
      var init := s[..|s| - 1];
      InsertSorted(init, x, key);
      InsertPermutes(init, x, key);
      forall y | y in Insert(init, x, key) ensures key(y) <= key(s[|s| - 1]) {
        assert y in multiset(init) + multiset{x};
        assert y == x || y in init;
      }
    }
  }

  lemma {:induction false} InsertStable<T(!new)>(s: seq<T>, x: T, key: T -> int, k: int)
    ensures WithKey(Insert(s, x, key), key, k) == WithKey(s, key, k) + if key(x) == k then [x] else []
  {
    assert (s + [x])[..|s|] == s;
    if s != [] && key(s[|s| - 1]) > key(x) {
      var init := s[..|s| - 1];
      InsertStable(init, x, key, k);
      var r := Insert(init, x, key);
      assert (r + [s[|s| - 1]])[..|r|] == r;
    }
  }

  lemma {:induction false} StableSortPermutes<T(!new)>(s: seq<T>, key: T -> int)
    ensures multiset(StableSort(s, key)) == multiset(s)
  {
    if s != [] {
      assert s == s[..|s| - 1] + [s[|s| - 1]];
      StableSortPermutes(s[..|s| - 1], key);
      InsertPermutes(StableSort(s[..|s| - 1], key), s[|s| - 1], key);
    }
  }

  lemma {:induction false} StableSortSorts<T(!new)>(s: seq<T>, key: T -> int)
    ensures Sorted(StableSort(s, key), key)
  {
    if s != [] {
      StableSortSorts(s[..|s| - 1], key);
      InsertSorted(StableSort(s[..|s| - 1], key), s[|s| - 1], key);
    }
  }

  /** Elements with equal keys keep their relative order. */
  lemma {:induction false} StableSortIsStable<T(!new)>(s: seq<T>, key: T -> int, k: int)
    ensures WithKey(StableSort(s, key), key, k) == WithKey(s, key, k)
  {
    if s != [] {
      StableSortIsStable(s[..|s| - 1], key, k);
      InsertStable(StableSort(s[..|s| - 1], key), s[|s| - 1], key, k);
    }
  }

  lemma {:induction false} WithKeyMembers<T(!new)>(s: seq<T>, key: T -> int, k: int)
    ensures forall x :: x in WithKey(s, key, k) <==> x in s && key(x) == k
  {
    if s != [] {
      assert s == s[..|s| - 1] + [s[|s| - 1]];
      WithKeyMembers(s[..|s| - 1], key, k);
    }
  }

  lemma InitLosesLast<T(!new)>(s: seq<T>, key: T -> int, k: int)
    requires s != []
    ensures var w, last := WithKey(s, key, k), s[|s| - 1];
            if key(last) == k then w != [] && w[|w| - 1] == last && WithKey(s[..|s| - 1], key, k) == w[..|w| - 1]
            else WithKey(s[..|s| - 1], key, k) == w
  {
    var w := WithKey(s[..|s| - 1], key, k);
    assert (w + [s[|s| - 1]])[..|w|] == w;
  }

  ghost predicate SameByKey<T(!new)>(a: seq<T>, b: seq<T>, key: T -> int) {
    forall k :: WithKey(a, key, k) == WithKey(b, key, k)
  }

  lemma SameMembers<T(!new)>(a: seq<T>, b: seq<T>, key: T -> int, x: T)
    requires SameByKey(a, b, key) && x in a
    ensures x in b
  {
    WithKeyMembers(a, key, key(x));
    WithKeyMembers(b, key, key(x));
    assert x in WithKey(a, key, key(x));
  }

  lemma SameLast<T(!new)>(a: seq<T>, b: seq<T>, key: T -> int)
    requires Sorted(a, key) && Sorted(b, key) && SameByKey(a, b, key) && a != []
    ensures b != [] && a[|a| - 1] == b[|b| - 1]
  {
    var x := a[|a| - 1];
    SameMembers(a, b, key, x);
    SameMembers(b, a, key, b[|b| - 1]);
    InitLosesLast(a, key, key(x));
    InitLosesLast(b, key, key(x));
    assert WithKey(a, key, key(x)) == WithKey(b, key, key(x));
  }

  /** Sortedness and stability leave no freedom: any stable sort gives the same sequence. */
  lemma {:induction false} StableSortUnique<T(!new)>(a: seq<T>, b: seq<T>, key: T -> int)
    requires Sorted(a, key) && Sorted(b, key) && SameByKey(a, b, key)
    ensures a == b
  {
    if a == [] {
      if b != [] {
        SameLast(b, a, key);
      }
    } else {
      SameLast(a, b, key);
      var ia, ib := a[..|a| - 1], b[..|b| - 1];
      forall k ensures WithKey(ia, key, k) == WithKey(ib, key, k) {
        InitLosesLast(a, key, k);
        InitLosesLast(b, key, k);
        assert WithKey(a, key, k) == WithKey(b, key, k);
      }
      StableSortUnique(ia, ib, key);
      assert a == ia + [a[|a| - 1]] && b == ib + [b[|b| - 1]];
    }
  }

  /** A sorted sequence is its own stable sort. */
  lemma StableSortFixesSorted<T(!new)>(s: seq<T>, key: T -> int)
    requires Sorted(s, key)
    ensures StableSort(s, key) == s
  {
    StableSortSorts(s, key);
    forall k ensures WithKey(StableSort(s, key), key, k) == WithKey(s, key, k) {
      StableSortIsStable(s, key, k);
    }
    StableSortUnique(StableSort(s, key), s, key);
  }
}
