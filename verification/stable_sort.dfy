/**
 * A stable sort by an integer key, the behaviour of lodash `sortBy` with one
 * iteratee: elements are ordered by key, and elements with equal keys keep
 * their original relative order.
 *
 * Keys are integers: a sort only ever compares the finitely many keys of one
 * list, so any total order on sort values can be numbered into `int`.
 */
module StableSort {
  import opened Seqs

  predicate SortedBy<T>(s: seq<T>, key: T -> int) {
    forall i, j :: 0 <= i < j < |s| ==> key(s[i]) <= key(s[j])
  }

  /** The elements of `s` whose key is `k`, in their order in `s`. */
  function WithKey<T>(s: seq<T>, key: T -> int, k: int): seq<T> {
    if s == [] then []
    else (if key(s[0]) == k then [s[0]] else []) + WithKey(s[1..], key, k)
  }

  /** Exactly the elements of `s` with key `k` make up `WithKey(s, key, k)`. */
  lemma {:induction false} WithKeyMembers<T>(s: seq<T>, key: T -> int, k: int)
    ensures forall i :: 0 <= i < |WithKey(s, key, k)| ==> WithKey(s, key, k)[i] in s && key(WithKey(s, key, k)[i]) == k
    ensures forall i :: 0 <= i < |s| && key(s[i]) == k ==> s[i] in WithKey(s, key, k)
  {
    if s != [] {
      WithKeyMembers(s[1..], key, k);
      assert s == [s[0]] + s[1..];
    }
  }

  lemma {:induction false} WithKeyAppend<T>(a: seq<T>, b: seq<T>, key: T -> int, k: int)
    ensures WithKey(a + b, key, k) == WithKey(a, key, k) + WithKey(b, key, k)
  {
    if a != [] {
      assert (a + b)[1..] == a[1..] + b;
      WithKeyAppend(a[1..], b, key, k);
    } else {
      assert a + b == b;
    }
  }

  lemma WithKeySingle<T>(x: T, key: T -> int, k: int)
    ensures WithKey([x], key, k) == if key(x) == k then [x] else []
  {
    assert [x][1..] == [];
  }

  /** Elements with key `k` of a list with a given first element. */
  lemma WithKeyCons<T>(x: T, s: seq<T>, key: T -> int, k: int)
    ensures WithKey([x] + s, key, k) == (if key(x) == k then [x] else []) + WithKey(s, key, k)
  {
    assert ([x] + s)[1..] == s;
  }

  /** `x` placed after every element of `s` whose key is not greater than its own. */
  function Insert<T>(x: T, s: seq<T>, key: T -> int): (r: seq<T>)
    ensures |r| == |s| + 1
    ensures forall i :: 0 <= i < |r| ==> r[i] == x || r[i] in s
    ensures SortedBy(s, key) ==> SortedBy(r, key)
  {
    if s == [] then [x]
    else if key(x) < key(s[0]) then [x] + s
    else [s[0]] + Insert(x, s[1..], key)
  }

  lemma {:induction false} InsertMultiset<T>(x: T, s: seq<T>, key: T -> int)
    ensures multiset(Insert(x, s, key)) == multiset(s) + multiset{x}
  {
    if s != [] && key(s[0]) <= key(x) {
      InsertMultiset(x, s[1..], key);
      assert s == [s[0]] + s[1..];
    }
  }

  /** Insertion sort, taking the elements from first to last. */
  function Sort<T>(s: seq<T>, key: T -> int): (r: seq<T>)
    ensures |r| == |s|
    ensures multiset(r) == multiset(s)
    ensures SortedBy(r, key)
  {
    if s == [] then []
    else
      assert s == s[..|s| - 1] + [s[|s| - 1]];
      InsertMultiset(s[|s| - 1], Sort(s[..|s| - 1], key), key);
      Insert(s[|s| - 1], Sort(s[..|s| - 1], key), key)
  }

  /** Inserting into a sorted list adds `x` behind the elements that share its key. */
  lemma {:induction false} InsertWithKey<T>(x: T, s: seq<T>, key: T -> int, k: int)
    requires SortedBy(s, key)
    ensures WithKey(Insert(x, s, key), key, k) == WithKey(s, key, k) + (if key(x) == k then [x] else [])
  {
    if s == [] {
      WithKeySingle(x, key, k);
    } else if key(x) < key(s[0]) {
      InsertInFront(x, s, key, k);
    } else {
      InsertWithKey(x, s[1..], key, k);
      InsertBehind(x, s, key, k);
    }
  }

  /** `x` goes in front of a sorted list whose keys all exceed its own. */
  lemma InsertInFront<T>(x: T, s: seq<T>, key: T -> int, k: int)
    requires SortedBy(s, key) && s != [] && key(x) < key(s[0])
    ensures WithKey(Insert(x, s, key), key, k) == WithKey(s, key, k) + (if key(x) == k then [x] else [])
  {
    assert Insert(x, s, key) == [x] + s;
    if key(x) == k {
      NoneWithKey(s, key, k);
    }
    WithKeyCons(x, s, key, k);
  }

  /** `x` goes behind the first element of a sorted list when its key is not smaller. */
  lemma InsertBehind<T>(x: T, s: seq<T>, key: T -> int, k: int)
    requires s != [] && key(s[0]) <= key(x)
    requires WithKey(Insert(x, s[1..], key), key, k) == WithKey(s[1..], key, k) + (if key(x) == k then [x] else [])
    ensures WithKey(Insert(x, s, key), key, k) == WithKey(s, key, k) + (if key(x) == k then [x] else [])
  {
    var rest := Insert(x, s[1..], key);
    InsertUnfold(x, s, key);
    WithKeyCons(s[0], rest, key, k);
    WithKeyUnfold(s, key, k);
  }

  lemma InsertUnfold<T>(x: T, s: seq<T>, key: T -> int)
    requires s != [] && key(s[0]) <= key(x)
    ensures Insert(x, s, key) == [s[0]] + Insert(x, s[1..], key)
  {
  }

  lemma WithKeyUnfold<T>(s: seq<T>, key: T -> int, k: int)
    requires s != []
    ensures WithKey(s, key, k) == (if key(s[0]) == k then [s[0]] else []) + WithKey(s[1..], key, k)
  {
  }

  /** No element of a sorted list starting above `k` has key `k`. */
  lemma {:induction false} NoneWithKey<T>(s: seq<T>, key: T -> int, k: int)
    requires SortedBy(s, key) && s != [] && k < key(s[0])
    ensures WithKey(s, key, k) == []
  {
    if |s| > 1 {
      NoneWithKey(s[1..], key, k);
    }
  }

  /** Stability: for every key, the elements with that key appear in their original order. */
  lemma {:induction false} SortIsStable<T>(s: seq<T>, key: T -> int, k: int)
    ensures WithKey(Sort(s, key), key, k) == WithKey(s, key, k)
  {
    if s != [] {
      var init, last := s[..|s| - 1], s[|s| - 1];
      SortIsStable(init, key, k);
      InsertWithKey(last, Sort(init, key), key, k);
      assert s == init + [last];
      WithKeyAppend(init, [last], key, k);
      WithKeySingle(last, key, k);
    }
  }

  /**
   * The sort is the only sorted rearrangement that keeps equal keys in their
   * original order: any other list with both properties is the same list.
   */
  lemma SortIsUnique<T>(s: seq<T>, t: seq<T>, key: T -> int)
    requires SortedBy(t, key)
    requires forall k :: WithKey(t, key, k) == WithKey(s, key, k)
    ensures t == Sort(s, key)
  {
    forall k
      ensures WithKey(t, key, k) == WithKey(Sort(s, key), key, k)
    {
      SortIsStable(s, key, k);
    }
    SortedByKeysEqual(t, Sort(s, key), key);
  }

  /** Two sorted lists with the same elements per key, in the same order, are equal. */
  lemma {:induction false} SortedByKeysEqual<T>(a: seq<T>, b: seq<T>, key: T -> int)
    requires SortedBy(a, key) && SortedBy(b, key)
    requires forall k :: WithKey(a, key, k) == WithKey(b, key, k)
    ensures a == b
    decreases |a|
  {
    if a == [] || b == [] {
      if a != [] {
        HasOwnKey(a, key);
      } else if b != [] {
        HasOwnKey(b, key);
      }
    } else {
      var m, n := key(a[0]), key(b[0]);
      WithKeyMembers(a, key, n);
      WithKeyMembers(b, key, m);
      WithKeyMembers(b, key, n);
      WithKeyMembers(a, key, m);
      assert b[0] in WithKey(a, key, n);
      KeyAtLeastFirst(a, key, b[0]);
      assert a[0] in WithKey(b, key, m);
      KeyAtLeastFirst(b, key, a[0]);
      WithKeyCons(a[0], a[1..], key, m);
      WithKeyCons(b[0], b[1..], key, m);
      assert a == [a[0]] + a[1..] && b == [b[0]] + b[1..];
      assert a[0] == WithKey(a, key, m)[0] == WithKey(b, key, m)[0] == b[0];
      forall k
        ensures WithKey(a[1..], key, k) == WithKey(b[1..], key, k)
      {
        WithKeyCons(a[0], a[1..], key, k);
        WithKeyCons(b[0], b[1..], key, k);
        var head := if key(a[0]) == k then [a[0]] else [];
        assert WithKey(a[1..], key, k) == WithKey(a, key, k)[|head|..];
        assert WithKey(b[1..], key, k) == WithKey(b, key, k)[|head|..];
      }
      SortedByKeysEqual(a[1..], b[1..], key);
      assert a == [a[0]] + a[1..] && b == [b[0]] + b[1..];
    }
  }

  lemma HasOwnKey<T>(s: seq<T>, key: T -> int)
    requires s != []
    ensures WithKey(s, key, key(s[0])) != []
  {
    WithKeyCons(s[0], s[1..], key, key(s[0]));
    assert s == [s[0]] + s[1..];
  }

  lemma KeyAtLeastFirst<T>(s: seq<T>, key: T -> int, x: T)
    requires SortedBy(s, key) && x in s
    ensures key(s[0]) <= key(x)
  {
    var i :| 0 <= i < |s| && s[i] == x;
    assert i == 0 || key(s[0]) <= key(s[i]);
  }

  /** Sorting a list that is already in key order leaves it as it is. */
  lemma SortOfSorted<T>(s: seq<T>, key: T -> int)
    requires SortedBy(s, key)
    ensures Sort(s, key) == s
  {
    SortIsUnique(s, s, key);
  }

  /** The descending order: the ascending result, reversed as a whole. */
  function SortDescending<T>(s: seq<T>, key: T -> int): (r: seq<T>)
    ensures |r| == |s|
  {
    Reverse(Sort(s, key))
  }

  /**
   * The descending order is a rearrangement with non-increasing keys, and
   * elements with equal keys come out in reverse of their original order.
   */
  lemma SortDescendingMeaning<T>(s: seq<T>, key: T -> int, k: int)
    ensures multiset(SortDescending(s, key)) == multiset(s)
    ensures forall i, j :: 0 <= i < j < |s| ==> key(SortDescending(s, key)[i]) >= key(SortDescending(s, key)[j])
    ensures WithKey(SortDescending(s, key), key, k) == Reverse(WithKey(s, key, k))
  {
    ReverseMultiset(Sort(s, key));
    WithKeyReverse(Sort(s, key), key, k);
    SortIsStable(s, key, k);
  }

  lemma {:induction false} WithKeyReverse<T>(s: seq<T>, key: T -> int, k: int)
    ensures WithKey(Reverse(s), key, k) == Reverse(WithKey(s, key, k))
  {
    if s != [] {
      WithKeyReverse(s[1..], key, k);
      WithKeyAppend(Reverse(s[1..]), [s[0]], key, k);
      WithKeySingle(s[0], key, k);
      WithKeyCons(s[0], s[1..], key, k);
      assert s == [s[0]] + s[1..];
      ReverseAppend(if key(s[0]) == k then [s[0]] else [], WithKey(s[1..], key, k));
    }
  }
}
