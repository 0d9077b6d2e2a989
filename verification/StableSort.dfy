/** Go's sort.SliceStable and sort.Strings by what they promise: the one list
    that is sorted and keeps elements of equal key in their order of arrival. */
module StableSort {

  ghost predicate SortedBy<T>(s: seq<T>, key: T -> int) {
    forall i, j :: 0 <= i < j < |s| ==> key(s[i]) <= key(s[j])
  }

  /** The elements with one key, in order of arrival. */
  function WithKey<T>(s: seq<T>, key: T -> int, k: int): seq<T> {
    if s == [] then []
    else if key(s[0]) == k then [s[0]] + WithKey(s[1..], key, k)
    else WithKey(s[1..], key, k)
  }

  function InsertBefore<T>(s: seq<T>, x: T, key: T -> int): seq<T> {
    if s == [] || key(x) <= key(s[0]) then [x] + s
    else [s[0]] + InsertBefore(s[1..], x, key)
  }

  function Sort<T>(s: seq<T>, key: T -> int): seq<T> {
    if s == [] then [] else InsertBefore(Sort(s[1..], key), s[0], key)
  }

  lemma {:induction false} InsertPermutes<T>(s: seq<T>, x: T, key: T -> int)
    ensures multiset(InsertBefore(s, x, key)) == multiset(s) + multiset{x}
  {
    if s == [] || key(x) <= key(s[0]) {
    } else {
      InsertPermutes(s[1..], x, key);
      assert s == [s[0]] + s[1..];
    }
  }

  lemma {:induction false} InsertSorts<T>(s: seq<T>, x: T, key: T -> int)
    requires SortedBy(s, key)
    ensures SortedBy(InsertBefore(s, x, key), key)
  {
    if s == [] || key(x) <= key(s[0]) {
    } else {
      InsertSorts(s[1..], x, key);
      InsertPermutes(s[1..], x, key);
      var tail := InsertBefore(s[1..], x, key);
      forall i | 0 <= i < |tail| ensures key(s[0]) <= key(tail[i]) {
        assert tail[i] in multiset(tail);
      }
    }
  }

  /** The new element goes ahead of those it ties with. */
  lemma {:induction false} InsertWithKey<T>(s: seq<T>, x: T, key: T -> int, k: int)
    ensures WithKey(InsertBefore(s, x, key), key, k)
         == if key(x) == k then [x] + WithKey(s, key, k) else WithKey(s, key, k)
  {
    if s == [] || key(x) <= key(s[0]) {
      assert ([x] + s)[1..] == s;
    } else {
      InsertWithKey(s[1..], x, key, k);
      var tail := InsertBefore(s[1..], x, key);
      assert ([s[0]] + tail)[1..] == tail;
    }
  }

  lemma {:induction false} SortKeeps<T>(s: seq<T>, key: T -> int)
    ensures SortedBy(Sort(s, key), key)
    ensures multiset(Sort(s, key)) == multiset(s)
    ensures forall k :: WithKey(Sort(s, key), key, k) == WithKey(s, key, k)
  {
    if s == [] {
    } else {
      SortKeeps(s[1..], key);
      InsertPermutes(Sort(s[1..], key), s[0], key);
      InsertSorts(Sort(s[1..], key), s[0], key);
      assert s == [s[0]] + s[1..];
      forall k ensures WithKey(Sort(s, key), key, k) == WithKey(s, key, k) {
        InsertWithKey(Sort(s[1..], key), s[0], key, k);
      }
    }
  }

  lemma {:induction false} WithKeyMembers<T>(s: seq<T>, key: T -> int, k: int)
    ensures forall x :: x in WithKey(s, key, k) <==> x in s && key(x) == k
  {
    if s == [] {
    } else {
      WithKeyMembers(s[1..], key, k);
      assert s == [s[0]] + s[1..];
    }
  }

  lemma SomeKey<T>(s: seq<T>, key: T -> int)
    requires s != []
    ensures exists k :: WithKey(s, key, k) != []
  {
    assert WithKey(s, key, key(s[0])) != [];
  }

  lemma NoKeys<T>(s: seq<T>, key: T -> int)
    requires forall k :: WithKey(s, key, k) == []
    ensures s == []
  {
    if s != [] {
      SomeKey(s, key);
    }
  }

  /** Sortedness and stability determine the list. */
  lemma {:induction false} Determined<T>(a: seq<T>, b: seq<T>, key: T -> int)
    requires SortedBy(a, key) && SortedBy(b, key)
    requires forall k :: WithKey(a, key, k) == WithKey(b, key, k)
    ensures a == b
  {
    if a == [] {
      NoKeys(b, key);
    } else {
      WithKeyMembers(b, key, key(a[0]));
      assert a[0] in WithKey(a, key, key(a[0]));
      WithKeyMembers(a, key, key(b[0]));
      assert b[0] in WithKey(b, key, key(b[0]));
      assert key(a[0]) == key(b[0]);
      assert WithKey(a, key, key(a[0]))[0] == a[0] && WithKey(b, key, key(a[0]))[0] == b[0];
      forall k ensures WithKey(a[1..], key, k) == WithKey(b[1..], key, k) {
        assert WithKey(a, key, k) == WithKey(b, key, k);
        WithKeyTail(a, key, k);
        WithKeyTail(b, key, k);
      }
      Determined(a[1..], b[1..], key);
    }
  }

  lemma WithKeyTail<T>(s: seq<T>, key: T -> int, k: int)
    requires s != []
    ensures WithKey(s[1..], key, k) == if key(s[0]) == k then WithKey(s, key, k)[1..] else WithKey(s, key, k)
  {
  }

  ghost predicate DistinctKeys<T>(s: seq<T>, key: T -> int) {
    forall i, j :: 0 <= i < j < |s| ==> key(s[i]) != key(s[j])
  }

  lemma {:induction false} WithKeyCounts<T>(s: seq<T>, key: T -> int, k: int)
    ensures forall x :: multiset(WithKey(s, key, k))[x] == if key(x) == k then multiset(s)[x] else 0
  {
    if s == [] {
    } else {
      WithKeyCounts(s[1..], key, k);
      assert s == [s[0]] + s[1..];
      if key(s[0]) == k {
        assert multiset([s[0]] + WithKey(s[1..], key, k)) == multiset{s[0]} + multiset(WithKey(s[1..], key, k));
      }
    }
  }

  lemma {:induction false} NoneWithKey<T>(s: seq<T>, key: T -> int, k: int)
    requires forall i :: 0 <= i < |s| ==> key(s[i]) != k
    ensures WithKey(s, key, k) == []
  {
    if s == [] {
    } else {
      NoneWithKey(s[1..], key, k);
    }
  }

  lemma {:induction false} WithKeyAtMostOne<T>(s: seq<T>, key: T -> int, k: int)
    requires DistinctKeys(s, key)
    ensures |WithKey(s, key, k)| <= 1
  {
    if s == [] {
    } else {
      WithKeyAtMostOne(s[1..], key, k);
      if key(s[0]) == k {
        NoneWithKey(s[1..], key, k);
      }
    }
  }

  lemma SameMultiset<T>(a: multiset<T>, b: multiset<T>)
    requires forall x :: a[x] == b[x]
    ensures a == b
  {
  }

  /** With distinct keys the order of arrival does not matter. */
  lemma OrderIrrelevant<T>(a: seq<T>, b: seq<T>, key: T -> int)
    requires multiset(a) == multiset(b) && DistinctKeys(a, key)
    ensures Sort(a, key) == Sort(b, key)
  {
    SortKeeps(a, key);
    SortKeeps(b, key);
    forall k ensures WithKey(a, key, k) == WithKey(b, key, k) {
      SameWithKey(a, b, key, k);
    }
    Determined(Sort(a, key), Sort(b, key), key);
  }

  lemma SameWithKey<T>(a: seq<T>, b: seq<T>, key: T -> int, k: int)
    requires multiset(a) == multiset(b) && DistinctKeys(a, key)
    ensures WithKey(a, key, k) == WithKey(b, key, k)
  {
    WithKeyAtMostOne(a, key, k);
    WithKeyCounts(a, key, k);
    WithKeyCounts(b, key, k);
    var x, y := WithKey(a, key, k), WithKey(b, key, k);
    SameMultiset(multiset(x), multiset(y));
    assert |x| == |multiset(x)| == |multiset(y)| == |y|;
    if |x| == 1 {
      assert x[0] in multiset(x) && x == [x[0]] && y == [y[0]];
      assert multiset(y) == multiset{y[0]};
    }
  }
}
